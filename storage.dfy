/** The per-file bookkeeping table of the indexer (`MinimaStore` over the `minimadoc` table).
    The SQL table is a map from file path to its row; database errors are a parameter. */
module Storage {
  import opened Outcomes

  /** The decision `check_needs_indexing` returns. */
  datatype IndexingStatus = NewFile | NeedReindexing | NoNeedReindexing

  /** The values of the `status` column. */
  datatype FileStatus = Uploaded | Indexing | Indexed | Failed

  /** One row: the path is the primary key; the timestamp and the duration may be NULL. */
  datatype MinimaDoc = MinimaDoc(
    fpath: string,
    lastUpdatedSeconds: Option<int>,
    indexingTimeSeconds: Option<real>,
    status: FileStatus)

  type Table = map<string, MinimaDoc>

  /** Every row is stored under its own primary key. */
  predicate Keyed(t: Table)
  {
    forall p | p in t :: t[p].fpath == p
  }

  predicate Distinct<T(==)>(s: seq<T>)
  {
    forall i, j | 0 <= i < j < |s| :: s[i] != s[j]
  }

  /** The rows listed have pairwise different paths. */
  predicate DistinctPaths(docs: seq<MinimaDoc>)
  {
    forall i, j | 0 <= i < j < |docs| :: docs[i].fpath != docs[j].fpath
  }

  /** The row a new path gets: the given timestamp, no duration, status `uploaded`. */
  function NewRow(fpath: string, lastUpdatedSeconds: int): MinimaDoc
  {
    MinimaDoc(fpath, Some(lastUpdatedSeconds), None, Uploaded)
  }

  /** The stored timestamp is older than the incoming one. `None < int` raises in Python, so
      a row without a timestamp is never stale: the check fails and answers "no reindex". */
  predicate Stale(doc: MinimaDoc, lastUpdatedSeconds: int)
  {
    doc.lastUpdatedSeconds.Some? && doc.lastUpdatedSeconds.value < lastUpdatedSeconds
  }

  /** What one call of `check_needs_indexing` answers and leaves in the table. */
  datatype Check = Check(status: IndexingStatus, table: Table)

  /** The decision of `check_needs_indexing`, with `fails` standing for an exception raised by
      the database during the call (the transaction is then not committed). */
  function NeedsIndexing(t: Table, fpath: string, lastUpdatedSeconds: int, fails: bool): (r: Check)
    ensures r.status != NoNeedReindexing <==> !fails && (fpath !in t || Stale(t[fpath], lastUpdatedSeconds))
    ensures r.status == NewFile <==> !fails && fpath !in t
    ensures r.status == NewFile ==> r.table == t[fpath := NewRow(fpath, lastUpdatedSeconds)]
    ensures r.status == NeedReindexing ==>
      fpath in t && r.table == t[fpath := t[fpath].(lastUpdatedSeconds := Some(lastUpdatedSeconds))]
    ensures r.status == NoNeedReindexing ==> r.table == t
    ensures r.table.Keys == t.Keys + (if r.status == NewFile then {fpath} else {})
  {
    if fails then Check(NoNeedReindexing, t)
    else if fpath !in t then Check(NewFile, t[fpath := NewRow(fpath, lastUpdatedSeconds)])
    else if Stale(t[fpath], lastUpdatedSeconds) then
      Check(NeedReindexing, t[fpath := t[fpath].(lastUpdatedSeconds := Some(lastUpdatedSeconds))])
    else Check(NoNeedReindexing, t)
  }

  /** A check never moves a stored timestamp back, and never touches a row's status or
      indexing time. */
  lemma CheckKeepsRows(t: Table, fpath: string, lastUpdatedSeconds: int, fails: bool)
    ensures var r := NeedsIndexing(t, fpath, lastUpdatedSeconds, fails);
      && (forall p | p in t && t[p].lastUpdatedSeconds.Some? ::
            r.table[p].lastUpdatedSeconds.Some? && r.table[p].lastUpdatedSeconds.value >= t[p].lastUpdatedSeconds.value)
      && (forall p | p in t :: r.table[p].status == t[p].status && r.table[p].indexingTimeSeconds == t[p].indexingTimeSeconds)
  {
  }

  /** A check that keeps the primary-key invariant of the table. */
  lemma NeedsIndexingKeyed(t: Table, fpath: string, lastUpdatedSeconds: int, fails: bool)
    requires Keyed(t)
    ensures Keyed(NeedsIndexing(t, fpath, lastUpdatedSeconds, fails).table)
  {
  }

  /** Checking a path a second time with the same timestamp does nothing: the first check has
      stored that timestamp, or, for a stored NULL timestamp, both comparisons raise and the
      handler answers "no reindex" twice. */
  lemma CheckTwiceIsNoop(t: Table, fpath: string, lastUpdatedSeconds: int)
    ensures var first := NeedsIndexing(t, fpath, lastUpdatedSeconds, false);
      NeedsIndexing(first.table, fpath, lastUpdatedSeconds, false) == Check(NoNeedReindexing, first.table)
  {
  }

  /** The statuses of successive fault-free checks of one path, and the table left behind. */
  function Checks(t: Table, fpath: string, ts: seq<int>): (r: (seq<IndexingStatus>, Table))
    ensures |r.0| == |ts|
  {
    if ts == [] then ([], t)
    else
      var before := Checks(t, fpath, ts[..|ts| - 1]);
      var c := NeedsIndexing(before.1, fpath, ts[|ts| - 1], false);
      (before.0 + [c.status], c.table)
  }

  /** The largest of `m` and the elements of `ts`. */
  function MaxFrom(m: int, ts: seq<int>): int
  {
    if ts == [] then m
    else
      var k := MaxFrom(m, ts[..|ts| - 1]);
      if ts[|ts| - 1] > k then ts[|ts| - 1] else k
  }

  /** Over any sequence of checks of a path whose row holds timestamp `m`, a check asks for
      reindexing exactly when its timestamp is strictly greater than every timestamp stored
      or submitted before it, and the stored timestamp ends at the running maximum. */
  lemma {:induction false} ChecksTrackMaximum(t: Table, fpath: string, m: int, ts: seq<int>)
    requires fpath in t && t[fpath].lastUpdatedSeconds == Some(m)
    ensures var r := Checks(t, fpath, ts);
      && fpath in r.1
      && r.1[fpath].lastUpdatedSeconds == Some(MaxFrom(m, ts))
      && r.1.Keys == t.Keys
      && forall k | 0 <= k < |ts| ::
           && r.0[k] != NewFile
           && (r.0[k] == NeedReindexing <==> ts[k] > MaxFrom(m, ts[..k]))
  {
    if ts != [] {
      var init := ts[..|ts| - 1];
      ChecksTrackMaximum(t, fpath, m, init);
      var before := Checks(t, fpath, init);
      var r := Checks(t, fpath, ts);
      assert r.0 == before.0 + [NeedsIndexing(before.1, fpath, ts[|ts| - 1], false).status];
      forall k | 0 <= k < |ts|
        ensures r.0[k] != NewFile && (r.0[k] == NeedReindexing <==> ts[k] > MaxFrom(m, ts[..k]))
      {
        if k < |ts| - 1 {
          assert r.0[k] == before.0[k];
          assert init[..k] == ts[..k];
          assert init[k] == ts[k];
        } else {
          assert ts[..k] == init;
        }
      }
    }
  }

  /** The view of a row returned by `get_indexing_stats` and `get_files_status`. */
  datatype FileEntry = FileEntry(
    path: string,
    indexingTimeSeconds: Option<real>,
    lastUpdated: Option<int>,
    status: FileStatus)

  /** `round(t, 2) if t else None`: a duration of exactly zero is shown as `None` as well. */
  function ShownTime(t: Option<real>): (r: Option<real>)
    ensures r.Some? <==> t.Some? && t.value != 0.0
    ensures r.Some? ==> r == t
  {
    if t.Some? && t.value != 0.0 then t else None
  }

  function EntryOf(doc: MinimaDoc): FileEntry
  {
    FileEntry(doc.fpath, ShownTime(doc.indexingTimeSeconds), doc.lastUpdatedSeconds, doc.status)
  }

  function EntriesOf(docs: seq<MinimaDoc>): (r: seq<FileEntry>)
    ensures |r| == |docs| && forall i | 0 <= i < |docs| :: r[i] == EntryOf(docs[i])
  {
    if docs == [] then [] else [EntryOf(docs[0])] + EntriesOf(docs[1..])
  }

  /** `t or 0.0` */
  function TimeOrZero(t: Option<real>): real
  {
    if t.Some? then t.value else 0.0
  }

  /** `sum(doc.indexing_time_seconds or 0.0 for doc in docs)` */
  function TotalTime(docs: seq<MinimaDoc>): real
  {
    if docs == [] then 0.0 else TimeOrZero(docs[0].indexingTimeSeconds) + TotalTime(docs[1..])
  }

  /** The sum of the durations of the rows of a table, a missing one counting as 0, in no
      particular order. */
  ghost function TableTime(t: Table): real
    decreases |t|
  {
    if t == map[] then 0.0
    else
      var p :| p in t;
      TimeOrZero(t[p].indexingTimeSeconds) + TableTime(t - {p})
  }

  /** Any row can be taken out of the table's sum first. */
  lemma {:induction false} TableTimeRemove(t: Table, q: string)
    requires q in t
    ensures TableTime(t) == TimeOrZero(t[q].indexingTimeSeconds) + TableTime(t - {q})
    decreases |t|
  {
    var p :| p in t && TableTime(t) == TimeOrZero(t[p].indexingTimeSeconds) + TableTime(t - {p});
    if p != q {
      assert (t - {p}).Keys == t.Keys - {p};
      assert (t - {q}).Keys == t.Keys - {q};
      TableTimeRemove(t - {p}, q);
      TableTimeRemove(t - {q}, p);
      assert t - {p} - {q} == t - {q} - {p};
    }
  }

  /** Summing a listing that holds every row of the table once gives the table's sum. */
  lemma {:induction false} TotalTimeOfAllRows(t: Table, all: seq<MinimaDoc>)
    requires Keyed(t) && DistinctPaths(all)
    requires forall i | 0 <= i < |all| :: all[i].fpath in t && t[all[i].fpath] == all[i]
    requires forall p | p in t :: t[p] in all
    ensures TotalTime(all) == TableTime(t)
    decreases |all|
  {
    if all != [] {
      var q := all[0].fpath;
      var rest := t - {q};
      forall i | 0 <= i < |all[1..]| ensures all[1..][i].fpath in rest && rest[all[1..][i].fpath] == all[1..][i] {
        assert all[1..][i] == all[i + 1];
        assert all[i + 1].fpath != all[0].fpath;
      }
      forall p | p in rest ensures rest[p] in all[1..] {
        var i :| 0 <= i < |all| && all[i] == t[p];
        assert i != 0;
        assert all[1..][i - 1] == all[i];
      }
      TotalTimeOfAllRows(rest, all[1..]);
      TableTimeRemove(t, q);
    }
  }

  /** The same sum read off the shown entries. */
  function EntryTotal(files: seq<FileEntry>): real
  {
    if files == [] then 0.0 else TimeOrZero(files[0].indexingTimeSeconds) + EntryTotal(files[1..])
  }

  /** `len([doc for doc in docs if doc.indexing_time_seconds is not None])` */
  function TimedCount(docs: seq<MinimaDoc>): nat
  {
    if docs == [] then 0 else (if docs[0].indexingTimeSeconds.Some? then 1 else 0) + TimedCount(docs[1..])
  }

  /** The reply of `get_indexing_stats` (durations are not rounded). */
  datatype Stats = Stats(
    totalFiles: nat,
    totalIndexingTime: real,
    averageIndexingTime: real,
    files: seq<FileEntry>)

  function StatsOf(docs: seq<MinimaDoc>): Stats
  {
    if docs == [] then Stats(0, 0.0, 0.0, [])
    else
      var total := TotalTime(docs);
      var timed := TimedCount(docs);
      Stats(|docs|, total, if timed > 0 then total / timed as real else 0.0, EntriesOf(docs))
  }

  /** Showing a zero duration as `None` does not change the total: the total can be read off
      the shown entries. */
  lemma {:induction false} TotalFromEntries(docs: seq<MinimaDoc>)
    ensures EntryTotal(EntriesOf(docs)) == TotalTime(docs)
  {
    if docs != [] {
      TotalFromEntries(docs[1..]);
      assert EntriesOf(docs)[1..] == EntriesOf(docs[1..]);
    }
  }

  /** The rows with a recorded duration, by path. */
  function TimedPaths(docs: seq<MinimaDoc>): set<string>
  {
    set i | 0 <= i < |docs| && docs[i].indexingTimeSeconds.Some? :: docs[i].fpath
  }

  /** Over rows with distinct paths, the count of timed rows is the number of timed paths. */
  lemma {:induction false} TimedCountIsCardinality(docs: seq<MinimaDoc>)
    requires DistinctPaths(docs)
    ensures TimedCount(docs) == |TimedPaths(docs)|
  {
    if docs != [] {
      TimedCountIsCardinality(docs[1..]);
      TimedPathsSplit(docs);
      FirstPathNotLater(docs);
    }
  }

  /** The timed paths of a list are those of its first row and of the rest. */
  lemma TimedPathsSplit(docs: seq<MinimaDoc>)
    requires docs != []
    ensures TimedPaths(docs) == (if docs[0].indexingTimeSeconds.Some? then {docs[0].fpath} else {}) + TimedPaths(docs[1..])
  {
    var rest := docs[1..];
    forall p | p in TimedPaths(docs)
      ensures p in (if docs[0].indexingTimeSeconds.Some? then {docs[0].fpath} else {}) + TimedPaths(rest)
    {
      var i :| 0 <= i < |docs| && docs[i].indexingTimeSeconds.Some? && docs[i].fpath == p;
      if i > 0 { assert rest[i - 1] == docs[i]; }
    }
    forall p | p in TimedPaths(rest) ensures p in TimedPaths(docs) {
      var i :| 0 <= i < |rest| && rest[i].indexingTimeSeconds.Some? && rest[i].fpath == p;
      assert docs[i + 1] == rest[i];
    }
  }

  /** With distinct paths, the first row's path is not among the rest's. */
  lemma FirstPathNotLater(docs: seq<MinimaDoc>)
    requires docs != [] && DistinctPaths(docs)
    ensures docs[0].fpath !in TimedPaths(docs[1..])
  {
    forall i | 0 <= i < |docs[1..]| ensures docs[1..][i].fpath != docs[0].fpath {
      assert docs[1..][i] == docs[i + 1];
    }
  }

  /** The number of rows of a table that have a recorded duration. */
  function TimedRows(t: Table): nat
  {
    |set p | p in t && t[p].indexingTimeSeconds.Some?|
  }

  /** The statistics over a listing of every row of a table, each once: the counts, the total
      read off the entries, and the average over the rows with a duration. */
  lemma StatsOfAllRows(t: Table, all: seq<MinimaDoc>)
    requires Keyed(t) && DistinctPaths(all)
    requires |all| == |t|
    requires forall i | 0 <= i < |all| :: all[i].fpath in t && t[all[i].fpath] == all[i]
    requires forall p | p in t :: t[p] in all
    ensures var s := StatsOf(all);
      && (t == map[] ==> s == Stats(0, 0.0, 0.0, []))
      && s.totalFiles == |t| && |s.files| == |t|
      && (forall p | p in t :: EntryOf(t[p]) in s.files)
      && (forall e | e in s.files :: e.path in t && e == EntryOf(t[e.path]))
      && s.totalIndexingTime == EntryTotal(s.files)
      && s.averageIndexingTime == if TimedRows(t) > 0 then s.totalIndexingTime / TimedRows(t) as real else 0.0
  {
    TotalFromEntries(all);
    TimedCountIsCardinality(all);
    TimedPathsOfRows(t, all);
    if t == map[] {
      assert |t| == 0;
    } else {
      assert all != [];
    }
  }

  /** The timed paths of a listing of every row are the timed keys of the table. */
  lemma TimedPathsOfRows(t: Table, all: seq<MinimaDoc>)
    requires Keyed(t)
    requires forall i | 0 <= i < |all| :: all[i].fpath in t && t[all[i].fpath] == all[i]
    requires forall p | p in t :: t[p] in all
    ensures TimedPaths(all) == set p | p in t && t[p].indexingTimeSeconds.Some?
  {
    forall p | p in t && t[p].indexingTimeSeconds.Some? ensures p in TimedPaths(all) {
      var i :| 0 <= i < |all| && all[i] == t[p];
      assert all[i].fpath == p;
    }
  }

  /** The `minimadoc` table, as an object holding its rows. */
  class MinimaStore {
    var docs: Table

    ghost predicate Valid()
      reads this
    {
      Keyed(docs)
    }

    /** A store over the rows the database already holds. */
    constructor (rows: Table)
      requires Keyed(rows)
      ensures Valid() && docs == rows
    {
      docs := rows;
    }

    /** `delete_m_doc`: `.one()` raises when no row has the path. */
    method DeleteMDoc(fpath: string) returns (o: Outcome)
      requires Valid()
      modifies this
      ensures Valid()
      ensures o.Pass? <==> fpath in old(docs)
      ensures docs == old(docs) - {fpath}
    {
      if fpath !in docs {
        return Fail("No row was found when one was required");
      }
      docs := docs - {fpath};
      o := Pass;
    }

    /** `select_m_doc`: the row of the path; `.one()` raises when there is none. */
    method SelectMDoc(fpath: string) returns (r: Result<MinimaDoc>)
      requires Valid()
      ensures r.Ok? <==> fpath in docs
      ensures r.Ok? ==> r.value == docs[fpath] && r.value.fpath == fpath
    {
      if fpath !in docs {
        return Err("No row was found when one was required");
      }
      r := Ok(docs[fpath]);
    }

    /** `find_removed_files`: collects the stored paths not in `existing` (in the database's
        row order, which the model leaves open) and then deletes each of their rows. */
    method FindRemovedFiles(existing: set<string>) returns (removed: seq<string>)
      requires Valid()
      modifies this
      ensures Valid()
      ensures Distinct(removed)
      ensures forall p :: p in removed <==> p in old(docs) && p !in existing
      ensures docs == map p | p in old(docs) && p in existing :: old(docs)[p]
    {
      removed := [];
      var unvisited := docs.Keys;
      while unvisited != {}
        invariant unvisited <= docs.Keys
        invariant Distinct(removed)
        invariant forall p :: p in removed <==> p in docs && p !in unvisited && p !in existing
        decreases unvisited
      {
        var p :| p in unvisited;
        if p !in existing {
          removed := removed + [p];
        }
        unvisited := unvisited - {p};
      }
      ghost var before := docs;
      var i := 0;
      while i < |removed|
        invariant 0 <= i <= |removed|
        invariant Valid()
        invariant docs == map p | p in before && p !in removed[..i] :: before[p]
      {
        assert removed[i] in docs by {
          assert removed[i] !in removed[..i];
        }
        var o := DeleteMDoc(removed[i]);
        assert removed[..i + 1] == removed[..i] + [removed[i]];
        i := i + 1;
      }
      assert removed[..i] == removed;
    }

    /** `check_needs_indexing`: the check-and-set on the stored timestamp. */
    method CheckNeedsIndexing(fpath: string, lastUpdatedSeconds: int, fails: bool) returns (status: IndexingStatus)
      requires Valid()
      modifies this
      ensures Valid()
      ensures Check(status, docs) == NeedsIndexing(old(docs), fpath, lastUpdatedSeconds, fails)
    {
      if fails {
        return NoNeedReindexing;
      }
      status := NoNeedReindexing;
      if fpath in docs {
        var doc := docs[fpath];
        match doc.lastUpdatedSeconds
        case None =>
          // `None < int` raises; the handler answers "no reindex" and nothing is committed
          return NoNeedReindexing;
        case Some(stored) =>
          if stored < lastUpdatedSeconds {
            status := NeedReindexing;
            docs := docs[fpath := doc.(lastUpdatedSeconds := Some(lastUpdatedSeconds))];
          }
      } else {
        docs := docs[fpath := NewRow(fpath, lastUpdatedSeconds)];
        status := NewFile;
      }
    }

    /** `update_indexing_time`: sets the duration of one row, if it exists and nothing fails. */
    method UpdateIndexingTime(fpath: string, indexingTimeSeconds: real, fails: bool)
      requires Valid()
      modifies this
      ensures Valid()
      ensures docs == if !fails && fpath in old(docs)
        then old(docs)[fpath := old(docs)[fpath].(indexingTimeSeconds := Some(indexingTimeSeconds))]
        else old(docs)
    {
      if !fails && fpath in docs {
        var doc := docs[fpath];
        docs := docs[fpath := doc.(indexingTimeSeconds := Some(indexingTimeSeconds))];
      }
    }

    /** `update_file_status`: sets the status of one row, if it exists and nothing fails. */
    method UpdateFileStatus(fpath: string, status: FileStatus, fails: bool)
      requires Valid()
      modifies this
      ensures Valid()
      ensures docs == if !fails && fpath in old(docs)
        then old(docs)[fpath := old(docs)[fpath].(status := status)]
        else old(docs)
    {
      if !fails && fpath in docs {
        var doc := docs[fpath];
        docs := docs[fpath := doc.(status := status)];
      }
    }

    /** `get_all_docs`: every row once, in an order the model leaves open. */
    method GetAllDocs() returns (all: seq<MinimaDoc>)
      requires Valid()
      ensures DistinctPaths(all)
      ensures |all| == |docs|
      ensures forall i | 0 <= i < |all| :: all[i].fpath in docs && docs[all[i].fpath] == all[i]
      ensures forall p | p in docs :: docs[p] in all
    {
      all := [];
      var unvisited := docs.Keys;
      while unvisited != {}
        invariant unvisited <= docs.Keys
        invariant DistinctPaths(all)
        invariant |all| + |unvisited| == |docs.Keys|
        invariant forall i | 0 <= i < |all| :: all[i].fpath in docs && all[i].fpath !in unvisited && docs[all[i].fpath] == all[i]
        invariant forall p | p in docs && p !in unvisited :: docs[p] in all
        decreases unvisited
      {
        var p :| p in unvisited;
        all := all + [docs[p]];
        unvisited := unvisited - {p};
      }
    }

    /** `get_indexing_stats`: totals and one entry per row (no rounding). */
    method GetIndexingStats() returns (s: Stats)
      requires Valid()
      ensures docs == map[] ==> s == Stats(0, 0.0, 0.0, [])
      ensures s.totalFiles == |docs| && |s.files| == |docs|
      ensures forall p | p in docs :: EntryOf(docs[p]) in s.files
      ensures forall e | e in s.files :: e.path in docs && e == EntryOf(docs[e.path])
      ensures s.totalIndexingTime == TableTime(docs) == EntryTotal(s.files)
      ensures s.averageIndexingTime ==
        if TimedRows(docs) > 0 then TableTime(docs) / TimedRows(docs) as real else 0.0
    {
      var all := GetAllDocs();
      s := StatsOf(all);
      StatsOfAllRows(docs, all);
      TotalTimeOfAllRows(docs, all);
      assert all != [] ==> s.totalIndexingTime == TotalTime(all);
    }

    /** `get_files_status`: one entry per stored row whose path is requested. */
    method GetFilesStatus(fpaths: seq<string>) returns (entries: seq<FileEntry>)
      requires Valid()
      ensures forall i, j | 0 <= i < j < |entries| :: entries[i].path != entries[j].path
      ensures forall e | e in entries :: e.path in docs && e.path in fpaths && e == EntryOf(docs[e.path])
      ensures forall p | p in docs && p in fpaths :: EntryOf(docs[p]) in entries
    {
      entries := [];
      var unvisited := set p | p in docs && p in fpaths;
      while unvisited != {}
        invariant unvisited <= docs.Keys
        invariant forall i, j | 0 <= i < j < |entries| :: entries[i].path != entries[j].path
        invariant forall e | e in entries :: e.path in docs && e.path in fpaths && e.path !in unvisited && e == EntryOf(docs[e.path])
        invariant forall p | p in docs && p in fpaths && p !in unvisited :: EntryOf(docs[p]) in entries
        decreases unvisited
      {
        var p :| p in unvisited;
        entries := entries + [EntryOf(docs[p])];
        unvisited := unvisited - {p};
      }
    }
  }
}
