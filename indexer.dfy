/** The indexing consumer (`Indexer`): the lazily filled cache of per-pool vector stores, and
    the operations that add, remove and search chunks. The vector database is a map from
    collection name to the chunks it holds, in insertion order; the loader and splitter, the
    database's failures and the similarity search are parameters. */
module Indexing {
  import opened Outcomes
  import opened Text
  import opened Storage
  import opened Routing

  /** A point of a collection: its id, its `metadata.file_path` and its text. */
  datatype Chunk = Chunk(id: nat, filePath: string, content: string)

  /** What `loader.load_and_split(...)` gives for a file: the chunk texts, or an exception. */
  datatype Split = Pieces(texts: seq<string>) | LoadFailed

  /** A `QdrantVectorStore` bound to one collection. */
  datatype StoreHandle = StoreHandle(collection: string)

  /** A "file" message of the work queue. */
  datatype FileMessage = FileMessage(path: string, fileId: string, lastUpdatedSeconds: int)

  /** A similarity-search hit: its metadata path (`None` when the key is missing) and text. */
  datatype Hit = Hit(filePath: Option<string>, content: string)

  /** The reply of `find`. */
  datatype FindReply = Found(links: set<string>, output: string) | FindError(error: string)

  type Collections = map<string, seq<Chunk>>

  /** How a run of `_setup_collection` ends: it returns a store, or the vector database raises
      while checking for or creating the collection (nothing is created), or later, on the
      payload index or the store itself (the collection exists by then). */
  datatype SetupFault = SetupOk | CreateFails(message: string) | IndexFails(message: string)

  /** `collection_exists` followed by `create_collection` when it is absent. */
  function Ensured(cols: Collections, pool: string): (r: Collections)
    ensures r.Keys == cols.Keys + {pool}
    ensures forall p | p in cols :: r[p] == cols[p]
    ensures pool !in cols ==> r[pool] == []
  {
    if pool in cols then cols else cols[pool := []]
  }

  /** The elements of a list, as a set. */
  function SetOf(xs: seq<string>): (r: set<string>)
    ensures forall x :: x in r <==> x in xs
  {
    set x | x in xs
  }

  /** Every id in the collections is below `n`: ids from `n` on are fresh. */
  predicate IdsBelow(cols: Collections, n: nat)
  {
    forall p, c | p in cols && c in cols[p] :: c.id < n
  }

  /** The documents of one file, tagged with its path and given consecutive fresh ids: one
      chunk per text, in order, each with the file's path, and pairwise different ids taken
      from the `|texts|` ids from `first` on. */
  function Tagged(texts: seq<string>, filePath: string, first: nat): (r: seq<Chunk>)
    ensures |r| == |texts|
    ensures forall i | 0 <= i < |r| :: r[i].filePath == filePath && r[i].content == texts[i]
    ensures forall i | 0 <= i < |r| :: first <= r[i].id < first + |texts|
    ensures forall i, j | 0 <= i < j < |r| :: r[i].id != r[j].id
  {
    seq(|texts|, i requires 0 <= i < |texts| => Chunk(first + i, filePath, texts[i]))
  }

  function Ids(chunks: seq<Chunk>): (r: seq<nat>)
    ensures |r| == |chunks| && forall i | 0 <= i < |r| :: r[i] == chunks[i].id
  {
    seq(|chunks|, i requires 0 <= i < |chunks| => chunks[i].id)
  }

  /** The ids given to the chunks of one file are pairwise different and unused so far. */
  lemma TaggedIdsFresh(cols: Collections, texts: seq<string>, filePath: string, first: nat)
    requires IdsBelow(cols, first)
    ensures Distinct(Ids(Tagged(texts, filePath, first)))
    ensures forall p, c, d | p in cols && c in cols[p] && d in Tagged(texts, filePath, first) :: c.id != d.id
  {
  }

  /** A chunk matches `Filter(must=[FieldCondition(file_path == f) for f in paths])` when its
      path equals every one of them: a conjunction, not a disjunction. */
  predicate MatchesAll(c: Chunk, paths: seq<string>)
  {
    forall i | 0 <= i < |paths| :: c.filePath == paths[i]
  }

  /** The chunks a delete with that filter leaves, in their order. */
  function Without(chunks: seq<Chunk>, paths: seq<string>): (r: seq<Chunk>)
    ensures |r| <= |chunks|
    ensures forall c :: c in r <==> c in chunks && !MatchesAll(c, paths)
  {
    if chunks == [] then []
    else if MatchesAll(chunks[0], paths) then Without(chunks[1..], paths)
    else [chunks[0]] + Without(chunks[1..], paths)
  }

  /** When no chunk matches, the delete leaves the collection as it is. */
  lemma {:induction false} WithoutNoMatch(chunks: seq<Chunk>, paths: seq<string>)
    requires forall i | 0 <= i < |chunks| :: !MatchesAll(chunks[i], paths)
    ensures Without(chunks, paths) == chunks
  {
    if chunks != [] {
      WithoutNoMatch(chunks[1..], paths);
    }
  }

  /** `[fpath for fpath in files if self._poolname_from_file_path(fpath) == pool]` */
  function PoolFileList(files: seq<string>, pool: string, containerPath: Option<string>): (r: seq<string>)
    ensures |r| <= |files|
    ensures forall f :: f in r <==> f in files && PoolName(f, containerPath) == pool
  {
    if files == [] then []
    else if PoolName(files[0], containerPath) == pool then [files[0]] + PoolFileList(files[1..], pool, containerPath)
    else PoolFileList(files[1..], pool, containerPath)
  }

  /** A pool's chunks after one delete over the files that route to it, when there are any. */
  function PoolAfterRemoval(chunks: seq<Chunk>, pool: string, files: seq<string>, containerPath: Option<string>): seq<Chunk>
  {
    var mine := PoolFileList(files, pool, containerPath);
    if mine != [] then Without(chunks, mine) else chunks
  }

  /** One iteration of `remove_from_storage`'s loop, for one pool. */
  function RemoveStep(cols: Collections, pool: string, files: seq<string>, containerPath: Option<string>): Collections
  {
    if pool in cols then cols[pool := PoolAfterRemoval(cols[pool], pool, files, containerPath)] else cols
  }

  /** One iteration replaces the pool's chunks exactly when some file routes to it. */
  lemma RemoveStepUpdates(cols: Collections, pool: string, files: seq<string>, containerPath: Option<string>)
    requires pool in cols
    ensures var mine := PoolFileList(files, pool, containerPath);
      RemoveStep(cols, pool, files, containerPath) == if mine != [] then cols[pool := Without(cols[pool], mine)] else cols
  {
    var mine := PoolFileList(files, pool, containerPath);
    if mine == [] {
      assert cols[pool := cols[pool]] == cols;
    }
  }

  /** The collections after `remove_from_storage(files)` visits `pools`, in that order. */
  function Removed(cols: Collections, pools: seq<string>, files: seq<string>, containerPath: Option<string>): (r: Collections)
    ensures r.Keys == cols.Keys
  {
    if pools == [] then cols
    else RemoveStep(Removed(cols, pools[..|pools| - 1], files, containerPath), pools[|pools| - 1], files, containerPath)
  }

  /** Visiting one more pool is one more step. */
  lemma RemovedOneMore(cols: Collections, pools: seq<string>, i: nat, files: seq<string>, containerPath: Option<string>)
    requires i < |pools|
    ensures Removed(cols, pools[..i + 1], files, containerPath)
      == RemoveStep(Removed(cols, pools[..i], files, containerPath), pools[i], files, containerPath)
  {
    assert pools[..i + 1][..i] == pools[..i];
  }

  /** Visiting one more pool that is present: its chunks are filtered exactly when some file
      routes to it. */
  lemma RemovedNext(cols: Collections, pools: seq<string>, i: nat, files: seq<string>, containerPath: Option<string>)
    requires i < |pools| && pools[i] in Removed(cols, pools[..i], files, containerPath)
    ensures var before := Removed(cols, pools[..i], files, containerPath);
      var mine := PoolFileList(files, pools[i], containerPath);
      Removed(cols, pools[..i + 1], files, containerPath)
        == if mine != [] then before[pools[i] := Without(before[pools[i]], mine)] else before
  {
    RemovedOneMore(cols, pools, i, files, containerPath);
    RemoveStepUpdates(Removed(cols, pools[..i], files, containerPath), pools[i], files, containerPath);
  }

  /** Visiting distinct pools, every visited pool gets its own delete once, and every other
      collection is left alone, whatever the order of the visit. */
  lemma {:induction false} RemovedPointwise(cols: Collections, pools: seq<string>, files: seq<string>, containerPath: Option<string>)
    requires Distinct(pools)
    ensures var r := Removed(cols, pools, files, containerPath);
      && r.Keys == cols.Keys
      && forall p | p in cols :: r[p] == if p in pools then PoolAfterRemoval(cols[p], p, files, containerPath) else cols[p]
  {
    if pools != [] {
      var front := pools[..|pools| - 1];
      var last := pools[|pools| - 1];
      assert Distinct(front);
      RemovedPointwise(cols, front, files, containerPath);
      assert last !in front;
      forall p | p in cols
        ensures p in pools <==> p in front || p == last
      {
        assert pools == front + [last];
      }
    }
  }

  /** Without files to remove, nothing is removed. */
  lemma NothingRemoved(cols: Collections, pools: seq<string>, containerPath: Option<string>)
    requires Distinct(pools)
    ensures Removed(cols, pools, [], containerPath) == cols
  {
    RemovedPointwise(cols, pools, [], containerPath);
  }

  /** Removal deletes and never adds: each chunk left in a pool was there before. */
  lemma RemovedOnlyDeletes(cols: Collections, pools: seq<string>, files: seq<string>, containerPath: Option<string>)
    requires Distinct(pools)
    ensures var r := Removed(cols, pools, files, containerPath);
      forall p, c | p in r && c in r[p] :: p in cols && c in cols[p]
  {
    RemovedPointwise(cols, pools, files, containerPath);
  }

  /** Removal hands out no id, so every id left stays below the next fresh one. */
  lemma RemovedKeepsIds(cols: Collections, pools: seq<string>, files: seq<string>, containerPath: Option<string>, n: nat)
    requires Distinct(pools) && IdsBelow(cols, n)
    ensures IdsBelow(Removed(cols, pools, files, containerPath), n)
  {
    RemovedOnlyDeletes(cols, pools, files, containerPath);
  }

  /** Removing one file deletes exactly that file's chunks from the pool the file routes to,
      provided that pool is cached, and nothing anywhere else. */
  lemma RemoveOneFile(cols: Collections, pools: seq<string>, path: string, containerPath: Option<string>)
    requires Distinct(pools)
    requires PoolName(path, containerPath) in pools && PoolName(path, containerPath) in cols
    ensures var r := Removed(cols, pools, [path], containerPath);
      var pool := PoolName(path, containerPath);
      && r.Keys == cols.Keys
      && (forall c :: c in r[pool] <==> c in cols[pool] && c.filePath != path)
      && (forall p | p in cols && p != pool :: r[p] == cols[p])
  {
    var pool := PoolName(path, containerPath);
    RemovedPointwise(cols, pools, [path], containerPath);
    OneFileList(path, pool, containerPath);
    forall p | p in cols && p != pool ensures PoolFileList([path], p, containerPath) == [] {
      OneFileList(path, p, containerPath);
    }
  }

  /** A single file is listed for its own pool only. */
  lemma OneFileList(path: string, pool: string, containerPath: Option<string>)
    ensures PoolFileList([path], pool, containerPath) == if PoolName(path, containerPath) == pool then [path] else []
  {
    assert [path][1..] == [];
  }

  /** Two different files that route to the same pool delete nothing from it: no chunk has
      both paths, so no chunk matches the conjunction. */
  lemma RemoveTwoFilesDeletesNothing(cols: Collections, pools: seq<string>, files: seq<string>,
                                     a: string, b: string, containerPath: Option<string>)
    requires Distinct(pools)
    requires a in files && b in files && a != b
    requires PoolName(a, containerPath) == PoolName(b, containerPath)
    requires PoolName(a, containerPath) in cols
    ensures Removed(cols, pools, files, containerPath)[PoolName(a, containerPath)] == cols[PoolName(a, containerPath)]
  {
    var pool := PoolName(a, containerPath);
    var mine := PoolFileList(files, pool, containerPath);
    RemovedPointwise(cols, pools, files, containerPath);
    assert a in mine && b in mine;
    WithoutNoMatch(cols[pool], mine);
  }

  /** A pool the cache does not hold is never visited, so its collection keeps every chunk. */
  lemma UncachedPoolUntouched(cols: Collections, pools: seq<string>, files: seq<string>, pool: string, containerPath: Option<string>)
    requires Distinct(pools)
    requires pool in cols && pool !in pools
    ensures Removed(cols, pools, files, containerPath)[pool] == cols[pool]
  {
    RemovedPointwise(cols, pools, files, containerPath);
  }

  /** The collections after one run of `_setup_collection` for `pool`. */
  function SetUp(cols: Collections, pool: string, fault: SetupFault): (r: Collections)
    ensures fault.CreateFails? ==> r == cols
    ensures !fault.CreateFails? ==> r.Keys == cols.Keys + {pool} && (pool in cols ==> r == cols)
  {
    if fault.CreateFails? then cols else Ensured(cols, pool)
  }

  /** The delete `remove_from_storage(files)` issues into `pool` raises: some file routes to
      the pool, so a delete is sent, and `deleteErrors` holds the vector database's message
      for failed deletes into that collection. */
  predicate DeleteRaises(pool: string, files: seq<string>, containerPath: Option<string>, deleteErrors: map<string, string>)
  {
    pool in deleteErrors && PoolFileList(files, pool, containerPath) != []
  }

  /** The position of the first pool of `pools` whose delete raises, or `|pools|` when none does. */
  function FirstFailing(pools: seq<string>, files: seq<string>, containerPath: Option<string>,
                        deleteErrors: map<string, string>): (k: nat)
    ensures k <= |pools|
    ensures forall j | 0 <= j < k :: !DeleteRaises(pools[j], files, containerPath, deleteErrors)
    ensures k < |pools| ==> DeleteRaises(pools[k], files, containerPath, deleteErrors)
  {
    if pools == [] then 0
    else if DeleteRaises(pools[0], files, containerPath, deleteErrors) then 0
    else 1 + FirstFailing(pools[1..], files, containerPath, deleteErrors)
  }

  /** The pools `remove_from_storage(files)` completes before a delete raises: all of them when
      none does. */
  function Reached(pools: seq<string>, files: seq<string>, containerPath: Option<string>,
                   deleteErrors: map<string, string>): seq<string>
  {
    pools[..FirstFailing(pools, files, containerPath, deleteErrors)]
  }

  /** A prefix of a list of distinct pools is one too. */
  lemma PrefixDistinct(pools: seq<string>, k: nat)
    requires Distinct(pools) && k <= |pools|
    ensures Distinct(pools[..k])
  {
  }

  /** One more pool of the loop: a raising delete is the first failing one, any other lets
      the loop go on. */
  lemma FirstFailingStep(pools: seq<string>, i: nat, files: seq<string>, containerPath: Option<string>,
                         deleteErrors: map<string, string>)
    requires i < |pools| && i <= FirstFailing(pools, files, containerPath, deleteErrors)
    ensures DeleteRaises(pools[i], files, containerPath, deleteErrors) ==> i == FirstFailing(pools, files, containerPath, deleteErrors)
    ensures !DeleteRaises(pools[i], files, containerPath, deleteErrors) ==> i < FirstFailing(pools, files, containerPath, deleteErrors)
  {
  }

  /** How far a removal gets: every pool in front of the first failing delete has had its
      delete, the failing pool and every pool behind it keep all their chunks, and with no
      failing delete every pool has had its own. */
  lemma RemovalStopsAtFailure(cols: Collections, pools: seq<string>, files: seq<string>, containerPath: Option<string>,
                              deleteErrors: map<string, string>)
    requires Distinct(pools)
    ensures var k := FirstFailing(pools, files, containerPath, deleteErrors);
      var r := Removed(cols, Reached(pools, files, containerPath, deleteErrors), files, containerPath);
      && r.Keys == cols.Keys
      && (forall i | 0 <= i < |pools| && pools[i] in cols ::
            r[pools[i]] == if i < k then PoolAfterRemoval(cols[pools[i]], pools[i], files, containerPath) else cols[pools[i]])
      && ((forall p | p in pools :: !DeleteRaises(p, files, containerPath, deleteErrors)) ==> k == |pools|)
  {
    var k := FirstFailing(pools, files, containerPath, deleteErrors);
    var front := pools[..k];
    assert Distinct(front);
    RemovedPointwise(cols, front, files, containerPath);
    forall i | 0 <= i < |pools| ensures pools[i] in front <==> i < k {
      if pools[i] in front {
        var j :| 0 <= j < k && front[j] == pools[i];
        assert j == i;
      }
    }
    if k < |pools| {
      assert pools[k] in pools;
    }
  }

  /** When a delete raises, the failing pool is one some removed file routes to, and its
      collection keeps every chunk, those of the removed files included. */
  lemma FailedDeleteKeepsChunks(cols: Collections, pools: seq<string>, files: seq<string>, containerPath: Option<string>,
                                deleteErrors: map<string, string>)
    requires Distinct(pools)
    requires FirstFailing(pools, files, containerPath, deleteErrors) < |pools|
    ensures var p := pools[FirstFailing(pools, files, containerPath, deleteErrors)];
      && p in deleteErrors
      && (exists f :: f in files && PoolName(f, containerPath) == p)
      && (p in cols ==> Removed(cols, Reached(pools, files, containerPath, deleteErrors), files, containerPath)[p] == cols[p])
  {
    var k := FirstFailing(pools, files, containerPath, deleteErrors);
    var p := pools[k];
    var mine := PoolFileList(files, p, containerPath);
    assert mine[0] in mine;
    if p in cols {
      var front := pools[..k];
      assert Distinct(front);
      assert forall j | 0 <= j < |front| :: front[j] != pools[k];
      UncachedPoolUntouched(cols, front, files, p, containerPath);
    }
  }

  /** Removing one file, the only delete that can raise is the one into the file's pool. */
  lemma FirstFailingOneFile(pools: seq<string>, path: string, containerPath: Option<string>, deleteErrors: map<string, string>)
    requires Distinct(pools) && PoolName(path, containerPath) in pools
    ensures var k := FirstFailing(pools, [path], containerPath, deleteErrors);
      var pool := PoolName(path, containerPath);
      && (pool !in deleteErrors ==> k == |pools|)
      && (pool in deleteErrors ==> k < |pools| && pools[k] == pool)
  {
    var k := FirstFailing(pools, [path], containerPath, deleteErrors);
    var pool := PoolName(path, containerPath);
    if k < |pools| {
      OneFileList(path, pools[k], containerPath);
    }
    if pool in deleteErrors {
      var m :| 0 <= m < |pools| && pools[m] == pool;
      OneFileList(path, pool, containerPath);
      assert DeleteRaises(pools[m], [path], containerPath, deleteErrors);
    }
  }

  /** The collections after `_process_file` once its pool is cached: the tagged chunks are
      appended to the pool of the file when the loader gives some and the write succeeds. */
  function Added(cols: Collections, path: string, split: Split, writeOk: bool, first: nat, containerPath: Option<string>): (r: Collections)
    requires PoolName(path, containerPath) in cols
    ensures r.Keys == cols.Keys
    ensures forall p | p in cols && p != PoolName(path, containerPath) :: r[p] == cols[p]
  {
    var pool := PoolName(path, containerPath);
    if split.Pieces? && split.texts != [] && writeOk
    then cols[pool := cols[pool] + Tagged(split.texts, path, first)]
    else cols
  }

  /** Writing a file's tagged chunks into its pool is the successful `Added`, and hands out
      no id from `first + |texts|` on. */
  lemma WriteKeepsIdsBelow(cols: Collections, texts: seq<string>, path: string, first: nat, containerPath: Option<string>)
    requires PoolName(path, containerPath) in cols && IdsBelow(cols, first + |texts|) && texts != []
    ensures var pool := PoolName(path, containerPath);
      var r := cols[pool := cols[pool] + Tagged(texts, path, first)];
      && r == Added(cols, path, Pieces(texts), true, first, containerPath)
      && IdsBelow(r, first + |texts|)
  {
    var pool := PoolName(path, containerPath);
    var r := cols[pool := cols[pool] + Tagged(texts, path, first)];
    forall p: string, c: Chunk | p in r && c in r[p] ensures c.id < first + |texts| {
      if p == pool && c !in cols[pool] {
        var i :| 0 <= i < |texts| && Tagged(texts, path, first)[i] == c;
      }
    }
  }

  /** The keys of the cache, in insertion order, once `pool` has been looked up. */
  function Cached(order: seq<string>, pool: string): (r: seq<string>)
    ensures Distinct(order) ==> Distinct(r)
    ensures forall p :: p in r <==> p in order || p == pool
  {
    if pool in order then order else order + [pool]
  }

  /** The collections after `index` of one file, given the decision of the state check;
      `order` holds the cached pools before the call. A changed file's removal stops at the
      first failing delete, which the handler swallows, and the new chunks are added anyway. */
  function AfterIndex(cols: Collections, order: seq<string>, path: string, status: IndexingStatus,
                      split: Split, writeOk: bool, first: nat, containerPath: Option<string>,
                      deleteErrors: map<string, string>): (r: Collections)
    ensures r.Keys == cols.Keys + {PoolName(path, containerPath)}
  {
    var base := Ensured(cols, PoolName(path, containerPath));
    if status == NoNeedReindexing then base
    else if status == NeedReindexing then
      var pools := Cached(order, PoolName(path, containerPath));
      Loaded(Removed(base, Reached(pools, [path], containerPath, deleteErrors), [path], containerPath),
             path, split, writeOk, first, containerPath)
    else Loaded(base, path, split, writeOk, first, containerPath)
  }

  /** The collections once a file with a loader has had its chunks added. */
  function Loaded(cols: Collections, path: string, split: Split, writeOk: bool, first: nat,
                  containerPath: Option<string>): (r: Collections)
    requires PoolName(path, containerPath) in cols
    ensures r.Keys == cols.Keys
  {
    if CreateLoader(path).Ok? then Added(cols, path, split, writeOk, first, containerPath) else cols
  }

  /** Reindexing a file. When the delete into its pool succeeds, its chunks are replaced:
      the chunks of that path in its pool are exactly the new ones, and the chunks of other
      paths are those that were there. When that delete raises, the handler swallows it and
      the new chunks are appended behind every old one, the file's old chunks included. */
  lemma ReindexReplacesChunks(cols: Collections, order: seq<string>, path: string, texts: seq<string>,
                              first: nat, containerPath: Option<string>, deleteErrors: map<string, string>)
    requires Distinct(order)
    requires CreateLoader(path).Ok? && texts != []
    ensures var pool := PoolName(path, containerPath);
      var r := AfterIndex(cols, order, path, NeedReindexing, Pieces(texts), true, first, containerPath, deleteErrors);
      && pool in r
      && (pool !in deleteErrors ==>
            && (forall c | c in r[pool] && c.filePath == path :: c in Tagged(texts, path, first))
            && (forall c | c in Tagged(texts, path, first) :: c in r[pool])
            && (forall c :: c in r[pool] && c.filePath != path <==> pool in cols && c in cols[pool] && c.filePath != path))
      && (pool in deleteErrors ==>
            r[pool] == Ensured(cols, pool)[pool] + Tagged(texts, path, first))
  {
    var pool := PoolName(path, containerPath);
    var base := Ensured(cols, pool);
    var pools := Cached(order, pool);
    var reached := Reached(pools, [path], containerPath, deleteErrors);
    FirstFailingOneFile(pools, path, containerPath, deleteErrors);
    var cleaned := Removed(base, reached, [path], containerPath);
    var r := AfterIndex(cols, order, path, NeedReindexing, Pieces(texts), true, first, containerPath, deleteErrors);
    var added := Tagged(texts, path, first);
    assert r[pool] == cleaned[pool] + added;
    if pool !in deleteErrors {
      assert reached == pools;
      RemoveOneFile(base, pools, path, containerPath);
    } else {
      FailedDeleteKeepsChunks(base, pools, [path], containerPath, deleteErrors);
    }
  }

  /** A new file only adds: every pool keeps all its chunks, in order, in front of new ones. */
  lemma NewFileOnlyAdds(cols: Collections, order: seq<string>, path: string, split: Split,
                        writeOk: bool, first: nat, containerPath: Option<string>, deleteErrors: map<string, string>)
    ensures var r := AfterIndex(cols, order, path, NewFile, split, writeOk, first, containerPath, deleteErrors);
      forall p | p in cols :: p in r && |cols[p]| <= |r[p]| && r[p][..|cols[p]|] == cols[p]
  {
    var base := Ensured(cols, PoolName(path, containerPath));
    var r := AfterIndex(cols, order, path, NewFile, split, writeOk, first, containerPath, deleteErrors);
    AfterNewFile(cols, order, path, split, writeOk, first, containerPath, deleteErrors);
    if CreateLoader(path).Ok? {
      AddedAppends(base, path, split, writeOk, first, containerPath);
      forall p | p in cols ensures KeepsPrefix(cols, r, p) {
        assert KeepsPrefix(base, r, p);
      }
    } else {
      assert r == base;
    }
  }

  /** For a new file, `index` makes sure of the pool and adds the chunks when the file loads. */
  lemma AfterNewFile(cols: Collections, order: seq<string>, path: string, split: Split,
                     writeOk: bool, first: nat, containerPath: Option<string>, deleteErrors: map<string, string>)
    ensures var base := Ensured(cols, PoolName(path, containerPath));
      AfterIndex(cols, order, path, NewFile, split, writeOk, first, containerPath, deleteErrors)
      == Loaded(base, path, split, writeOk, first, containerPath)
  {
  }

  /** Adding a file's chunks keeps every pool's chunks in front. */
  lemma AddedAppends(cols: Collections, path: string, split: Split, writeOk: bool, first: nat, containerPath: Option<string>)
    requires PoolName(path, containerPath) in cols
    ensures forall p | p in cols :: KeepsPrefix(cols, Added(cols, path, split, writeOk, first, containerPath), p)
  {
    if split.Pieces? && split.texts != [] && writeOk {
      AppendKeepsPrefixes(cols, PoolName(path, containerPath), Tagged(split.texts, path, first));
    }
  }

  /** Entry `p` of `m` is still in `r`, in front. */
  predicate KeepsPrefix<K, T(==)>(m: map<K, seq<T>>, r: map<K, seq<T>>, p: K)
    requires p in m
  {
    p in r && |m[p]| <= |r[p]| && r[p][..|m[p]|] == m[p]
  }

  /** Appending to one entry of a map of sequences keeps every entry in front. */
  lemma AppendKeepsPrefixes<K, T>(m: map<K, seq<T>>, k: K, extra: seq<T>)
    requires k in m
    ensures forall p | p in m :: KeepsPrefix(m, m[k := m[k] + extra], p)
  {
    assert (m[k] + extra)[..|m[k]|] == m[k];
  }

  /** Indexing a file a second time with the same modification time is a no-op: the state
      check answers "no reindex" and no collection changes. */
  lemma IndexTwiceIsNoop(t: Table, cols: Collections, order: seq<string>, path: string, lastUpdatedSeconds: int,
                         split: Split, writeOk: bool, first: nat, containerPath: Option<string>,
                         deleteErrors: map<string, string>)
    ensures var pool := PoolName(path, containerPath);
      var c1 := NeedsIndexing(t, path, lastUpdatedSeconds, false);
      var cols1 := AfterIndex(cols, order, path, c1.status, split, writeOk, first, containerPath, deleteErrors);
      var c2 := NeedsIndexing(c1.table, path, lastUpdatedSeconds, false);
      && c2 == Check(NoNeedReindexing, c1.table)
      && AfterIndex(cols1, Cached(order, pool), path, c2.status, split, writeOk, first, containerPath, deleteErrors) == cols1
  {
    CheckTwiceIsNoop(t, path, lastUpdatedSeconds);
    var c1 := NeedsIndexing(t, path, lastUpdatedSeconds, false);
    var cols1 := AfterIndex(cols, order, path, c1.status, split, writeOk, first, containerPath, deleteErrors);
    SkipKeepsCollections(cols1, Cached(order, PoolName(path, containerPath)), path, split, writeOk, first, containerPath, deleteErrors);
  }

  /** A "no reindex" decision leaves the collections alone once the pool has one. */
  lemma SkipKeepsCollections(cols: Collections, order: seq<string>, path: string,
                             split: Split, writeOk: bool, first: nat, containerPath: Option<string>,
                             deleteErrors: map<string, string>)
    requires PoolName(path, containerPath) in cols
    ensures AfterIndex(cols, order, path, NoNeedReindexing, split, writeOk, first, containerPath, deleteErrors) == cols
  {
  }

  /** The separator `find` joins hit texts with. */
  const FindSeparator: string := ".\n\n\n "

  /** Every hit has a path. */
  predicate AllHavePaths(found: seq<Hit>)
  {
    forall i | 0 <= i < |found| :: found[i].filePath.Some?
  }

  function Contents(found: seq<Hit>): (r: seq<string>)
    ensures |r| == |found| && forall i | 0 <= i < |r| :: r[i] == found[i].content
  {
    seq(|found|, i requires 0 <= i < |found| => found[i].content)
  }

  /** The set `links` that `find` fills, one `add` per hit. */
  function Links(found: seq<Hit>, containerPath: string, localFilesPath: string): set<string>
    requires AllHavePaths(found)
  {
    if found == [] then {}
    else Links(found[..|found| - 1], containerPath, localFilesPath)
         + {LinkOf(found[|found| - 1].filePath.value, containerPath, localFilesPath)}
  }

  /** A hit's link is in the set. */
  lemma {:induction false} LinkOfEachHit(found: seq<Hit>, containerPath: string, localFilesPath: string, i: nat)
    requires AllHavePaths(found) && i < |found|
    ensures LinkOf(found[i].filePath.value, containerPath, localFilesPath) in Links(found, containerPath, localFilesPath)
  {
    if i < |found| - 1 {
      var front := found[..|found| - 1];
      LinkOfEachHit(front, containerPath, localFilesPath, i);
      assert front[i] == found[i];
    }
  }

  /** Every link in the set comes from some hit. */
  lemma {:induction false} LinkFromSomeHit(found: seq<Hit>, containerPath: string, localFilesPath: string, l: string)
    requires AllHavePaths(found)
    requires l in Links(found, containerPath, localFilesPath)
    ensures exists i | 0 <= i < |found| :: l == LinkOf(found[i].filePath.value, containerPath, localFilesPath)
  {
    var front := found[..|found| - 1];
    if l in Links(front, containerPath, localFilesPath) {
      LinkFromSomeHit(front, containerPath, localFilesPath, l);
      var i :| 0 <= i < |front| && l == LinkOf(front[i].filePath.value, containerPath, localFilesPath);
      assert found[i] == front[i];
    } else {
      assert l == LinkOf(found[|found| - 1].filePath.value, containerPath, localFilesPath);
    }
  }

  /** At most one link per hit: hits of the same file share one link. */
  lemma {:induction false} LinksAtMostHits(found: seq<Hit>, containerPath: string, localFilesPath: string)
    requires AllHavePaths(found)
    ensures |Links(found, containerPath, localFilesPath)| <= |found|
  {
    if found != [] {
      LinksAtMostHits(found[..|found| - 1], containerPath, localFilesPath);
    }
  }

  /** The message of `find`'s exception handler, braces included: it is not an f-string. */
  const SearchFailed: string := "Unable to find anything for the given query in pool {pool}"

  /** One more hit with a path adds its link and its text. */
  lemma HitsOneMore(found: seq<Hit>, i: nat, containerPath: string, localFilesPath: string)
    requires i < |found| && AllHavePaths(found[..i]) && found[i].filePath.Some?
    ensures AllHavePaths(found[..i + 1])
    ensures Contents(found[..i + 1]) == Contents(found[..i]) + [found[i].content]
    ensures Links(found[..i + 1], containerPath, localFilesPath)
      == (if i == 0 then {} else Links(found[..i], containerPath, localFilesPath))
         + {LinkOf(found[i].filePath.value, containerPath, localFilesPath)}
  {
    var front := found[..i + 1];
    assert front[..i] == found[..i];
    assert front[i] == found[i];
  }

  /** What `find` answers for the hits of a search over an existing pool. A missing
      `metadata["file_path"]` raises `KeyError`, an unset `CONTAINER_PATH` makes `replace`
      raise `TypeError`; both end in the handler, whose message is not an f-string. */
  function SearchReply(found: seq<Hit>, containerPath: Option<string>, localFilesPath: string): (r: FindReply)
    ensures found == [] ==> r == Found({}, "")
    ensures r.Found? <==> found == [] || (containerPath.Some? && AllHavePaths(found))
    ensures r.FindError? ==> r.error == SearchFailed
  {
    if found == [] then Found({}, "")
    else if containerPath.Some? && AllHavePaths(found) then
      Found(Links(found, containerPath.value, localFilesPath), Join(FindSeparator, Contents(found)))
    else FindError(SearchFailed)
  }

  /** A successful reply holds one link for each hit's rewritten path, no other link, and
      the hit texts joined in order. */
  lemma SearchReplyFound(found: seq<Hit>, containerPath: Option<string>, localFilesPath: string)
    requires found != [] && containerPath.Some? && AllHavePaths(found)
    ensures var r := SearchReply(found, containerPath, localFilesPath);
      && r.Found?
      && (forall l :: l in r.links <==>
            exists i | 0 <= i < |found| :: l == LinkOf(found[i].filePath.value, containerPath.value, localFilesPath))
      && |r.links| <= |found|
      && r.output == Join(FindSeparator, Contents(found))
  {
    var links := Links(found, containerPath.value, localFilesPath);
    forall l ensures l in links <==>
      exists i | 0 <= i < |found| :: l == LinkOf(found[i].filePath.value, containerPath.value, localFilesPath)
    {
      if l in links {
        LinkFromSomeHit(found, containerPath.value, localFilesPath, l);
      }
      if exists i | 0 <= i < |found| :: l == LinkOf(found[i].filePath.value, containerPath.value, localFilesPath) {
        var i :| 0 <= i < |found| && l == LinkOf(found[i].filePath.value, containerPath.value, localFilesPath);
        LinkOfEachHit(found, containerPath.value, localFilesPath, i);
      }
    }
    LinksAtMostHits(found, containerPath.value, localFilesPath);
  }

  /** The message `find` answers for a pool that is neither cached nor in the database. */
  function NoPoolMessage(pool: string): string
  {
    "Unable to find anything for the given query in pool " + pool + ". The pool does not exist."
  }

  /** The loop of `remove_from_storage` over the collections: one delete per pool, in order,
      over the files that route to it, ending at the first delete that raises. */
  method DeleteFromPools(cols: Collections, pools: seq<string>, files: seq<string>, containerPath: Option<string>,
                         deleteErrors: map<string, string>) returns (r: Collections, o: Outcome)
    requires forall p | p in pools :: p in cols
    ensures r == Removed(cols, Reached(pools, files, containerPath, deleteErrors), files, containerPath)
    ensures var k := FirstFailing(pools, files, containerPath, deleteErrors);
      o == if k < |pools| then Fail(deleteErrors[pools[k]]) else Pass
  {
    ghost var k := FirstFailing(pools, files, containerPath, deleteErrors);
    r, o := cols, Pass;
    var i := 0;
    while i < |pools|
      invariant i <= k
      invariant r == Removed(cols, pools[..i], files, containerPath)
    {
      var pool := pools[i];
      var poolFiles := PoolFileList(files, pool, containerPath);
      FirstFailingStep(pools, i, files, containerPath, deleteErrors);
      if poolFiles != [] && pool in deleteErrors {
        assert Reached(pools, files, containerPath, deleteErrors) == pools[..i];
        return r, Fail(deleteErrors[pool]);
      }
      assert pool in r;
      RemovedNext(cols, pools, i, files, containerPath);
      if poolFiles != [] {
        r := r[pool := Without(r[pool], poolFiles)];
      }
      i := i + 1;
    }
    assert Reached(pools, files, containerPath, deleteErrors) == pools[..i];
  }

  class Indexer {
    const containerPath: Option<string>
    const localFilesPath: string
    const store: MinimaStore
    /** The vector database: collection name to its points. */
    var collections: Collections
    /** Collections with a payload index on `metadata.file_path`. */
    var payloadIndexed: set<string>
    /** `document_stores`, the cache of vector stores by pool. */
    var documentStores: map<string, StoreHandle>
    /** The keys of `document_stores` in insertion order; the factory ran once for each. */
    var poolOrder: seq<string>
    /** Ids from here on have not been handed out (the model of `uuid.uuid4()`). */
    var nextId: nat

    ghost predicate Valid()
      reads this, store
    {
      && store.Valid()
      && documentStores.Keys <= collections.Keys
      && documentStores.Keys <= payloadIndexed
      && (forall p | p in documentStores :: documentStores[p] == StoreHandle(p))
      && Distinct(poolOrder)
      && (forall p :: p in poolOrder <==> p in documentStores)
      && IdsBelow(collections, nextId)
    }

    /** An indexer over an existing database and vector database, with an empty cache. */
    constructor (store: MinimaStore, containerPath: Option<string>, localFilesPath: string,
                 collections: Collections, freshFrom: nat)
      requires store.Valid()
      requires IdsBelow(collections, freshFrom)
      ensures Valid()
      ensures this.store == store && this.containerPath == containerPath && this.localFilesPath == localFilesPath
      ensures this.collections == collections && documentStores == map[] && poolOrder == [] && nextId == freshFrom
    {
      this.store := store;
      this.containerPath := containerPath;
      this.localFilesPath := localFilesPath;
      this.collections := collections;
      payloadIndexed := {};
      documentStores := map[];
      poolOrder := [];
      nextId := freshFrom;
    }

    /** `_setup_collection`: create the collection when it does not exist, index the payload
        path, and return a store bound to it; `fault` says where the vector database raises. */
    method SetupCollection(pool: string, fault: SetupFault) returns (r: Result<StoreHandle>)
      requires Valid()
      modifies this`collections, this`payloadIndexed
      ensures collections == SetUp(old(collections), pool, fault)
      ensures payloadIndexed == if fault.SetupOk? then old(payloadIndexed) + {pool} else old(payloadIndexed)
      ensures r == if fault.SetupOk? then Ok(StoreHandle(pool)) else Err(fault.message)
      ensures Valid()
    {
      if fault.CreateFails? {
        return Err(fault.message);
      }
      if pool !in collections {
        collections := collections[pool := []];
      }
      if fault.IndexFails? {
        return Err(fault.message);
      }
      payloadIndexed := payloadIndexed + {pool};
      r := Ok(StoreHandle(pool));
    }

    /** `self.document_stores[pool]` (`StorageDict.__missing__`): the factory runs only for a
        pool not yet cached, and its store is cached only when it returns; when it raises,
        the exception leaves the lookup and the next lookup runs the factory again. */
    method StoreFor(pool: string, fault: SetupFault) returns (r: Result<StoreHandle>)
      requires Valid()
      modifies this
      ensures Valid()
      ensures nextId == old(nextId)
      ensures pool in old(documentStores) ==>
        && r == Ok(StoreHandle(pool))
        && collections == old(collections) && payloadIndexed == old(payloadIndexed)
        && documentStores == old(documentStores) && poolOrder == old(poolOrder)
      ensures pool !in old(documentStores) ==>
        && collections == SetUp(old(collections), pool, fault)
        && r == (if fault.SetupOk? then Ok(StoreHandle(pool)) else Err(fault.message))
        && payloadIndexed == (if fault.SetupOk? then old(payloadIndexed) + {pool} else old(payloadIndexed))
        && documentStores == (if fault.SetupOk? then old(documentStores)[pool := StoreHandle(pool)] else old(documentStores))
        && poolOrder == (if fault.SetupOk? then old(poolOrder) + [pool] else old(poolOrder))
    {
      if pool !in documentStores {
        var created := SetupCollection(pool, fault);
        if created.Err? {
          return created;
        }
        documentStores := documentStores[pool := created.value];
        poolOrder := poolOrder + [pool];
      }
      r := Ok(documentStores[pool]);
    }

    /** `_process_file`: tag every document with the loader's path, give each a fresh id and
        add them to the pool of that path; `[]` when nothing is loaded or anything raises,
        the lookup of the pool's store included. */
    method ProcessFile(loader: Loader, split: Split, writeOk: bool, fault: SetupFault) returns (ids: seq<nat>)
      requires Valid()
      modifies this
      ensures Valid()
      ensures split.LoadFailed? || split.texts == [] ==>
        ids == [] && collections == old(collections) && documentStores == old(documentStores)
        && poolOrder == old(poolOrder) && payloadIndexed == old(payloadIndexed) && nextId == old(nextId)
      ensures split.Pieces? && split.texts != [] ==>
        var pool := PoolName(loader.filePath, containerPath);
        && nextId == old(nextId) + |split.texts|
        && (pool in old(documentStores) || fault.SetupOk? ==>
              && documentStores == old(documentStores)[pool := StoreHandle(pool)]
              && poolOrder == Cached(old(poolOrder), pool)
              && payloadIndexed == old(payloadIndexed) + {pool}
              && collections == Added(Ensured(old(collections), pool), loader.filePath, split, writeOk, old(nextId), containerPath)
              && ids == (if writeOk then Ids(Tagged(split.texts, loader.filePath, old(nextId))) else []))
        && (pool !in old(documentStores) && !fault.SetupOk? ==>
              && ids == []
              && documentStores == old(documentStores) && poolOrder == old(poolOrder)
              && payloadIndexed == old(payloadIndexed)
              && collections == SetUp(old(collections), pool, fault))
      ensures PoolName(loader.filePath, containerPath) in old(documentStores) ==>
        && documentStores == old(documentStores) && poolOrder == old(poolOrder) && payloadIndexed == old(payloadIndexed)
        && collections == Added(old(collections), loader.filePath, split, writeOk, old(nextId), containerPath)
      ensures writeOk && split.Pieces? && (PoolName(loader.filePath, containerPath) in old(documentStores) || fault.SetupOk?) ==>
        |ids| == |split.texts|
    {
      if split.LoadFailed? || split.texts == [] {
        return [];
      }
      var texts := split.texts;
      var documents := TagDocuments(texts, loader.filePath, nextId);
      var pool := PoolName(loader.filePath, containerPath);
      var first := nextId;
      nextId := nextId + |documents|;
      var handle := StoreFor(pool, fault);
      if handle.Err? || !writeOk {
        return [];
      }
      WriteKeepsIdsBelow(collections, texts, loader.filePath, first, containerPath);
      collections := collections[pool := collections[pool] + documents];
      ids := Ids(documents);
    }

    /** The loop of `_process_file` that sets `metadata["file_path"]` on every document,
        with the fresh ids the documents are written under. */
    method TagDocuments(texts: seq<string>, filePath: string, first: nat) returns (documents: seq<Chunk>)
      ensures documents == Tagged(texts, filePath, first)
    {
      documents := [];
      var i := 0;
      while i < |texts|
        invariant 0 <= i <= |texts|
        invariant documents == Tagged(texts[..i], filePath, first)
      {
        documents := documents + [Chunk(first + i, filePath, texts[i])];
        i := i + 1;
      }
      assert texts[..i] == texts;
    }

    /** `remove_from_storage`: for every cached pool, in the cache's order, one delete over
        the files that route to it, with the conjunctive filter. A delete that raises ends
        the loop and leaves the call, with the deletes before it done. */
    method RemoveFromStorage(files: seq<string>, deleteErrors: map<string, string>) returns (o: Outcome)
      requires Valid()
      modifies this`collections
      ensures Valid()
      ensures collections == Removed(old(collections), Reached(poolOrder, files, containerPath, deleteErrors), files, containerPath)
      ensures var k := FirstFailing(poolOrder, files, containerPath, deleteErrors);
        o == if k < |poolOrder| then Fail(deleteErrors[poolOrder[k]]) else Pass
    {
      var cols;
      cols, o := DeleteFromPools(collections, poolOrder, files, containerPath, deleteErrors);
      PrefixDistinct(poolOrder, FirstFailing(poolOrder, files, containerPath, deleteErrors));
      RemovedKeepsIds(collections, Reached(poolOrder, files, containerPath, deleteErrors), files, containerPath, nextId);
      collections := cols;
    }

    /** `index`: route the file, make sure its pool is cached, check it against the store,
        and for a new or changed file remove its old chunks (when changed) and add new ones.
        A raising lookup of the pool's store leaves `index` before the state check; a raising
        delete is swallowed. It records neither a status nor a duration. */
    method Index(message: FileMessage, split: Split, checkFails: bool, writeOk: bool,
                 fault: SetupFault, deleteErrors: map<string, string>) returns (o: Outcome)
      requires Valid()
      modifies this, store
      ensures Valid()
      ensures var pool := PoolName(message.path, containerPath);
        pool !in old(documentStores) && !fault.SetupOk? ==>
          && o == Fail(fault.message)
          && store.docs == old(store.docs)
          && collections == SetUp(old(collections), pool, fault)
          && documentStores == old(documentStores) && poolOrder == old(poolOrder)
          && payloadIndexed == old(payloadIndexed) && nextId == old(nextId)
      ensures var pool := PoolName(message.path, containerPath);
        var c := NeedsIndexing(old(store.docs), message.path, message.lastUpdatedSeconds, checkFails);
        pool in old(documentStores) || fault.SetupOk? ==>
          && o == Pass
          && store.docs == c.table
          && collections == AfterIndex(old(collections), old(poolOrder), message.path, c.status,
                                       split, writeOk, old(nextId), containerPath, deleteErrors)
          && documentStores == old(documentStores)[pool := StoreHandle(pool)]
          && poolOrder == Cached(old(poolOrder), pool)
          && payloadIndexed == old(payloadIndexed) + {pool}
      ensures nextId >= old(nextId)
    {
      var pool := PoolName(message.path, containerPath);
      var handle := StoreFor(pool, fault);
      if handle.Err? {
        return Fail(handle.message);
      }
      var status := store.CheckNeedsIndexing(message.path, message.lastUpdatedSeconds, checkFails);
      if status != NoNeedReindexing {
        Reindex(message.path, status, split, writeOk, deleteErrors);
      }
      o := Pass;
    }

    /** The `try` block of `index` for a file that needs indexing, once its pool is cached:
        remove the old chunks of a changed file, swallowing a failed delete, then load, split
        and add the new ones. An unsupported suffix raises out of `_create_loader` and ends
        the block. */
    method Reindex(path: string, status: IndexingStatus, split: Split, writeOk: bool, deleteErrors: map<string, string>)
      requires Valid()
      requires PoolName(path, containerPath) in documentStores && status != NoNeedReindexing
      modifies this
      ensures Valid()
      ensures var pool := PoolName(path, containerPath);
        var cleaned := if status == NeedReindexing
                       then Removed(old(collections), Reached(poolOrder, [path], containerPath, deleteErrors), [path], containerPath)
                       else old(collections);
        collections == if CreateLoader(path).Ok? then Added(cleaned, path, split, writeOk, old(nextId), containerPath)
                       else cleaned
      ensures documentStores == old(documentStores) && poolOrder == old(poolOrder) && payloadIndexed == old(payloadIndexed)
      ensures nextId >= old(nextId)
    {
      if status == NeedReindexing {
        var _ := RemoveFromStorage([path], deleteErrors);
      }
      var loader := CreateLoader(path);
      if loader.Ok? {
        assert loader.value.filePath == path;
        ghost var cache, order, indexed := documentStores, poolOrder, payloadIndexed;
        var ids := ProcessFile(loader.value, split, writeOk, SetupOk);
        assert documentStores == cache && poolOrder == order && payloadIndexed == indexed;
      }
    }

    /** `purge`: drop the rows of files no longer present, and when there were any, remove
        them from the cached pools; `removed` is the list the store gave, in its order. A
        raising delete leaves `purge` with the rows already dropped. */
    method Purge(existingFilePaths: seq<string>, deleteErrors: map<string, string>) returns (o: Outcome, ghost removed: seq<string>)
      requires Valid()
      modifies this, store
      ensures Valid()
      ensures Distinct(removed)
      ensures forall p :: p in removed <==> p in old(store.docs) && p !in existingFilePaths
      ensures store.docs == map p | p in old(store.docs) && p in existingFilePaths :: old(store.docs)[p]
      ensures collections == Removed(old(collections), Reached(poolOrder, removed, containerPath, deleteErrors), removed, containerPath)
      ensures var k := FirstFailing(poolOrder, removed, containerPath, deleteErrors);
        o == if k < |poolOrder| then Fail(deleteErrors[poolOrder[k]]) else Pass
      ensures documentStores == old(documentStores) && poolOrder == old(poolOrder) && nextId == old(nextId)
      ensures payloadIndexed == old(payloadIndexed)
    {
      var toRemove := store.FindRemovedFiles(SetOf(existingFilePaths));
      removed := toRemove;
      if |toRemove| > 0 {
        o := RemoveFromStorage(toRemove, deleteErrors);
      } else {
        o := Pass;
        assert FirstFailing(poolOrder, [], containerPath, deleteErrors) == |poolOrder|;
        assert poolOrder[..|poolOrder|] == poolOrder;
        NothingRemoved(collections, poolOrder, containerPath);
      }
    }

    /** `find`: search a pool that is cached or exists in the database, and turn the hits into
        a set of links and the joined texts. A raising lookup of the store leaves `find`. */
    method Find(pool: string, found: Option<seq<Hit>>, fault: SetupFault) returns (reply: Result<FindReply>)
      requires Valid()
      modifies this
      ensures Valid()
      ensures pool !in old(documentStores) && pool !in old(collections) ==>
        && reply == Ok(FindError(NoPoolMessage(pool)))
        && documentStores == old(documentStores) && poolOrder == old(poolOrder) && payloadIndexed == old(payloadIndexed)
      ensures pool !in old(documentStores) && pool in old(collections) && !fault.SetupOk? ==>
        && reply == Err(fault.message)
        && documentStores == old(documentStores) && poolOrder == old(poolOrder) && payloadIndexed == old(payloadIndexed)
      ensures pool in old(documentStores) || (pool in old(collections) && fault.SetupOk?) ==>
        && documentStores == old(documentStores)[pool := StoreHandle(pool)]
        && poolOrder == Cached(old(poolOrder), pool)
        && payloadIndexed == old(payloadIndexed) + {pool}
        && reply == Ok(if found.None? then FindError(SearchFailed)
                       else SearchReply(found.value, containerPath, localFilesPath))
      ensures collections == old(collections) && nextId == old(nextId) && store.docs == old(store.docs)
    {
      if pool !in documentStores {
        if pool in collections {
          var handle := StoreFor(pool, fault);
          if handle.Err? {
            return Err(handle.message);
          }
        } else {
          return Ok(FindError(NoPoolMessage(pool)));
        }
      }
      if found.None? {
        return Ok(FindError(SearchFailed));
      }
      var answer := Answer(found.value);
      reply := Ok(answer);
    }

    /** The body of `find`'s `try` once the search has answered: a link and a text per hit,
        in order. */
    method Answer(hits: seq<Hit>) returns (reply: FindReply)
      ensures reply == SearchReply(hits, containerPath, localFilesPath)
    {
      if hits == [] {
        return Found({}, "");
      }
      var links: set<string> := {};
      var results: seq<string> := [];
      var i := 0;
      while i < |hits|
        invariant 0 <= i <= |hits|
        invariant i > 0 ==> containerPath.Some?
        invariant AllHavePaths(hits[..i])
        invariant results == Contents(hits[..i])
        invariant i > 0 ==> links == Links(hits[..i], containerPath.value, localFilesPath)
        invariant i == 0 ==> links == {}
      {
        var item := hits[i];
        if item.filePath.None? || containerPath.None? {
          assert !AllHavePaths(hits) || containerPath.None?;
          return FindError(SearchFailed);
        }
        var path := Replace(item.filePath.value, containerPath.value, localFilesPath);
        HitsOneMore(hits, i, containerPath.value, localFilesPath);
        links := links + {FileScheme + path};
        results := results + [item.content];
        i := i + 1;
      }
      assert hits[..i] == hits;
      reply := Found(links, Join(FindSeparator, results));
    }
  }
}
