/** The text the `search_documents` tool hands the model, and the pattern `invoke` reads the
    document paths back out of it with. */
module Search {
  import opened Outcomes
  import opened Text

  /** A retrieved document: its `metadata["file_path"]` when the metadata has one, and its text. */
  datatype Doc = Doc(filePath: Option<string>, content: string)

  const NoDocuments: string := "No relevant documents found."
  const Unknown: string := "Unknown"
  const DocumentOpen: string := "[Document "
  const Dash: string := " - "
  const Newline: string := "\n"

  /** The path shown for a document, `"Unknown"` when it has none. */
  function PathOf(d: Doc): string
  {
    if d.filePath.Some? then d.filePath.value else Unknown
  }

  /** The entry for the `i`-th document: the header `[Document i - path]`, then its body. */
  function Entry(i: nat, d: Doc): string
  {
    DocumentOpen + (Decimal(i) + (Dash + (PathOf(d) + ("]" + Body(d)))))
  }

  /** What follows an entry's header: a newline, the document's text, a newline. */
  function Body(d: Doc): string
  {
    Newline + (d.content + Newline)
  }

  /** The entries of `docs`, numbered from `i`. */
  function EntriesFrom(docs: seq<Doc>, i: nat): (r: seq<string>)
    ensures |r| == |docs|
  {
    if docs == [] then [] else [Entry(i, docs[0])] + EntriesFrom(docs[1..], i + 1)
  }

  /** The `j`-th entry is numbered `i + j`. */
  lemma {:induction false} EntriesFromAt(docs: seq<Doc>, i: nat)
    ensures forall j | 0 <= j < |docs| :: EntriesFrom(docs, i)[j] == Entry(i + j, docs[j])
  {
    if docs != [] {
      EntriesFromAt(docs[1..], i + 1);
    }
  }

  /** What the tool returns for the documents the retriever found. */
  function SearchText(docs: seq<Doc>): string
  {
    if docs == [] then NoDocuments else Listing(docs)
  }

  /** The entries of a non-empty result list, numbered from 1 and joined by newlines. */
  function Listing(docs: seq<Doc>): string
  {
    Join(Newline, EntriesFrom(docs, 1))
  }

  /** Formats the retrieved documents one entry at a time, numbering them from 1. */
  method FormatResults(docs: seq<Doc>) returns (text: string)
    ensures text == SearchText(docs)
  {
    if docs == [] {
      return NoDocuments;
    }
    var results: seq<string> := [];
    for i := 0 to |docs|
      invariant |results| == i
      invariant forall j | 0 <= j < i :: results[j] == Entry(1 + j, docs[j])
    {
      var filePath := if docs[i].filePath.Some? then docs[i].filePath.value else Unknown;
      var content := docs[i].content;
      results := results + [DocumentOpen + (Decimal(i + 1) + (Dash + (filePath + ("]" + (Newline + (content + Newline))))))];
    }
    EntriesFromAt(docs, 1);
    assert results == EntriesFrom(docs, 1);
    text := Join(Newline, results);
  }

  /** The number of leading ASCII digits of `s`, as `\d+` takes them. */
  function DigitRun(s: string): (n: nat)
    ensures n <= |s|
    ensures forall k | 0 <= k < n :: IsDigit(s[k])
    ensures n < |s| ==> !IsDigit(s[n])
  {
    if s != [] && IsDigit(s[0]) then 1 + DigitRun(s[1..]) else 0
  }

  /** Where the lazy `.+?` followed by `\]` stops, searching from `j`: the first `]` at or after
      `j`, provided no newline comes first. */
  function CloseFrom(body: string, j: nat): (r: Option<nat>)
    requires 1 <= j
    decreases |body| - j
    ensures r.Some? ==> j <= r.value < |body| && body[r.value] == ']'
    ensures r.Some? ==> forall k | j <= k < r.value :: body[k] != ']' && body[k] != '\n'
  {
    if j >= |body| then None
    else if body[j] == ']' then Some(j)
    else if body[j] == '\n' then None
    else CloseFrom(body, j + 1)
  }

  /** The length of the capture `(.+?)\]` makes at the start of `body`: at least one character,
      none of them a newline, up to the first `]` after the first character. */
  function LazyCapture(body: string): (r: Option<nat>)
    ensures r.Some? ==> 1 <= r.value < |body| && body[r.value] == ']'
    ensures r.Some? ==> forall k | 0 <= k < r.value :: body[k] != '\n'
  {
    if body == [] || body[0] == '\n' then None else CloseFrom(body, 1)
  }

  /** `re.match(r'\[Document \d+ - (.+?)\]', s)`: the captured path and the length of the match. */
  function MatchPrefix(s: string): (r: Option<(string, nat)>)
    ensures r.Some? ==> 0 < r.value.1 <= |s|
    ensures r.Some? ==> s[0] == '['
  {
    assert DocumentOpen[0] == '[';
    MatchHeader(s, DocumentOpen, Dash)
  }

  /** The same pattern with its literal parts as parameters: `open`, digits, `dash`, the capture,
      and a closing `]`. */
  function MatchHeader(s: string, open: string, dash: string): (r: Option<(string, nat)>)
    requires open != []
    ensures r.Some? ==> 0 < r.value.1 <= |s|
    ensures r.Some? ==> s[0] == open[0]
  {
    if |s| < |open| || s[..|open|] != open then None
    else
      assert s[0] == s[..|open|][0];
      var rest := s[|open|..];
      var d := DigitRun(rest);
      if d == 0 || |rest| - d < |dash| || rest[d..d + |dash|] != dash then None
      else
        var body := rest[d + |dash|..];
        match LazyCapture(body)
        case None => None
        case Some(m) => Some((body[..m], |open| + d + |dash| + m + 1))
  }

  /** `re.findall` with that pattern: the captures of the non-overlapping matches, left to right. */
  function FindAll(s: string): seq<string>
    decreases |s|
  {
    if s == [] then []
    else match MatchPrefix(s)
      case Some((path, n)) => [path] + FindAll(s[n..])
      case None => FindAll(s[1..])
  }

  /** No match starts inside text without a `[`. */
  lemma {:induction false} FindAllSkips(x: string, y: string)
    requires '[' !in x
    ensures FindAll(x + y) == FindAll(y)
  {
    if x != [] {
      assert (x + y)[0] == x[0];
      assert MatchPrefix(x + y).None?;
      assert FindAll(x + y) == FindAll((x + y)[1..]);
      assert (x + y)[1..] == x[1..] + y;
      assert '[' !in x[1..] by {
        assert forall k | 0 <= k < |x[1..]| :: x[1..][k] == x[k + 1];
      }
      FindAllSkips(x[1..], y);
    } else {
      assert x + y == y;
    }
  }

  lemma {:induction false} DigitRunOf(digits: string, t: string)
    requires forall k | 0 <= k < |digits| :: IsDigit(digits[k])
    requires t == [] || !IsDigit(t[0])
    ensures DigitRun(digits + t) == |digits|
  {
    if digits != [] {
      assert (digits + t)[1..] == digits[1..] + t;
      DigitRunOf(digits[1..], t);
    }
  }

  lemma {:induction false} CloseFromOf(body: string, j: nat, m: nat)
    requires 1 <= j <= m < |body| && body[m] == ']'
    requires forall k | j <= k < m :: body[k] != ']' && body[k] != '\n'
    ensures CloseFrom(body, j) == Some(m)
    decreases m - j
  {
    if j < m {
      CloseFromOf(body, j + 1, m);
    }
  }

  lemma MatchHeaderOf(open: string, digits: string, dash: string, path: string, tail: string)
    requires open != []
    requires digits != [] && forall k | 0 <= k < |digits| :: IsDigit(digits[k])
    requires dash != [] && !IsDigit(dash[0])
    requires path != [] && ']' !in path && '\n' !in path
    ensures MatchHeader(open + (digits + (dash + (path + ("]" + tail)))), open, dash)
         == Some((path, |open| + |digits| + |dash| + |path| + 1))
  {
    var body := path + ("]" + tail);
    var rest := digits + (dash + body);
    Halves(open, rest);
    FirstOf(dash, body);
    DigitRunOf(digits, dash + body);
    Halves(digits, dash + body);
    CloseBracket(tail);
    CaptureOf(path, "]" + tail);
    MatchHeaderFrom(open + rest, open, rest, dash, body, |digits|, |path|);
  }

  lemma FirstOf(a: string, b: string)
    requires a != []
    ensures (a + b)[0] == a[0]
  {
  }

  lemma CloseBracket(tail: string)
    ensures "]" + tail != [] && ("]" + tail)[0] == ']'
  {
  }

  lemma CaptureOf(path: string, tail: string)
    requires path != [] && ']' !in path && '\n' !in path
    requires tail != [] && tail[0] == ']'
    ensures LazyCapture(path + tail) == Some(|path|) && (path + tail)[..|path|] == path
  {
    var body := path + tail;
    assert body[0] == path[0];
    assert forall k | 1 <= k < |path| :: body[k] == path[k];
    CloseFromOf(body, 1, |path|);
  }

  /** `MatchHeader` read off the pieces it finds. */
  lemma MatchHeaderFrom(s: string, open: string, rest: string, dash: string, body: string, d: nat, m: nat)
    requires open != [] && |open| <= |s| && s[..|open|] == open && s[|open|..] == rest
    requires 0 < d == DigitRun(rest) && d <= |rest| && rest[d..] == dash + body
    requires LazyCapture(body) == Some(m)
    ensures MatchHeader(s, open, dash) == Some((body[..m], |open| + d + |dash| + m + 1))
  {
    SliceAfter(rest, d, dash, body);
  }

  lemma SliceAfter(rest: string, d: nat, dash: string, body: string)
    requires d <= |rest| && rest[d..] == dash + body
    ensures d + |dash| <= |rest| && rest[d..d + |dash|] == dash && rest[d + |dash|..] == body
  {
    assert rest[d..d + |dash|] == rest[d..][..|dash|];
    assert rest[d + |dash|..] == rest[d..][|dash|..];
  }

  lemma Halves(a: string, b: string)
    ensures (a + b)[..|a|] == a && (a + b)[|a|..] == b
  {
  }

  /** Every document's path comes back out of an entry it heads. */
  lemma FindAllEntry(i: nat, d: Doc, tail: string)
    requires Readable(d)
    ensures FindAll(Entry(i, d) + tail) == [PathOf(d)] + FindAll(tail)
  {
    var n := EntryHeader(i, d, tail);
    FindAllAfterMatch(Entry(i, d) + tail, PathOf(d), n);
    BodyUnbracketed(d);
    FindAllSkips(Body(d), tail);
  }

  /** The pattern matches an entry's header, capturing the shown path, and the match ends where
      the body begins. */
  lemma EntryHeader(i: nat, d: Doc, tail: string) returns (n: nat)
    requires Readable(d)
    ensures MatchPrefix(Entry(i, d) + tail) == Some((PathOf(d), n))
    ensures n <= |Entry(i, d) + tail| && (Entry(i, d) + tail)[n..] == Body(d) + tail
  {
    PatternPieces();
    ReadableShownPath(d);
    Regroup(DocumentOpen, Decimal(i), Dash, PathOf(d), "]", Body(d), tail);
    n := HeaderOf(DocumentOpen, Decimal(i), Dash, PathOf(d), Body(d) + tail);
  }

  /** A header followed by anything is matched, capturing the path, and the match ends where
      what follows the `]` begins. */
  lemma HeaderOf(open: string, digits: string, dash: string, path: string, after: string) returns (n: nat)
    requires open != []
    requires digits != [] && forall k | 0 <= k < |digits| :: IsDigit(digits[k])
    requires dash != [] && !IsDigit(dash[0])
    requires path != [] && ']' !in path && '\n' !in path
    ensures var s := open + (digits + (dash + (path + ("]" + after))));
      && MatchHeader(s, open, dash) == Some((path, n))
      && n <= |s| && s[n..] == after
  {
    n := |open| + |digits| + |dash| + |path| + 1;
    MatchHeaderOf(open, digits, dash, path, after);
    DropHeader(open, digits, dash, path, "]", after);
  }

  lemma FindAllAfterMatch(s: string, path: string, n: nat)
    requires MatchPrefix(s) == Some((path, n))
    ensures FindAll(s) == [path] + FindAll(s[n..])
  {
  }

  lemma BodyUnbracketed(d: Doc)
    requires '[' !in d.content
    ensures '[' !in Body(d)
  {
    PatternPieces();
  }

  lemma Regroup(a: string, b: string, c: string, d: string, e: string, f: string, t: string)
    ensures (a + (b + (c + (d + (e + f))))) + t == a + (b + (c + (d + (e + (f + t)))))
  {
  }

  lemma DropHeader(a: string, b: string, c: string, d: string, e: string, f: string)
    ensures (a + (b + (c + (d + (e + f)))))[|a| + |b| + |c| + |d| + |e|..] == f
  {
  }

  /** A document is readable back when its path, if it has one, is not empty and holds no `]`
      and no newline, and its text holds no `[`. */
  predicate Readable(d: Doc)
  {
    && (d.filePath.Some? ==> ReadablePath(d.filePath.value))
    && '[' !in d.content
  }

  /** A path the lazy capture takes whole. */
  predicate ReadablePath(p: string)
  {
    p != [] && ']' !in p && '\n' !in p
  }

  /** The path shown for a readable document is taken whole. */
  lemma ReadableShownPath(d: Doc)
    requires Readable(d)
    ensures ReadablePath(PathOf(d))
  {
    if d.filePath.None? {
      UnknownIsReadable();
    }
  }

  lemma UnknownIsReadable()
    ensures ReadablePath(Unknown)
  {
  }

  /** The shown paths of `docs`, in order. */
  function Paths(docs: seq<Doc>): (r: seq<string>)
    ensures |r| == |docs|
    ensures forall j | 0 <= j < |docs| :: r[j] == PathOf(docs[j])
  {
    if docs == [] then [] else [PathOf(docs[0])] + Paths(docs[1..])
  }

  /** The entries start with the first document's, numbered `i`, before those of the rest. */
  lemma EntriesFromFirst(docs: seq<Doc>, i: nat)
    requires docs != []
    ensures EntriesFrom(docs, i)[0] == Entry(i, docs[0])
    ensures EntriesFrom(docs, i)[1..] == EntriesFrom(docs[1..], i + 1)
  {
  }

  /** Joining two or more pieces puts the first, then the separator, before the join of the rest. */
  lemma JoinFirst(sep: string, xs: seq<string>)
    requires |xs| >= 2
    ensures Join(sep, xs) == xs[0] + (sep + Join(sep, xs[1..]))
  {
  }

  lemma {:induction false} FindAllEntries(docs: seq<Doc>, i: nat)
    requires docs != []
    requires forall j | 0 <= j < |docs| :: Readable(docs[j])
    ensures FindAll(Join(Newline, EntriesFrom(docs, i))) == Paths(docs)
  {
    assert Readable(docs[0]);
    if |docs| == 1 {
      AppendEmpty(Entry(i, docs[0]));
      FindAllEntry(i, docs[0], []);
    } else {
      var more := Join(Newline, EntriesFrom(docs[1..], i + 1));
      EntriesFromFirst(docs, i);
      JoinFirst(Newline, EntriesFrom(docs, i));
      FindAllEntry(i, docs[0], Newline + more);
      PatternPieces();
      FindAllSkips(Newline, more);
      FindAllEntries(docs[1..], i + 1);
    }
  }

  /** Reading the tool's text back with the pattern recovers the path of every retrieved
      document, in order, when the documents are readable. */
  lemma SearchTextRoundTrip(docs: seq<Doc>)
    requires docs != []
    requires forall j | 0 <= j < |docs| :: Readable(docs[j])
    ensures FindAll(SearchText(docs)) == Paths(docs)
  {
    ListingRoundTrip(docs);
  }

  lemma ListingRoundTrip(docs: seq<Doc>)
    requires docs != []
    requires forall j | 0 <= j < |docs| :: Readable(docs[j])
    ensures FindAll(Listing(docs)) == Paths(docs)
  {
    FindAllEntries(docs, 1);
  }

  /** The facts about the literal parts of the entries the proofs use. */
  lemma PatternPieces()
    ensures DocumentOpen != [] && DocumentOpen[0] == '['
    ensures Dash != [] && !IsDigit(Dash[0])
    ensures Newline == ['\n']
  {
  }

  /** The reply for no documents holds no entry header. */
  lemma NoDocumentsHoldNoPaths()
    ensures FindAll(SearchText([])) == []
  {
    NoDocumentsUnbracketed();
    FindAllSkips(NoDocuments, []);
    AppendEmpty(NoDocuments);
  }

  lemma NoDocumentsUnbracketed()
    ensures '[' !in NoDocuments
  {
  }
}
