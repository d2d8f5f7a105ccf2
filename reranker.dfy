/** The reranker's top-n selection: documents are paired with the cross-encoder's scores,
    stable-sorted by descending score and cut to the first `top_n`. The scores come from a model
    outside this project and are a parameter here; only their order matters, so they are integers. */
module Reranker {

  /** How many documents the reranker keeps unless configured otherwise. */
  const DefaultTopN: int := 3

  /** A document with its score and its position in the input. The position is not data of the
      program: it names each pair so that stability can be stated. */
  datatype Scored<D> = Scored(doc: D, score: int, pos: nat)

  function Min(a: int, b: int): int { if a <= b then a else b }

  function Max(a: int, b: int): int { if a <= b then b else a }

  /** Pairs documents with scores by position, numbering them from `k`; like Python's `zip`, it
      stops at the end of the shorter sequence. */
  function ZipFrom<D>(docs: seq<D>, scores: seq<int>, k: nat): (r: seq<Scored<D>>)
    ensures |r| == Min(|docs|, |scores|)
    ensures forall i | 0 <= i < |r| :: r[i] == Scored(docs[i], scores[i], k + i)
  {
    if docs == [] || scores == [] then []
    else [Scored(docs[0], scores[0], k)] + ZipFrom(docs[1..], scores[1..], k + 1)
  }

  /** `list(zip(documents, scores))`, each pair carrying its index. */
  function Zip<D>(docs: seq<D>, scores: seq<int>): seq<Scored<D>>
  {
    ZipFrom(docs, scores, 0)
  }

  /** `s` comes before `t` in the reranker's order: higher score first, and among equal scores
      the earlier input first, as Python's `sorted(..., reverse=True)` keeps equal keys in their
      original order. */
  predicate Before<D>(s: Scored<D>, t: Scored<D>)
  {
    s.score > t.score || (s.score == t.score && s.pos < t.pos)
  }

  /** Every pair comes before every later pair. */
  predicate Ordered<D>(s: seq<Scored<D>>)
  {
    forall i, j | 0 <= i < j < |s| :: Before(s[i], s[j])
  }

  /** Positions strictly increase along `s`, as they do in the zipped input. */
  predicate InInputOrder<D>(s: seq<Scored<D>>)
  {
    forall i, j | 0 <= i < j < |s| :: s[i].pos < s[j].pos
  }

  /** Puts `x` before the first pair whose score is not above its own. */
  function Insert<D>(x: Scored<D>, t: seq<Scored<D>>): (r: seq<Scored<D>>)
    ensures multiset(r) == multiset{x} + multiset(t)
  {
    if t == [] || t[0].score <= x.score then [x] + t
    else
      assert t == [t[0]] + t[1..];
      [t[0]] + Insert(x, t[1..])
  }

  /** Stable sort by descending score: insertion of each pair, from the last to the first, into
      the sorted rest. */
  function SortDescending<D>(s: seq<Scored<D>>): (r: seq<Scored<D>>)
    ensures multiset(r) == multiset(s)
  {
    if s == [] then []
    else
      assert s == [s[0]] + s[1..];
      Insert(s[0], SortDescending(s[1..]))
  }

  /** Inserting a pair that precedes every pair of an ordered sequence in the input keeps it
      ordered. */
  lemma {:induction false} InsertOrdered<D>(x: Scored<D>, t: seq<Scored<D>>)
    requires Ordered(t)
    requires forall e | e in t :: x.pos < e.pos
    ensures Ordered(Insert(x, t))
  {
    if t != [] && t[0].score > x.score {
      InsertOrdered(x, t[1..]);
      var r := Insert(x, t);
      assert r == [t[0]] + Insert(x, t[1..]);
      forall j | 0 < j < |r| ensures Before(r[0], r[j]) {
        assert r[j] in multiset(Insert(x, t[1..]));
        assert r[j] == x || r[j] in t[1..];
      }
    }
  }

  /** Sorting a sequence in input order yields the reranker's order, holding the same pairs. */
  lemma {:induction false} SortOrdered<D>(s: seq<Scored<D>>)
    requires InInputOrder(s)
    ensures Ordered(SortDescending(s))
  {
    if s != [] {
      var rest := SortDescending(s[1..]);
      SortOrdered(s[1..]);
      forall e | e in rest ensures s[0].pos < e.pos {
        assert e in multiset(s[1..]);
      }
      InsertOrdered(s[0], rest);
    }
  }

  /** Two orderings of the same pairs that are both in the reranker's order are the same: the
      sort result is the unique stable descending order Python's `sorted` produces. */
  lemma {:induction false} OrderedUnique<D>(a: seq<Scored<D>>, b: seq<Scored<D>>)
    requires multiset(a) == multiset(b)
    requires Ordered(a) && Ordered(b)
    ensures a == b
  {
    if a == [] {
      assert |multiset(b)| == 0;
    } else {
      SameFirst(a, b);
      SameRest(a, b);
      OrderedUnique(a[1..], b[1..]);
      assert a == [a[0]] + a[1..] && b == [b[0]] + b[1..];
    }
  }

  /** Two orderings of the same pairs in the reranker's order start with the same pair. */
  lemma SameFirst<D>(a: seq<Scored<D>>, b: seq<Scored<D>>)
    requires a != [] && multiset(a) == multiset(b)
    requires Ordered(a) && Ordered(b)
    ensures b != [] && a[0] == b[0]
  {
    assert a[0] in multiset(b);
    assert b[0] in multiset(a);
    var k :| 0 <= k < |b| && b[k] == a[0];
    var m :| 0 <= m < |a| && a[m] == b[0];
    assert k == 0 || Before(b[0], a[0]);
    assert m == 0 || Before(a[0], b[0]);
  }

  /** Removing an equal first pair from sequences holding the same pairs leaves the same pairs. */
  lemma SameRest<D>(a: seq<Scored<D>>, b: seq<Scored<D>>)
    requires a != [] && b != [] && a[0] == b[0] && multiset(a) == multiset(b)
    ensures multiset(a[1..]) == multiset(b[1..])
  {
    assert a == [a[0]] + a[1..] && b == [b[0]] + b[1..];
    assert multiset(a) == multiset{a[0]} + multiset(a[1..]);
    assert multiset(b) == multiset{b[0]} + multiset(b[1..]);
    assert multiset(a[1..]) == multiset(a) - multiset{a[0]};
    assert multiset(b[1..]) == multiset(b) - multiset{b[0]};
  }

  /** `SortDescending` of the zipped input is the only ordering of its pairs in the reranker's
      order. */
  lemma SortIsStable<D>(docs: seq<D>, scores: seq<int>, other: seq<Scored<D>>)
    requires multiset(other) == multiset(Zip(docs, scores))
    requires Ordered(other)
    ensures other == SortDescending(Zip(docs, scores))
  {
    ZipPairsByPosition(docs, scores);
    SortOrdered(Zip(docs, scores));
    OrderedUnique(other, SortDescending(Zip(docs, scores)));
  }

  /** `s[:n]` for a Python int `n`: a negative `n` drops that many from the end. */
  function Head<T>(s: seq<T>, n: int): (r: seq<T>)
    ensures |r| == if n >= 0 then Min(n, |s|) else Max(0, |s| + n)
    ensures r == s[..|r|]
  {
    if n >= |s| then s
    else if n >= 0 then s[..n]
    else if |s| + n > 0 then s[..|s| + n]
    else []
  }

  /** The pairs the reranker keeps: the first `topN` of the sorted pairs. */
  function TopN<D>(docs: seq<D>, scores: seq<int>, topN: int): seq<Scored<D>>
  {
    Head(SortDescending(Zip(docs, scores)), topN)
  }

  /** The documents of `kept`, in order. */
  function DocsOf<D>(kept: seq<Scored<D>>): (r: seq<D>)
    ensures |r| == |kept|
    ensures forall i | 0 <= i < |r| :: r[i] == kept[i].doc
  {
    if kept == [] then [] else [kept[0].doc] + DocsOf(kept[1..])
  }

  /** `compress_documents`: the documents of the kept pairs. */
  function CompressDocuments<D>(docs: seq<D>, scores: seq<int>, topN: int): seq<D>
  {
    DocsOf(TopN(docs, scores, topN))
  }

  /** The pairs of the input are the documents and scores at equal positions. */
  lemma ZipPairsByPosition<D>(docs: seq<D>, scores: seq<int>)
    ensures |Zip(docs, scores)| == Min(|docs|, |scores|)
    ensures forall i | 0 <= i < |Zip(docs, scores)| :: Zip(docs, scores)[i] == Scored(docs[i], scores[i], i)
    ensures InInputOrder(Zip(docs, scores))
  {
  }

  /** The reranker returns `min(top_n, n)` documents for `n` scored ones (`n + top_n` at least 0
      for a negative `top_n`), and at most 3 by default. */
  lemma CompressLength<D>(docs: seq<D>, scores: seq<int>, topN: int)
    ensures var n := Min(|docs|, |scores|);
      |CompressDocuments(docs, scores, topN)| == if topN >= 0 then Min(topN, n) else Max(0, n + topN)
    ensures |CompressDocuments(docs, scores, DefaultTopN)| == Min(DefaultTopN, Min(|docs|, |scores|))
  {
    var zipped := Zip(docs, scores);
    assert |SortDescending(zipped)| == |multiset(SortDescending(zipped))| == |multiset(zipped)| == |zipped|;
  }

  /** The kept pairs are in the reranker's order: scores never increase, and equal scores keep
      their input order. The documents returned are those of the kept pairs. */
  lemma TopNOrdered<D>(docs: seq<D>, scores: seq<int>, topN: int)
    ensures var kept := TopN(docs, scores, topN);
      && (forall i, j | 0 <= i < j < |kept| :: kept[i].score >= kept[j].score)
      && (forall i, j | 0 <= i < j < |kept| && kept[i].score == kept[j].score :: kept[i].pos < kept[j].pos)
      && (forall i | 0 <= i < |kept| :: CompressDocuments(docs, scores, topN)[i] == kept[i].doc)
  {
    ZipPairsByPosition(docs, scores);
    SortOrdered(Zip(docs, scores));
  }

  /** Every kept pair is a pair of the input, each at most once: its document and score are those
      at its position. */
  lemma TopNFromInput<D>(docs: seq<D>, scores: seq<int>, topN: int)
    ensures multiset(TopN(docs, scores, topN)) <= multiset(Zip(docs, scores))
    ensures forall i | 0 <= i < |TopN(docs, scores, topN)| ::
      var p := TopN(docs, scores, topN)[i];
      p.pos < Min(|docs|, |scores|) && p.doc == docs[p.pos] && p.score == scores[p.pos]
  {
    var sorted := SortDescending(Zip(docs, scores));
    var kept := TopN(docs, scores, topN);
    assert sorted == kept + sorted[|kept|..];
    assert multiset(sorted) == multiset(kept) + multiset(sorted[|kept|..]);
    forall i | 0 <= i < |kept|
      ensures kept[i].pos < Min(|docs|, |scores|) && kept[i].doc == docs[kept[i].pos] && kept[i].score == scores[kept[i].pos]
    {
      assert kept[i] in multiset(Zip(docs, scores));
    }
  }

  /** No pair left out scores higher than a kept one. */
  lemma TopNKeepsBest<D>(docs: seq<D>, scores: seq<int>, topN: int)
    ensures forall e, i | e in Zip(docs, scores) && e !in TopN(docs, scores, topN) && 0 <= i < |TopN(docs, scores, topN)| ::
      e.score <= TopN(docs, scores, topN)[i].score
  {
    var sorted := SortDescending(Zip(docs, scores));
    var kept := TopN(docs, scores, topN);
    ZipPairsByPosition(docs, scores);
    SortOrdered(Zip(docs, scores));
    forall e, i | e in Zip(docs, scores) && e !in kept && 0 <= i < |kept| ensures e.score <= kept[i].score {
      assert e in multiset(sorted);
      var j :| 0 <= j < |sorted| && sorted[j] == e;
      assert j >= |kept|;
      assert Before(sorted[i], sorted[j]);
    }
  }
}
