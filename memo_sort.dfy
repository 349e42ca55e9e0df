/** `memoSort` of src/components/pages/modules/oncoplot/oncoplot-utils.ts:
    genes are ordered by decreasing number of events, then samples by a
    score whose bits say which genes, in that order, the sample has, so
    that samples sharing the top genes are drawn together on the left. */
module MemoSort {
  import opened Seqs
  import opened OncoplotEvents

  /** Index a goes before index b in a stable sort by decreasing key. */
  predicate Before(keys: seq<real>, a: int, b: int)
    requires 0 <= a < |keys| && 0 <= b < |keys|
  {
    keys[a] > keys[b] || (keys[a] == keys[b] && a < b)
  }

  /** The indices of `order` are in range and each goes before every later
      one. */
  predicate Ranked(order: seq<int>, keys: seq<real>) {
    (forall k | 0 <= k < |order| :: 0 <= order[k] < |keys|) &&
    (forall a, b | 0 <= a < b < |order| :: Before(keys, order[a], order[b]))
  }

  /** Inserts index i after every index that goes before it. */
  function InsertDesc(i: int, order: seq<int>, keys: seq<real>): (r: seq<int>)
    requires 0 <= i < |keys| && forall k | 0 <= k < |order| :: 0 <= order[k] < |keys|
    ensures |r| == |order| + 1
    ensures forall x :: x in r <==> x in order || x == i
    ensures forall k | 0 <= k < |r| :: 0 <= r[k] < |keys|
  {
    if order == [] || Before(keys, order[|order| - 1], i) then order + [i]
    else
      var init := order[..|order| - 1];
      assert forall x :: x in order <==> x in init || x == order[|order| - 1];
      InsertDesc(i, init, keys) + [order[|order| - 1]]
  }

  /** Inserting a new index keeps the order ranked. */
  lemma {:induction false} InsertDescRanked(i: int, order: seq<int>, keys: seq<real>)
    requires 0 <= i < |keys| && Ranked(order, keys) && i !in order
    ensures Ranked(InsertDesc(i, order, keys), keys)
  {
    if order != [] {
      var last := order[|order| - 1];
      var init := order[..|order| - 1];
      if Before(keys, last, i) {
        var r := order + [i];
        forall a, b | 0 <= a < b < |r| ensures Before(keys, r[a], r[b]) {
          if b == |order| && a < |order| - 1 {
            assert Before(keys, order[a], last);
          }
        }
      } else {
        assert last != i;
        assert Ranked(init, keys);
        InsertDescRanked(i, init, keys);
        var r0 := InsertDesc(i, init, keys);
        var r := r0 + [last];
        forall a, b | 0 <= a < b < |r| ensures Before(keys, r[a], r[b]) {
          if b == |r0| {
            assert r[a] in r0;
            if r[a] != i {
              var k :| 0 <= k < |init| && init[k] == r[a];
              assert Before(keys, order[k], order[|order| - 1]);
            }
          } else {
            assert r[a] == r0[a] && r[b] == r0[b];
          }
        }
      }
    }
  }

  /** The indices 0..n-1 in a stable sort by decreasing key (the array of
      [index, key] pairs sorted by `b[1] - a[1]`). */
  function SortDesc(keys: seq<real>, n: nat): (r: seq<int>)
    requires n <= |keys|
    ensures |r| == n
    ensures forall x :: x in r <==> 0 <= x < n
    ensures forall k | 0 <= k < |r| :: 0 <= r[k] < |keys|
  {
    if n == 0 then [] else InsertDesc(n - 1, SortDesc(keys, n - 1), keys)
  }

  /** A stable descending sort lists every index once, keys never
      increase along it, and equal keys keep the order of their indices. */
  lemma SortDescSpec(keys: seq<real>, n: nat)
    requires n <= |keys|
    ensures var r := SortDesc(keys, n);
            IsPermutation(r, n) &&
            (forall a, b | 0 <= a < b < n :: keys[r[a]] >= keys[r[b]]) &&
            (forall a, b | 0 <= a < b < n && keys[r[a]] == keys[r[b]] :: r[a] < r[b])
  {
    SortDescRanked(keys, n);
    var r := SortDesc(keys, n);
    RankedSorted(r, keys);
    assert forall k | 0 <= k < n :: r[k] in r;
  }

  /** The stable descending sort is ranked. */
  lemma {:induction false} SortDescRanked(keys: seq<real>, n: nat)
    requires n <= |keys|
    ensures Ranked(SortDesc(keys, n), keys)
  {
    if n > 0 {
      SortDescRanked(keys, n - 1);
      InsertDescRanked(n - 1, SortDesc(keys, n - 1), keys);
    }
  }

  /** A ranked order has no repeats, its keys never increase and equal keys
      keep the order of their indices. */
  lemma RankedSorted(r: seq<int>, keys: seq<real>)
    requires Ranked(r, keys)
    ensures NoDups(r)
    ensures forall a, b | 0 <= a < b < |r| :: keys[r[a]] >= keys[r[b]]
    ensures forall a, b | 0 <= a < b < |r| && keys[r[a]] == keys[r[b]] :: r[a] < r[b]
  {
    forall a, b | 0 <= a < b < |r| ensures r[a] != r[b] && keys[r[a]] >= keys[r[b]] {
      assert Before(keys, r[a], r[b]);
    }
  }

  /** In a ranked order every index goes before the last one, or is it. */
  lemma RankedLast(r: seq<int>, keys: seq<real>, x: int)
    requires Ranked(r, keys) && x in r
    ensures x == r[|r| - 1] || Before(keys, x, r[|r| - 1])
  {
    var k :| 0 <= k < |r| && r[k] == x;
    if k < |r| - 1 {
      assert Before(keys, r[k], r[|r| - 1]);
    }
  }

  /** A ranked order is the only one: any two ranked orderings of the
      same indices are equal, so the stable sort is determined. */
  lemma {:induction false} RankedUnique(p: seq<int>, q: seq<int>, keys: seq<real>)
    requires Ranked(p, keys) && Ranked(q, keys) && |p| == |q|
    requires forall x :: x in p <==> x in q
    ensures p == q
  {
    if p != [] {
      var n := |p|;
      // the last of each is the one every other index goes before
      var lp, lq := p[n - 1], q[n - 1];
      assert lq in p && lp in q;
      RankedLast(p, keys, lq);
      RankedLast(q, keys, lp);
      assert lp == lq;
      var p0, q0 := p[..n - 1], q[..n - 1];
      forall x ensures x in p0 <==> x in q0 {
        if x in p0 {
          var k :| 0 <= k < n - 1 && p0[k] == x;
          assert Before(keys, p[k], p[n - 1]);
          assert x in q;
        }
        if x in q0 {
          var k :| 0 <= k < n - 1 && q0[k] == x;
          assert Before(keys, q[k], q[n - 1]);
          assert x in p;
        }
      }
      RankedUnique(p0, q0, keys);
      assert p == p0 + [lp] && q == q0 + [lq];
    }
  }

  function Pow2(e: nat): (r: nat)
    ensures r >= 1
  {
    if e == 0 then 1 else 2 * Pow2(e - 1)
  }

  /** The weight of the gene at position ri of the gene order:
      2^max(0, MAX_MEMO_POWER - ri). */
  function Weight(ri: nat): (r: nat)
    ensures ri <= MAX_MEMO_POWER ==> r == Pow2(MAX_MEMO_POWER - ri)
    ensures ri >= MAX_MEMO_POWER ==> r == 1
  {
    if ri < MAX_MEMO_POWER then Pow2(MAX_MEMO_POWER - ri) else 1
  }

  /** Whether gene g has an event in sample col: the cell's sum is positive. */
  predicate Present(present: seq<seq<bool>>, g: int, col: int) {
    0 <= g < |present| && 0 <= col < |present[g]| && present[g][col]
  }

  /** The score of sample `col` from position ri of the gene order on. */
  function ScoreFrom(geneOrder: seq<int>, present: seq<seq<bool>>, col: int, ri: nat): nat
    requires ri <= |geneOrder|
    decreases |geneOrder| - ri
  {
    if ri == |geneOrder| then 0
    else (if Present(present, geneOrder[ri], col) then Weight(ri) else 0) + ScoreFrom(geneOrder, present, col, ri + 1)
  }

  /** `sampleScores`. */
  function Scores(geneOrder: seq<int>, present: seq<seq<bool>>, nSamples: nat): (r: seq<real>)
    ensures |r| == nSamples
  {
    seq(nSamples, col requires 0 <= col < nSamples => ScoreFrom(geneOrder, present, col, 0) as real)
  }

  /** `memoSort(df)`: the gene order and the sample order, given each
      gene's event sum and which cells have events. */
  function MemoSort(geneSums: seq<real>, present: seq<seq<bool>>, nSamples: nat): (seq<int>, seq<int>) {
    var geneOrder := SortDesc(geneSums, |geneSums|);
    (geneOrder, SortDesc(Scores(geneOrder, present, nSamples), nSamples))
  }

  /** Both orders are permutations; gene sums never increase along the gene
      order and scores never increase along the sample order. */
  lemma MemoSortSpec(geneSums: seq<real>, present: seq<seq<bool>>, nSamples: nat)
    ensures var (go, so) := MemoSort(geneSums, present, nSamples);
            IsPermutation(go, |geneSums|) && IsPermutation(so, nSamples) &&
            (forall a, b | 0 <= a < b < |go| :: geneSums[go[a]] >= geneSums[go[b]]) &&
            (forall a, b | 0 <= a < b < |so| ::
               ScoreFrom(go, present, so[a], 0) >= ScoreFrom(go, present, so[b], 0))
  {
    var (go, so) := MemoSort(geneSums, present, nSamples);
    SortDescSpec(geneSums, |geneSums|);
    var scores := Scores(go, present, nSamples);
    SortDescSpec(scores, nSamples);
    forall a, b | 0 <= a < b < |so| ensures ScoreFrom(go, present, so[a], 0) >= ScoreFrom(go, present, so[b], 0) {
      assert scores[so[a]] >= scores[so[b]];
    }
  }

  /** With at most 51 genes the weights are distinct powers of two, larger
      than the score of all later positions together. */
  lemma {:induction false} ScoreFromBound(geneOrder: seq<int>, present: seq<seq<bool>>, col: int, ri: nat)
    requires ri <= |geneOrder| <= MAX_MEMO_POWER + 1
    ensures ScoreFrom(geneOrder, present, col, ri) < Pow2(MAX_MEMO_POWER + 1 - ri)
    decreases |geneOrder| - ri
  {
    if ri < |geneOrder| {
      ScoreFromBound(geneOrder, present, col, ri + 1);
    }
  }

  /** Two samples that agree on the genes before position p keep the
      difference their scores have from p on. */
  lemma {:induction false} SharedPrefix(geneOrder: seq<int>, present: seq<seq<bool>>, c1: int, c2: int, p: nat, ri: nat)
    requires ri <= p < |geneOrder|
    requires forall k | 0 <= k < p :: Present(present, geneOrder[k], c1) == Present(present, geneOrder[k], c2)
    ensures ScoreFrom(geneOrder, present, c1, ri) - ScoreFrom(geneOrder, present, c2, ri) ==
            ScoreFrom(geneOrder, present, c1, p) - ScoreFrom(geneOrder, present, c2, p)
    decreases p - ri
  {
    if ri < p {
      SharedPrefix(geneOrder, present, c1, c2, p, ri + 1);
    }
  }

  /** The memo property: with at most 51 genes, of two samples the one that
      has the first gene (in gene order) on which they differ is drawn
      first. */
  lemma MemoSortFirstDifference(geneSums: seq<real>, present: seq<seq<bool>>, nSamples: nat, c1: nat, c2: nat, p: nat)
    requires |geneSums| <= MAX_MEMO_POWER + 1 && c1 < nSamples && c2 < nSamples
    requires var go := SortDesc(geneSums, |geneSums|);
             p < |go| &&
             (forall k | 0 <= k < p :: Present(present, go[k], c1) == Present(present, go[k], c2)) &&
             Present(present, go[p], c1) && !Present(present, go[p], c2)
    ensures var so := MemoSort(geneSums, present, nSamples).1;
            forall a, b | 0 <= a < nSamples && 0 <= b < nSamples && so[a] == c1 && so[b] == c2 :: a < b
  {
    var (go, so) := MemoSort(geneSums, present, nSamples);
    FirstDifferenceScores(go, present, c1, c2, p);
    var scores := Scores(go, present, nSamples);
    assert scores[c1] > scores[c2];
    SortDescSpec(scores, nSamples);
    forall a, b | 0 <= a < nSamples && 0 <= b < nSamples && so[a] == c1 && so[b] == c2 ensures a < b {
    }
  }

  /** The sample with the first differing gene scores higher. */
  lemma FirstDifferenceScores(go: seq<int>, present: seq<seq<bool>>, c1: int, c2: int, p: nat)
    requires p < |go| <= MAX_MEMO_POWER + 1
    requires forall k | 0 <= k < p :: Present(present, go[k], c1) == Present(present, go[k], c2)
    requires Present(present, go[p], c1) && !Present(present, go[p], c2)
    ensures ScoreFrom(go, present, c1, 0) > ScoreFrom(go, present, c2, 0)
  {
    SharedPrefix(go, present, c1, c2, p, 0);
    ScoreFromBound(go, present, c2, p + 1);
  }
}
