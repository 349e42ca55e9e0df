/** The values hierarchical clustering works with
    (src/lib/math/hcluster.ts): clusters and their trees, the leaf order of
    a tree (`getLeaves`), the candidate pairs of one merge round
    (`squareMatrixPairs`), the choice of the nearest pair (the `reduce` in
    `run`) and the default `sort()` of index arrays. */
module ClusterTrees {
  import opened Seqs
  import opened Strs
  import opened StrOrder

  /** `ICluster`: a leaf has no children, a merged cluster has the two
      clusters it was made from. */
  datatype Cluster = Cluster(id: nat, height: real, indices: seq<nat>, children: seq<Cluster>)

  // ------------------------------------------------------------ leaves

  /** The leaf ids below c, depth first and left to right. */
  function Leaves(c: Cluster): seq<nat>
    decreases c, 1
  {
    if c.children == [] then [c.id] else LeavesOf(c.children)
  }

  /** The leaf ids below each of cs, in order. */
  function LeavesOf(cs: seq<Cluster>): seq<nat>
    decreases cs, 0
  {
    if cs == [] then [] else LeavesOf(cs[..|cs| - 1]) + Leaves(cs[|cs| - 1])
  }

  /** The number of clusters in a tree. */
  function Size(c: Cluster): nat
    decreases c, 1
  {
    1 + SizeOf(c.children)
  }

  function SizeOf(cs: seq<Cluster>): nat
    decreases cs, 0
  {
    if cs == [] then 0 else SizeOf(cs[..|cs| - 1]) + Size(cs[|cs| - 1])
  }

  /** `toReversed()`. */
  function Reversed(cs: seq<Cluster>): (r: seq<Cluster>)
    ensures |r| == |cs|
  {
    if cs == [] then [] else [cs[|cs| - 1]] + Reversed(cs[..|cs| - 1])
  }

  /** The leaves still to be emitted from a stack whose top is its last
      element: the top cluster's first. */
  function StackLeaves(stack: seq<Cluster>): seq<nat> {
    if stack == [] then [] else Leaves(stack[|stack| - 1]) + StackLeaves(stack[..|stack| - 1])
  }

  lemma {:induction false} SizeOfAppend(a: seq<Cluster>, b: seq<Cluster>)
    ensures SizeOf(a + b) == SizeOf(a) + SizeOf(b)
  {
    if b != [] {
      assert (a + b)[..|a + b| - 1] == a + b[..|b| - 1];
      SizeOfAppend(a, b[..|b| - 1]);
    } else {
      assert a + b == a;
    }
  }

  lemma {:induction false} SizeOfReversed(cs: seq<Cluster>)
    ensures SizeOf(Reversed(cs)) == SizeOf(cs)
  {
    if cs != [] {
      SizeOfReversed(cs[..|cs| - 1]);
      SizeOfAppend([cs[|cs| - 1]], Reversed(cs[..|cs| - 1]));
      assert [cs[|cs| - 1]][..0] == [];
    }
  }

  /** Pushing the children in reverse order puts the first child on top,
      so their leaves come next, left to right. */
  lemma {:induction false} PushReversed(stack: seq<Cluster>, cs: seq<Cluster>)
    ensures StackLeaves(stack + Reversed(cs)) == LeavesOf(cs) + StackLeaves(stack)
    decreases |cs|
  {
    if cs == [] {
      assert stack + Reversed(cs) == stack;
    } else {
      var last := cs[|cs| - 1];
      var init := cs[..|cs| - 1];
      var pushed := stack + [last];
      assert stack + Reversed(cs) == pushed + Reversed(init);
      PushReversed(pushed, init);
      assert pushed[..|pushed| - 1] == stack;
      assert StackLeaves(pushed) == Leaves(last) + StackLeaves(stack);
      assert LeavesOf(cs) == LeavesOf(init) + Leaves(last);
    }
  }

  /** `getLeaves`: pop a cluster, push its children reversed, or emit its id
      when it has none. */
  method GetLeaves(root: Cluster) returns (ret: seq<nat>)
    ensures ret == Leaves(root)
  {
    var stack := [root];
    ret := [];
    assert [root][..0] == [];
    while |stack| > 0
      invariant ret + StackLeaves(stack) == Leaves(root)
      decreases SizeOf(stack)
    {
      var c := stack[|stack| - 1];
      var rest := stack[..|stack| - 1];
      assert rest + [c] == stack;
      SizeOfAppend(rest, [c]);
      assert [c][..0] == [];
      if |c.children| > 0 {
        PushReversed(rest, c.children);
        SizeOfAppend(rest, Reversed(c.children));
        SizeOfReversed(c.children);
        stack := rest + Reversed(c.children);
      } else {
        ret := ret + [c.id];
        stack := rest;
      }
    }
  }

  // ------------------------------------------------------------ trees

  /** A tree `run` builds over n rows: a leaf i holds index i alone; a
      merged cluster has two children whose indices together are its own. */
  ghost predicate Tree(c: Cluster, n: nat)
    decreases c
  {
    if c.children == [] then c.id < n && c.indices == [c.id]
    else
      |c.children| == 2 && Tree(c.children[0], n) && Tree(c.children[1], n) &&
      multiset(c.indices) == multiset(c.children[0].indices) + multiset(c.children[1].indices)
  }

  /** The leaves of a tree are its indices, each once. */
  lemma {:induction false} TreeLeaves(c: Cluster, n: nat)
    requires Tree(c, n)
    ensures multiset(Leaves(c)) == multiset(c.indices)
    ensures forall x | x in Leaves(c) :: x < n
    decreases c
  {
    if c.children != [] {
      var l := c.children[0];
      var r := c.children[1];
      TreeLeaves(l, n);
      TreeLeaves(r, n);
      assert c.children[..1] == [l] && [l][..0] == [];
      assert LeavesOf([l]) == Leaves(l);
    }
  }

  // ------------------------------------------------------------ sort()

  /** The string form of an index, which `sort()` compares. */
  function NumText(x: nat): string {
    NatStr(x)
  }

  /** `indices.sort()`: stable, by the decimal text of each number. */
  function JsSort(s: seq<nat>): (r: seq<nat>)
    ensures |r| == |s|
  {
    SortBy(s, NumText)
  }

  /** The sorted array holds the same indices. */
  lemma JsSortBag(s: seq<nat>)
    ensures multiset(JsSort(s)) == multiset(s)
  {
    SortBySpec(s, NumText);
  }

  /** The sorted array is in text order. */
  lemma JsSortSorted(s: seq<nat>)
    ensures SortedBy(JsSort(s), NumText)
  {
    SortBySpec(s, NumText);
  }

  /** The text order is not the numeric order: 10 sorts before 2. */
  lemma JsSortTenBeforeTwo()
    ensures JsSort([2, 10]) == [10, 2]
  {
    assert NumText(2) == "2";
    assert NumText(10) == NatStr(1) + ['0'] == "10";
    assert !LexLe("2", "10");
    var ten: seq<nat> := [10];
    var both: seq<nat> := [2, 10];
    assert both[1..] == ten && ten[1..] == [];
    assert SortBy(ten, NumText) == ten;
  }

  // ------------------------------------------------------------ pairs

  /** A JavaScript number that is a linkage or the initial `Infinity`. */
  datatype Dist = Fin(v: real) | Infinity

  /** `x <= y` on such numbers. */
  predicate DistLe(x: Dist, y: Dist) {
    y.Infinity? || (x.Fin? && x.v <= y.v)
  }

  /** `[a, b, distance]`. */
  datatype Pair = Pair(a: nat, b: nat, dist: Dist)

  /** The pairs (a, b) for one a, with b from a + 1 up to n - 1. */
  function Row(a: nat, n: nat): (r: seq<Pair>)
    requires a < n
    ensures |r| == n - a - 1
    ensures forall k :: 0 <= k < |r| ==> r[k] == Pair(a, a + 1 + k, Infinity)
  {
    seq(n - a - 1, k requires 0 <= k => Pair(a, a + 1 + k, Infinity))
  }

  function PairsFrom(a: nat, n: nat): (r: seq<Pair>)
    ensures forall k :: 0 <= k < |r| ==> a <= r[k].a < r[k].b < n && r[k].dist == Infinity
    decreases n - a
  {
    if a >= n then [] else Row(a, n) + PairsFrom(a + 1, n)
  }

  /** `squareMatrixPairs(n)`: every pair of positions of an n by n matrix
      above the diagonal, row by row, with distance `Infinity`. */
  function Pairs(n: nat): (r: seq<Pair>)
    ensures forall k :: 0 <= k < |r| ==> r[k].a < r[k].b < n && r[k].dist == Infinity
    ensures n >= 2 ==> |r| >= 1
  {
    PairsFrom(0, n)
  }

  /** (a, b) comes before (c, d) in row-major order. */
  predicate Before(p: Pair, q: Pair) {
    p.a < q.a || (p.a == q.a && p.b < q.b)
  }

  lemma {:induction false} PairsFromCount(a: nat, n: nat)
    requires a <= n
    ensures 2 * |PairsFrom(a, n)| == (n - a) * (n - a - 1)
    decreases n - a
  {
    if a < n {
      PairsFromCount(a + 1, n);
      var m := n - a - 1;
      assert (m + 1) * m == 2 * m + m * (m - 1);
    }
  }

  /** There are n(n-1)/2 pairs. */
  lemma PairsCount(n: nat)
    ensures |Pairs(n)| == n * (n - 1) / 2
  {
    PairsFromCount(0, n);
  }

  lemma {:induction false} PairsFromOrdered(a: nat, n: nat)
    ensures forall i, j :: 0 <= i < j < |PairsFrom(a, n)| ==> Before(PairsFrom(a, n)[i], PairsFrom(a, n)[j])
    decreases n - a
  {
    if a < n {
      PairsFromOrdered(a + 1, n);
      var row := Row(a, n);
      var rest := PairsFrom(a + 1, n);
      var r := row + rest;
      forall i, j | 0 <= i < j < |r| ensures Before(r[i], r[j]) {
        if j < |row| {
        } else if i >= |row| {
          assert r[i] == rest[i - |row|] && r[j] == rest[j - |row|];
        } else {
          assert r[j] == rest[j - |row|];
        }
      }
    }
  }

  /** The pairs come in strictly increasing row-major order, so none is
      listed twice. */
  lemma PairsOrdered(n: nat)
    ensures forall i, j :: 0 <= i < j < |Pairs(n)| ==> Before(Pairs(n)[i], Pairs(n)[j])
  {
    PairsFromOrdered(0, n);
  }

  lemma {:induction false} PairFromAt(a: nat, n: nat, x: nat, y: nat) returns (k: nat)
    requires a <= x < y < n
    ensures k < |PairsFrom(a, n)| && PairsFrom(a, n)[k] == Pair(x, y, Infinity)
    decreases n - a
  {
    var row := Row(a, n);
    if x == a {
      k := y - a - 1;
    } else {
      var j := PairFromAt(a + 1, n, x, y);
      k := |row| + j;
    }
  }

  /** Every (x, y) with x < y < n is listed. */
  lemma PairAt(n: nat, x: nat, y: nat) returns (k: nat)
    requires x < y < n
    ensures k < |Pairs(n)| && Pairs(n)[k] == Pair(x, y, Infinity)
  {
    k := PairFromAt(0, n, x, y);
  }

  // ------------------------------------------------------------ nearest

  /** The initial value of the `reduce`: `[0, 0, Infinity]`. */
  const Start := Pair(0, 0, Infinity)

  /** One step of the `reduce`: the running pair stays unless it is farther
      than the next one. */
  function Pick(acc: Pair, p: Pair): Pair {
    if DistLe(acc.dist, p.dist) then acc else p
  }

  predicate AllFinite(ps: seq<Pair>) {
    forall k :: 0 <= k < |ps| ==> ps[k].dist.Fin?
  }

  /** `clusterPairs.reduce(...)` from `Start`. */
  function Nearest(ps: seq<Pair>): (r: Pair)
    ensures r == Start || r in ps
    ensures ps != [] && AllFinite(ps) ==> r in ps
  {
    if ps == [] then Start else Pick(Nearest(ps[..|ps| - 1]), ps[|ps| - 1])
  }

  /** Among pairs with known distances, the `reduce` picks the first pair at
      the smallest distance: no pair is nearer, and every earlier one is
      farther. */
  lemma {:induction false} NearestSpec(ps: seq<Pair>) returns (k: nat)
    requires ps != [] && AllFinite(ps)
    ensures k < |ps| && Nearest(ps) == ps[k]
    ensures forall j :: 0 <= j < |ps| ==> ps[k].dist.v <= ps[j].dist.v
    ensures forall j :: 0 <= j < k ==> ps[j].dist.v > ps[k].dist.v
  {
    var init := ps[..|ps| - 1];
    var last := ps[|ps| - 1];
    if init == [] {
      k := 0;
    } else {
      var k0 := NearestSpec(init);
      if init[k0].dist.v <= last.dist.v {
        k := k0;
      } else {
        k := |ps| - 1;
      }
    }
  }
}
