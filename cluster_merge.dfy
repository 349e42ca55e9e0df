/** The rounds of `HCluster.run` (src/lib/math/hcluster.ts) as values: the
    clusters it starts from, one merge round, and the clusters after i
    rounds, with what a round keeps and what the last one leaves. */
module ClusterMerge {
  import opened StrOrder
  import opened ClusterTrees

  /** The linkage of two clusters (`this._linkage(df, c1, c2, ...)`). */
  type Link = (Cluster, Cluster) -> real

  function Leaf(i: nat): Cluster {
    Cluster(i, 0.0, [i], [])
  }

  /** The starting clusters: one leaf per row. */
  function Singletons(n: nat): (r: seq<Cluster>)
    ensures |r| == n && forall i :: 0 <= i < n ==> r[i] == Leaf(i)
  {
    seq(n, i requires 0 <= i => Leaf(i))
  }

  /** 0, 1, ..., n - 1. */
  function Iota(n: nat): (r: seq<nat>)
    ensures |r| == n && forall i :: 0 <= i < n ==> r[i] == i
  {
    seq(n, i requires 0 <= i => i as nat)
  }

  /** The pairs of one round with their linkages filled in (the `forEach`
      that sets `pair[2]`). */
  function Scored(cs: seq<Cluster>, link: Link): (r: seq<Pair>)
    ensures |r| == |Pairs(|cs|)|
    ensures forall k :: 0 <= k < |r| ==>
              r[k].a == Pairs(|cs|)[k].a && r[k].b == Pairs(|cs|)[k].b && r[k].a < r[k].b < |cs| &&
              r[k].dist == Fin(link(cs[r[k].a], cs[r[k].b]))
  {
    var ps := Pairs(|cs|);
    seq(|ps|, k requires 0 <= k < |ps| => Pair(ps[k].a, ps[k].b, Fin(link(cs[ps[k].a], cs[ps[k].b]))))
  }

  /** The pair a round merges. */
  function NearestPair(cs: seq<Cluster>, link: Link): (p: Pair)
    requires |cs| >= 2
    ensures p.a < p.b < |cs| && p.dist == Fin(link(cs[p.a], cs[p.b]))
  {
    var ps := Scored(cs, link);
    assert AllFinite(ps);
    Nearest(ps)
  }

  /** `splice(i, 1)`. */
  function Splice(s: seq<Cluster>, i: nat): (r: seq<Cluster>)
    requires i < |s|
    ensures |r| == |s| - 1
  {
    s[..i] + s[i + 1..]
  }

  function Max(x: nat, y: nat): nat { if x >= y then x else y }
  function Min(x: nat, y: nat): nat { if x <= y then x else y }

  /** `newCluster`: the given id, the pair's distance as height, the two
      clusters' indices sorted together, and the two as children. */
  function Merged(cs: seq<Cluster>, p: Pair, id: nat): Cluster
    requires p.a < |cs| && p.b < |cs| && p.dist.Fin?
  {
    Cluster(id, p.dist.v, JsSort(cs[p.a].indices + cs[p.b].indices), [cs[p.a], cs[p.b]])
  }

  /** A round that merges the pair p: remove the two merged clusters (the
      later position first) and append the new one. */
  function StepWith(cs: seq<Cluster>, p: Pair, id: nat): (r: seq<Cluster>)
    requires p.a < p.b < |cs| && p.dist.Fin?
    ensures |r| == |cs| - 1
  {
    Splice(Splice(cs, Max(p.a, p.b)), Min(p.a, p.b)) + [Merged(cs, p, id)]
  }

  /** One round: merge the nearest pair. */
  function Step(cs: seq<Cluster>, id: nat, link: Link): (r: seq<Cluster>)
    requires |cs| >= 2
    ensures |r| == |cs| - 1
  {
    StepWith(cs, NearestPair(cs, link), id)
  }

  /** One round over the clusters, given the id of the cluster it makes. */
  type Round = (seq<Cluster>, nat) -> seq<Cluster>

  /** The round `run` performs: merge the nearest pair under the linkage
      (the loop only runs while two clusters or more are left). */
  function Merge(link: Link): (round: Round)
    ensures forall cs: seq<Cluster>, id: nat | |cs| >= 2 :: round(cs, id) == Step(cs, id, link)
  {
    (cs: seq<Cluster>, id: nat) => if |cs| >= 2 then Step(cs, id, link) else cs
  }

  /** The clusters after rounds 0 .. i - 1 over n rows; round j gives the
      new cluster the id n + j. */
  function Rounds(n: nat, i: nat, round: Round): seq<Cluster>
    requires i < n
  {
    if i == 0 then Singletons(n) else round(Rounds(n, i - 1, round), n + (i - 1))
  }

  /** The cluster left after the n - 1 rounds. */
  function Root(n: nat, link: Link): (c: Cluster)
    requires n >= 1
  {
    RoundsLength(n, n - 1, link);
    Rounds(n, n - 1, Merge(link))[0]
  }

  // ------------------------------------------------------------ a round

  /** The pair at k in the scored pairs has the smallest linkage when its
      distance is the smallest there. */
  lemma ScoredLeast(cs: seq<Cluster>, link: Link, k: nat)
    requires k < |Scored(cs, link)|
    requires var ps := Scored(cs, link); forall j :: 0 <= j < |ps| ==> ps[k].dist.v <= ps[j].dist.v
    ensures var p := Scored(cs, link)[k];
            forall x, y | 0 <= x < y < |cs| :: link(cs[p.a], cs[p.b]) <= link(cs[x], cs[y])
  {
    var ps := Scored(cs, link);
    forall x, y | 0 <= x < y < |cs| ensures link(cs[ps[k].a], cs[ps[k].b]) <= link(cs[x], cs[y]) {
      var j := PairAt(|cs|, x, y);
      assert ps[j].dist.v == link(cs[x], cs[y]);
    }
  }

  /** The pair at k in the scored pairs is nearer than every pair before
      it in row-major order when it is nearer than every pair before it in
      the list. */
  lemma ScoredFirst(cs: seq<Cluster>, link: Link, k: nat)
    requires k < |Scored(cs, link)|
    requires var ps := Scored(cs, link); forall j :: 0 <= j < k ==> ps[j].dist.v > ps[k].dist.v
    ensures var p := Scored(cs, link)[k];
            forall x, y | 0 <= x < y < |cs| && (x < p.a || (x == p.a && y < p.b)) ::
              link(cs[p.a], cs[p.b]) < link(cs[x], cs[y])
  {
    var ps := Scored(cs, link);
    var p := ps[k];
    PairsOrdered(|cs|);
    forall x, y | 0 <= x < y < |cs| && (x < p.a || (x == p.a && y < p.b))
      ensures link(cs[p.a], cs[p.b]) < link(cs[x], cs[y])
    {
      var j := PairAt(|cs|, x, y);
      assert j < k;
      assert ps[j].dist.v == link(cs[x], cs[y]);
    }
  }

  /** The merged pair has the smallest linkage of all pairs, and every pair
      before it in row-major order has a larger one: ties keep the earlier
      pair. */
  lemma NearestPairSpec(cs: seq<Cluster>, link: Link)
    requires |cs| >= 2
    ensures var p := NearestPair(cs, link);
            forall x, y | 0 <= x < y < |cs| :: link(cs[p.a], cs[p.b]) <= link(cs[x], cs[y])
    ensures var p := NearestPair(cs, link);
            forall x, y | 0 <= x < y < |cs| && (x < p.a || (x == p.a && y < p.b)) ::
              link(cs[p.a], cs[p.b]) < link(cs[x], cs[y])
  {
    var ps := Scored(cs, link);
    var k := NearestSpec(ps);
    assert NearestPair(cs, link) == ps[k];
    ScoredLeast(cs, link, k);
    ScoredFirst(cs, link, k);
  }

  /** Merging p keeps the other clusters in their order, without the two
      merged ones. */
  lemma MergeRest(cs: seq<Cluster>, p: Pair, id: nat)
    requires p.a < p.b < |cs| && p.dist.Fin?
    ensures var r := StepWith(cs, p, id);
            r[..|r| - 1] == cs[..p.a] + cs[p.a + 1..p.b] + cs[p.b + 1..]
  {
    var r := StepWith(cs, p, id);
    var s1 := Splice(cs, p.b);
    assert s1[..p.a] == cs[..p.a];
    assert s1[p.a + 1..] == cs[p.a + 1..p.b] + cs[p.b + 1..];
    assert r[..|r| - 1] == Splice(s1, p.a);
  }

  /** The new cluster comes last: the round's id, the pair's distance as
      height, the two clusters' indices sorted together, the two as
      children. */
  lemma MergeLast(cs: seq<Cluster>, p: Pair, id: nat)
    requires p.a < p.b < |cs| && p.dist.Fin?
    ensures var r := StepWith(cs, p, id);
            r[|r| - 1] == Cluster(id, p.dist.v, JsSort(cs[p.a].indices + cs[p.b].indices), [cs[p.a], cs[p.b]])
  {
  }

  /** Every cluster a round keeps comes from its place in the old list,
      skipping the two merged ones. */
  lemma MergeKeeps(cs: seq<Cluster>, p: Pair, id: nat)
    requires p.a < p.b < |cs| && p.dist.Fin?
    ensures var r := StepWith(cs, p, id);
            forall k | 0 <= k < |r| - 1 ::
              r[k] == cs[if k < p.a then k else if k < p.b - 1 then k + 1 else k + 2]
  {
    MergeRest(cs, p, id);
  }

  /** A round removes the two merged clusters, keeps the others in order,
      and appends the new cluster: id, linkage as height, the two clusters'
      indices and the two as children. */
  lemma StepSpec(cs: seq<Cluster>, id: nat, link: Link)
    requires |cs| >= 2
    ensures var p := NearestPair(cs, link);
            var r := Step(cs, id, link);
            r[|r| - 1] == Cluster(id, link(cs[p.a], cs[p.b]), JsSort(cs[p.a].indices + cs[p.b].indices), [cs[p.a], cs[p.b]]) &&
            r[..|r| - 1] == cs[..p.a] + cs[p.a + 1..p.b] + cs[p.b + 1..]
  {
    MergeRest(cs, NearestPair(cs, link), id);
    MergeLast(cs, NearestPair(cs, link), id);
  }

  // ------------------------------------------------------------ all rounds

  /** The union of f over the elements of s. */
  function SumBags<T>(s: seq<T>, f: T -> multiset<nat>): multiset<nat> {
    if s == [] then multiset{} else SumBags(s[..|s| - 1], f) + f(s[|s| - 1])
  }

  lemma {:induction false} SumBagsAppend<T>(a: seq<T>, b: seq<T>, f: T -> multiset<nat>)
    ensures SumBags(a + b, f) == SumBags(a, f) + SumBags(b, f)
  {
    if b != [] {
      assert (a + b)[..|a + b| - 1] == a + b[..|b| - 1];
      SumBagsAppend(a, b[..|b| - 1], f);
    } else {
      assert a + b == a;
    }
  }

  lemma SumBagsSplit<T>(s: seq<T>, i: nat, f: T -> multiset<nat>)
    requires i <= |s|
    ensures SumBags(s, f) == SumBags(s[..i], f) + SumBags(s[i..], f)
  {
    assert s == s[..i] + s[i..];
    SumBagsAppend(s[..i], s[i..], f);
  }

  /** The bag of s is the bags before i, at i and after i. */
  lemma SumBagsCut<T>(s: seq<T>, i: nat, f: T -> multiset<nat>)
    requires i < |s|
    ensures SumBags(s, f) == SumBags(s[..i], f) + f(s[i]) + SumBags(s[i + 1..], f)
  {
    SumBagsSplit(s, i, f);
    var t := s[i..];
    SumBagsSplit(t, 1, f);
    assert t[..1] == [s[i]] && [s[i]][..0] == [];
    assert t[1..] == s[i + 1..];
  }

  lemma SumBagsThree<T>(x: seq<T>, y: seq<T>, z: seq<T>, f: T -> multiset<nat>)
    ensures SumBags(x + y + z, f) == SumBags(x, f) + SumBags(y, f) + SumBags(z, f)
  {
    SumBagsAppend(x + y, z, f);
    SumBagsAppend(x, y, f);
  }

  /** Taking out the elements at a and b takes out their bags. */
  lemma SumBagsWithout<T>(s: seq<T>, a: nat, b: nat, f: T -> multiset<nat>)
    requires a < b < |s|
    ensures SumBags(s[..a] + s[a + 1..b] + s[b + 1..], f) + f(s[a]) + f(s[b]) == SumBags(s, f)
  {
    var t := s[a + 1..];
    SumBagsCut(s, a, f);
    SumBagsCut(t, b - a - 1, f);
    assert t[..b - a - 1] == s[a + 1..b] && t[b - a - 1] == s[b] && t[b - a..] == s[b + 1..];
    SumBagsThree(s[..a], s[a + 1..b], s[b + 1..], f);
  }

  function IndicesOf(c: Cluster): multiset<nat> {
    multiset(c.indices)
  }

  /** The indices of all the clusters together. */
  function IndexBag(cs: seq<Cluster>): multiset<nat> {
    SumBags(cs, IndicesOf)
  }

  lemma {:induction false} SingletonsBag(n: nat)
    ensures IndexBag(Singletons(n)) == multiset(Iota(n))
  {
    if n > 0 {
      SingletonsBag(n - 1);
      assert Singletons(n)[..n - 1] == Singletons(n - 1);
      assert Iota(n) == Iota(n - 1) + [n - 1];
    }
  }

  /** Replacing the clusters at a and b by one holding both their indices
      keeps the indices of all clusters together. */
  lemma ReplacedBag(cs: seq<Cluster>, a: nat, b: nat, rest: seq<Cluster>, m: Cluster)
    requires a < b < |cs| && rest == cs[..a] + cs[a + 1..b] + cs[b + 1..]
    requires IndicesOf(m) == IndicesOf(cs[a]) + IndicesOf(cs[b])
    ensures IndexBag(rest + [m]) == IndexBag(cs)
  {
    assert (rest + [m])[..|rest|] == rest;
    SumBagsWithout(cs, a, b, IndicesOf);
  }

  /** A round keeps the indices of all clusters together. */
  lemma MergeBag(cs: seq<Cluster>, p: Pair, id: nat)
    requires p.a < p.b < |cs| && p.dist.Fin?
    ensures IndexBag(StepWith(cs, p, id)) == IndexBag(cs)
  {
    var r := StepWith(cs, p, id);
    MergeRest(cs, p, id);
    MergeLast(cs, p, id);
    JsSortBag(cs[p.a].indices + cs[p.b].indices);
    assert r == r[..|r| - 1] + [r[|r| - 1]];
    ReplacedBag(cs, p.a, p.b, r[..|r| - 1], r[|r| - 1]);
  }

  /** The clusters are trees over the n rows with ids below next, and
      their indices together are 0 .. n - 1, each once. */
  ghost predicate Forest(cs: seq<Cluster>, n: nat, next: nat) {
    (forall k | 0 <= k < |cs| :: Tree(cs[k], n) && cs[k].id < next) &&
    IndexBag(cs) == multiset(Iota(n))
  }

  /** A round with the id next keeps a forest a forest. */
  lemma MergeForest(cs: seq<Cluster>, p: Pair, n: nat, next: nat)
    requires p.a < p.b < |cs| && p.dist.Fin?
    requires Forest(cs, n, next)
    ensures Forest(StepWith(cs, p, next), n, next + 1)
  {
    var r := StepWith(cs, p, next);
    MergeBag(cs, p, next);
    MergeLast(cs, p, next);
    MergeKeeps(cs, p, next);
    JsSortBag(cs[p.a].indices + cs[p.b].indices);
    forall k | 0 <= k < |r| ensures Tree(r[k], n) && r[k].id < next + 1 {
      if k < |r| - 1 {
        var j := if k < p.a then k else if k < p.b - 1 then k + 1 else k + 2;
        assert r[k] == cs[j];
      }
    }
  }

  lemma SingletonsForest(n: nat)
    ensures Forest(Singletons(n), n, n)
  {
    SingletonsBag(n);
  }

  /** A property of the clusters and the next id that the n rows start
      with and that every round keeps holds after any number of rounds. */
  lemma {:induction false} RoundsKeep(n: nat, i: nat, round: Round, inv: (seq<Cluster>, nat) -> bool)
    requires i < n && inv(Singletons(n), n)
    requires forall cs: seq<Cluster>, id: nat {:trigger round(cs, id)} | n <= id < 2 * n - 1 && inv(cs, id) ::
               inv(round(cs, id), id + 1)
    ensures inv(Rounds(n, i, round), n + i)
  {
    if i == 0 {
      assert n + i == n;
    } else {
      RoundsKeep(n, i - 1, round, inv);
      assert n + (i - 1) + 1 == n + i;
    }
  }

  /** After i rounds there are n - i clusters. */
  lemma RoundsLength(n: nat, i: nat, link: Link)
    requires i < n
    ensures |Rounds(n, i, Merge(link))| == n - i
  {
    var round := Merge(link);
    var inv := (cs: seq<Cluster>, id: nat) => |cs| + id == 2 * n;
    forall cs: seq<Cluster>, id: nat | n <= id < 2 * n - 1 && inv(cs, id) ensures inv(round(cs, id), id + 1) {
    }
    RoundsKeep(n, i, round, inv);
  }

  /** After i rounds there are n - i clusters, a forest over the n rows
      with ids below n + i. */
  lemma RoundsSpec(n: nat, i: nat, link: Link)
    requires i < n
    ensures |Rounds(n, i, Merge(link))| == n - i && Forest(Rounds(n, i, Merge(link)), n, n + i)
  {
    var round := Merge(link);
    var inv := (cs: seq<Cluster>, id: nat) => |cs| + id == 2 * n && Forest(cs, n, id);
    forall cs: seq<Cluster>, id: nat | n <= id < 2 * n - 1 && inv(cs, id) ensures inv(round(cs, id), id + 1) {
      MergeForest(cs, NearestPair(cs, link), n, id);
    }
    SingletonsForest(n);
    RoundsKeep(n, i, round, inv);
  }

  /** A forest of one tree: its indices and its leaves are the n rows. */
  lemma OneTree(cs: seq<Cluster>, n: nat, next: nat)
    requires |cs| == 1 && Forest(cs, n, next)
    ensures cs == [cs[0]] && Tree(cs[0], n)
    ensures multiset(cs[0].indices) == multiset(Iota(n)) && multiset(Leaves(cs[0])) == multiset(Iota(n))
  {
    assert IndexBag(cs) == IndexBag(cs[..0]) + IndicesOf(cs[0]);
    TreeLeaves(cs[0], n);
  }

  /** What `run` ends with: one cluster, a tree whose indices are 0 ..
      n - 1 and whose leaves are the n rows, each once. */
  lemma RootSpec(n: nat, link: Link)
    requires n >= 1
    ensures Rounds(n, n - 1, Merge(link)) == [Root(n, link)]
    ensures Tree(Root(n, link), n)
    ensures multiset(Root(n, link).indices) == multiset(Iota(n))
    ensures multiset(Leaves(Root(n, link))) == multiset(Iota(n))
  {
    var last := Rounds(n, n - 1, Merge(link));
    RoundsSpec(n, n - 1, link);
    OneTree(last, n, n + (n - 1));
    assert Root(n, link) == last[0];
  }

  /** Round i is applied to the clusters of the rounds before it. */
  lemma RoundsUnfold(n: nat, i: nat, round: Round)
    requires 0 < i < n
    ensures Rounds(n, i, round) == round(Rounds(n, i - 1, round), n + (i - 1))
  {
  }

  /** The last cluster after a round is the one it made: its id is the
      round's, it has two children and its indices are in text order. */
  predicate LastMade(cs: seq<Cluster>, n: nat, id: nat) {
    |cs| + id == 2 * n && |cs| >= 1 && SortedBy(cs[|cs| - 1].indices, NumText) &&
    (id > n ==> cs[|cs| - 1].id == id - 1 && |cs[|cs| - 1].children| == 2)
  }

  /** A round keeps the last cluster the one it made. */
  lemma StepLastMade(cs: seq<Cluster>, n: nat, id: nat, link: Link)
    requires n <= id < 2 * n - 1 && LastMade(cs, n, id)
    ensures |cs| >= 2 && LastMade(Step(cs, id, link), n, id + 1)
  {
    var p := NearestPair(cs, link);
    MergeLast(cs, p, id);
    JsSortSorted(cs[p.a].indices + cs[p.b].indices);
  }

  /** After the n - 1 rounds the last cluster is the one the last round
      made. */
  lemma RoundsLastMade(n: nat, link: Link)
    requires n >= 1
    ensures LastMade(Rounds(n, n - 1, Merge(link)), n, 2 * n - 1)
  {
    var round := Merge(link);
    var inv := (cs: seq<Cluster>, id: nat) => LastMade(cs, n, id);
    forall cs: seq<Cluster>, id: nat | n <= id < 2 * n - 1 && inv(cs, id) ensures inv(round(cs, id), id + 1) {
      StepLastMade(cs, n, id, link);
    }
    assert Singletons(n)[n - 1].indices == [n - 1];
    RoundsKeep(n, n - 1, round, inv);
  }

  /** The root's indices are in text order; with two rows or more it is the
      last merge, with id 2n - 2, and a single row is its own root. */
  lemma RootOrder(n: nat, link: Link)
    requires n >= 1
    ensures SortedBy(Root(n, link).indices, NumText)
    ensures n == 1 ==> Root(n, link) == Leaf(0)
    ensures n >= 2 ==> Root(n, link).id == 2 * n - 2 && |Root(n, link).children| == 2
  {
    RoundsLastMade(n, link);
    if n == 1 {
      assert Root(n, link) == Leaf(0);
    }
  }

}
