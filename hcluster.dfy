/** The driver of src/lib/math/hcluster.ts: the linkage of two clusters
    through a cache of values by cluster id (`_linkage`), the `run` loop
    that scores every pair of the current clusters and merges the nearest,
    and the reordering of a table by the leaves of its trees
    (`getClusterOrderedDataFrame`). The distance between two rows and the
    function that turns a list of distances into a linkage are
    parameters. */
module HCluster {
  import opened Wrappers
  import opened Cell
  import opened BaseFrames
  import opened Seqs
  import Indexes
  import DataFrames
  import opened ClusterTrees
  import opened ClusterMerge

  /** `IDistFunc`: the distance between the values of two rows. */
  type DistFunc = (seq<Cell>, seq<Cell>) -> real

  /** `ILinkageFunc`: one number from a list of distances. */
  type LinkageFunc = seq<real> -> real

  /** The values of row i (`df.row(i).values`); every index `run` reads is
      a row of the table. */
  function RowValues(f: Frame, i: nat): seq<Cell> {
    if i < |f.data| then f.data[i] else []
  }

  /** The distance between rows i and j of the table. */
  function RowDist(f: Frame, dist: DistFunc): (nat, nat) -> real {
    (i: nat, j: nat) => dist(RowValues(f, i), RowValues(f, j))
  }

  // ------------------------------------------------------------ distances

  /** The distances from every row of the first cluster to every row of
      the second, row-major (`c1.indices.map(... c2.indices.map(...)).flat()`). */
  function Distances(xs: seq<nat>, ys: seq<nat>, d: (nat, nat) -> real): seq<real> {
    if xs == [] then []
    else seq(|ys|, j requires 0 <= j < |ys| => d(xs[0], ys[j])) + Distances(xs[1..], ys, d)
  }

  /** There is one distance per pair of rows. */
  lemma {:induction false} DistancesLength(xs: seq<nat>, ys: seq<nat>, d: (nat, nat) -> real)
    ensures |Distances(xs, ys, d)| == |xs| * |ys|
  {
    if xs != [] {
      DistancesLength(xs[1..], ys, d);
      assert |xs| * |ys| == (|xs| - 1) * |ys| + |ys|;
    }
  }

  /** The distance at i * |ys| + j is between xs[i] and ys[j]. */
  lemma {:induction false} DistanceAt(xs: seq<nat>, ys: seq<nat>, d: (nat, nat) -> real, i: nat, j: nat)
    requires i < |xs| && j < |ys|
    ensures i * |ys| + j < |Distances(xs, ys, d)| && Distances(xs, ys, d)[i * |ys| + j] == d(xs[i], ys[j])
  {
    DistancesLength(xs, ys, d);
    if i > 0 {
      var rest := xs[1..];
      DistanceAt(rest, ys, d, i - 1, j);
      assert i * |ys| + j == |ys| + ((i - 1) * |ys| + j);
      assert xs[i] == rest[i - 1];
    }
  }

  /** `_linkage` without its cache: the linkage function over the
      distances between the two clusters' rows. */
  function LinkageOf(c1: Cluster, c2: Cluster, d: (nat, nat) -> real, lf: LinkageFunc): real {
    lf(Distances(c1.indices, c2.indices, d))
  }

  /** The linkage `run` merges by. */
  function LinkOf(d: (nat, nat) -> real, lf: LinkageFunc): (link: Link)
    ensures forall c1, c2 :: link(c1, c2) == LinkageOf(c1, c2, d, lf)
  {
    (c1: Cluster, c2: Cluster) => LinkageOf(c1, c2, d, lf)
  }

  // ------------------------------------------------------------ the cache

  /** `dcache`: a value per (c1.id, c2.id). */
  type Cache = map<nat, map<nat, real>>

  predicate Cached(cache: Cache, a: nat, b: nat) {
    a in cache && b in cache[a]
  }

  /** `dcache.get(a).set(b, l)` after `dcache.set(a, new Map())` when a had
      no entry. */
  function Stored(cache: Cache, a: nat, b: nat, l: real): (r: Cache)
    ensures Cached(r, a, b) && r[a][b] == l
    ensures forall x: nat, y: nat | (x, y) != (a, b) :: Cached(r, x, y) == Cached(cache, x, y)
    ensures forall x: nat, y: nat | (x, y) != (a, b) && Cached(cache, x, y) :: Cached(r, x, y) && r[x][y] == cache[x][y]
  {
    var inner: map<nat, real> := if a in cache then cache[a] else map[];
    cache[a := inner[b := l]]
  }

  /** Every cached value is the linkage of the two clusters with those
      ids, as made so far. */
  ghost predicate Consistent(cache: Cache, made: map<nat, Cluster>, d: (nat, nat) -> real, lf: LinkageFunc) {
    forall a, b | Cached(cache, a, b) :: a in made && b in made && cache[a][b] == LinkageOf(made[a], made[b], d, lf)
  }

  /** The clusters are the ones made with their ids. */
  ghost predicate Members(cs: seq<Cluster>, made: map<nat, Cluster>) {
    forall k | 0 <= k < |cs| :: cs[k].id in made && made[cs[k].id] == cs[k]
  }

  /** Storing the linkage of two made clusters keeps the cache
      consistent. */
  lemma StoredConsistent(cache: Cache, made: map<nat, Cluster>, c1: Cluster, c2: Cluster, d: (nat, nat) -> real, lf: LinkageFunc)
    requires Consistent(cache, made, d, lf)
    requires c1.id in made && made[c1.id] == c1 && c2.id in made && made[c2.id] == c2
    ensures Consistent(Stored(cache, c1.id, c2.id, LinkageOf(c1, c2, d, lf)), made, d, lf)
  {
  }

  /** A value found in a consistent cache is the linkage of the two
      clusters. */
  lemma CachedLinkage(cache: Cache, made: map<nat, Cluster>, c1: Cluster, c2: Cluster, d: (nat, nat) -> real, lf: LinkageFunc)
    requires Consistent(cache, made, d, lf) && Cached(cache, c1.id, c2.id)
    requires c1.id in made && made[c1.id] == c1 && c2.id in made && made[c2.id] == c2
    ensures cache[c1.id][c2.id] == LinkageOf(c1, c2, d, lf)
  {
  }

  /** Making a cluster with a new id keeps the cache consistent. */
  lemma MadeConsistent(cache: Cache, made: map<nat, Cluster>, c: Cluster, d: (nat, nat) -> real, lf: LinkageFunc)
    requires Consistent(cache, made, d, lf) && c.id !in made
    ensures Consistent(cache, made[c.id := c], d, lf)
  {
  }

  /** Each pair in the list is cached, and no pair is listed twice. */
  ghost predicate Unique(cache: Cache, computed: seq<(nat, nat)>) {
    (forall k | 0 <= k < |computed| :: Cached(cache, computed[k].0, computed[k].1)) &&
    forall i, j | 0 <= i < j < |computed| :: computed[i] != computed[j]
  }

  /** Computing a pair that was not cached never repeats one. */
  lemma StoredUnique(cache: Cache, computed: seq<(nat, nat)>, a: nat, b: nat, l: real)
    requires Unique(cache, computed) && !Cached(cache, a, b)
    ensures Unique(Stored(cache, a, b, l), computed + [(a, b)])
  {
    var r := Stored(cache, a, b, l);
    var next := computed + [(a, b)];
    forall k | 0 <= k < |next| ensures Cached(r, next[k].0, next[k].1) {
      if k < |computed| {
        assert next[k] == computed[k];
      }
    }
  }

  /** The distance cache of one `run`, with the pairs whose linkage was
      computed, in order. */
  class DistCache {
    var cache: Cache
    ghost var computed: seq<(nat, nat)>

    /** Each computed pair is cached, and no pair was computed twice. */
    ghost predicate Valid()
      reads this
    {
      Unique(cache, computed)
    }

    /** `new Map()`. */
    constructor()
      ensures cache == map[] && computed == [] && Valid()
    {
      cache := map[];
      computed := [];
    }

    /** `_linkage(df, c1, c2, distFunc, linkageFunc, dcache)`: a cached
        value is returned and nothing changes; otherwise the linkage is
        computed, stored and returned. For clusters made earlier in the
        same run, either way the value is their linkage. */
    method Linkage(c1: Cluster, c2: Cluster, ghost made: map<nat, Cluster>, d: (nat, nat) -> real, lf: LinkageFunc)
      returns (l: real)
      requires Valid()
      modifies this
      ensures Valid()
      ensures Consistent(old(cache), made, d, lf) &&
              c1.id in made && made[c1.id] == c1 && c2.id in made && made[c2.id] == c2 ==>
                Consistent(cache, made, d, lf) && l == LinkageOf(c1, c2, d, lf)
      ensures Cached(old(cache), c1.id, c2.id) ==>
                l == old(cache)[c1.id][c2.id] && cache == old(cache) && computed == old(computed)
      ensures !Cached(old(cache), c1.id, c2.id) ==>
                l == LinkageOf(c1, c2, d, lf) && cache == Stored(old(cache), c1.id, c2.id, l) &&
                computed == old(computed) + [(c1.id, c2.id)]
    {
      // `dcache.has(c1.id) && dcache.get(c1.id).has(c2.id)`; a missing
      // inner map is created on the way to the store
      if Cached(cache, c1.id, c2.id) {
        l := cache[c1.id][c2.id];
        if Consistent(cache, made, d, lf) && c1.id in made && made[c1.id] == c1 && c2.id in made && made[c2.id] == c2 {
          CachedLinkage(cache, made, c1, c2, d, lf);
        }
      } else {
        var distances := Distances(c1.indices, c2.indices, d);
        l := lf(distances);
        if Consistent(cache, made, d, lf) && c1.id in made && made[c1.id] == c1 && c2.id in made && made[c2.id] == c2 {
          StoredConsistent(cache, made, c1, c2, d, lf);
        }
        StoredUnique(cache, computed, c1.id, c2.id, l);
        cache := Stored(cache, c1.id, c2.id, l);
        computed := computed + [(c1.id, c2.id)];
      }
    }
  }

  // ------------------------------------------------------------ run

  /** The pairs of the current clusters with their linkages, each looked
      up through the cache (the `clusterPairs.forEach` that sets
      `pair[2]`): the same list as `Scored`. */
  method ScorePairs(cs: seq<Cluster>, dc: DistCache, ghost made: map<nat, Cluster>, d: (nat, nat) -> real, lf: LinkageFunc)
    returns (ps: seq<Pair>)
    requires dc.Valid() && Consistent(dc.cache, made, d, lf) && Members(cs, made)
    modifies dc
    ensures dc.Valid() && Consistent(dc.cache, made, d, lf)
    ensures ps == Scored(cs, LinkOf(d, lf))
  {
    ghost var link := LinkOf(d, lf);
    ghost var want := Scored(cs, link);
    ps := Pairs(|cs|);
    var k := 0;
    while k < |ps|
      invariant k <= |ps| == |want|
      invariant forall m :: 0 <= m < |ps| ==> ps[m].a == want[m].a && ps[m].b == want[m].b
      invariant forall m :: 0 <= m < k ==> ps[m] == want[m]
      invariant dc.Valid() && Consistent(dc.cache, made, d, lf)
    {
      var c1, c2 := cs[ps[k].a], cs[ps[k].b];
      var l := dc.Linkage(c1, c2, made, d, lf);
      ps := ps[k := Pair(ps[k].a, ps[k].b, Fin(l))];
      k := k + 1;
    }
  }

  /** The clusters after round i under the linkage. */
  function RoundAt(n: nat, i: nat, link: Link): (cs: seq<Cluster>)
    requires i < n
    ensures |cs| == n - i
  {
    RoundsLength(n, i, link);
    Rounds(n, i, Merge(link))
  }

  /** Merging the nearest pair of round i into a cluster with id n + i
      gives round i + 1. */
  lemma RunRound(cs: seq<Cluster>, n: nat, i: nat, link: Link, next: seq<Cluster>)
    requires i + 1 < n && cs == RoundAt(n, i, link)
    requires |cs| >= 2 && next == Step(cs, n + i, link)
    ensures next == RoundAt(n, i + 1, link)
  {
    RoundsLength(n, i, link);
    RoundsUnfold(n, i + 1, Merge(link));
  }

  /** The clusters left after a merge are the ones made so far and the
      new one. */
  lemma RunMembers(cs: seq<Cluster>, made: map<nat, Cluster>, p: Pair, id: nat, next: seq<Cluster>, nc: Cluster)
    requires p.a < p.b < |cs| && p.dist.Fin? && Members(cs, made) && id !in made
    requires next == StepWith(cs, p, id) && nc == next[|next| - 1]
    ensures Members(next, made[id := nc])
  {
    MergeKeeps(cs, p, id);
    MergeLast(cs, p, id);
  }

  /** Score every pair of the clusters through the cache and take the
      nearest (`clusterPairs.reduce(...)`). */
  method PickNearest(cs: seq<Cluster>, dc: DistCache, ghost made: map<nat, Cluster>, d: (nat, nat) -> real, lf: LinkageFunc)
    returns (nearest: Pair)
    requires |cs| >= 2
    requires dc.Valid() && Consistent(dc.cache, made, d, lf) && Members(cs, made)
    modifies dc
    ensures nearest == NearestPair(cs, LinkOf(d, lf))
    ensures dc.Valid() && Consistent(dc.cache, made, d, lf)
  {
    var ps := ScorePairs(cs, dc, made, d, lf);
    nearest := Nearest(ps);
  }

  /** Replace the clusters at positions p.a and p.b by their merge with
      id `id` (`clusters.splice(...)` twice, then `push`). */
  method MergePair(cs: seq<Cluster>, p: Pair, id: nat, ghost made: map<nat, Cluster>)
    returns (next: seq<Cluster>, newCluster: Cluster)
    requires p.a < p.b < |cs| && p.dist.Fin? && Members(cs, made) && id !in made
    ensures next == StepWith(cs, p, id)
    ensures |next| > 0 && newCluster == next[|next| - 1] && newCluster.id == id
    ensures Members(next, made[id := newCluster])
  {
    newCluster := Cluster(id, p.dist.v, JsSort(cs[p.a].indices + cs[p.b].indices), [cs[p.a], cs[p.b]]);
    next := Splice(cs, Max(p.a, p.b));
    next := Splice(next, Min(p.a, p.b));
    next := next + [newCluster];
    RunMembers(cs, made, p, id, next, newCluster);
  }

  /** One pass of the `run` loop: take the nearest pair and replace the
      two clusters by their merge with id n + i (the later position is
      removed first). */
  method MergeNearest(cs: seq<Cluster>, n: nat, i: nat, dc: DistCache, ghost made: map<nat, Cluster>,
                      d: (nat, nat) -> real, lf: LinkageFunc)
    returns (next: seq<Cluster>, newCluster: Cluster)
    requires |cs| >= 2 && n + i !in made
    requires dc.Valid() && Consistent(dc.cache, made, d, lf) && Members(cs, made)
    modifies dc
    ensures next == Step(cs, n + i, LinkOf(d, lf))
    ensures |next| > 0 && newCluster == next[|next| - 1] && newCluster.id == n + i
    ensures Members(next, made[n + i := newCluster])
    ensures dc.Valid() && Consistent(dc.cache, made, d, lf)
  {
    var nearest := PickNearest(cs, dc, made, d, lf);
    next, newCluster := MergePair(cs, nearest, n + i, made);
  }

  /** The loop of `run`: one cluster per row, then n - 1 merges, the
      i-th making the cluster with id n + i; every linkage is looked up
      through one cache. */
  method MergeAll(n: nat, d: (nat, nat) -> real, lf: LinkageFunc) returns (clusters: seq<Cluster>)
    ensures n == 0 ==> clusters == []
    ensures n >= 1 ==> clusters == RoundAt(n, n - 1, LinkOf(d, lf))
  {
    ghost var link := LinkOf(d, lf);
    clusters := Singletons(n);
    ghost var made: map<nat, Cluster> := map k: nat | k < n :: Leaf(k);
    var dc := new DistCache();
    // `range(0, n - 1).forEach(...)`: no pass when n is 0 or 1
    for i := 0 to if n >= 1 then n - 1 else 0
      invariant n == 0 ==> clusters == []
      invariant n >= 1 ==> clusters == RoundAt(n, i, link)
      invariant forall k :: k in made ==> k < n + i
      invariant Members(clusters, made)
      invariant dc.Valid() && Consistent(dc.cache, made, d, lf)
    {
      var merged;
      RoundsLength(n, i, link);
      ghost var before := clusters;
      clusters, merged := MergeNearest(clusters, n, i, dc, made, d, lf);
      RunRound(before, n, i, link, clusters);
      MadeConsistent(dc.cache, made, merged, d, lf);
      made := made[n + i := merged];
    }
  }

  /** `IClusterTree` without its branch coordinates. */
  datatype ClusterTree = ClusterTree(cluster: Cluster, leaves: seq<nat>)

  /** `HCluster`: a linkage function and a distance between rows. */
  class HCluster {
    const linkage: LinkageFunc
    const dist: DistFunc

    constructor(linkage: LinkageFunc, dist: DistFunc)
      ensures this.linkage == linkage && this.dist == dist
    {
      this.linkage := linkage;
      this.dist := dist;
    }

    /** `run(df)`: start from one cluster per row, and n - 1 times score
        every pair of the current clusters and merge the nearest into a
        cluster with id n + i; the tree is the one cluster left and its
        leaves. On a table with no rows `clusters[0]` is undefined and
        reading its height throws. */
    method Run(f: Frame) returns (r: Result<ClusterTree, string>)
      ensures r.Failure? <==> |f.data| == 0
      ensures r.Success? ==>
                r.value.cluster == Root(|f.data|, LinkOf(RowDist(f, dist), linkage)) &&
                r.value.leaves == Leaves(r.value.cluster) &&
                Tree(r.value.cluster, |f.data|) &&
                multiset(r.value.leaves) == multiset(Iota(|f.data|))
    {
      var n := |f.data|;
      ghost var link := LinkOf(RowDist(f, dist), linkage);
      var clusters := MergeAll(n, RowDist(f, dist), linkage);
      if n == 0 {
        r := Failure("TypeError");
      } else {
        RootSpec(n, link);
        var cluster := clusters[0];
        var leaves := GetLeaves(cluster);
        r := Success(ClusterTree(cluster, leaves));
      }
    }
  }

  // ------------------------------------------------------------ ordered table

  /** `MAIN_CLUSTER_FRAME`: the key of the table the trees were built on. */
  const MAIN_CLUSTER_FRAME := "main"

  /** `ClusterFrame`: tables by name and the trees over the main table's
      rows and columns, when they were clustered. */
  datatype ClusterFrame = ClusterFrame(dataframes: map<string, Frame>,
                                       rowTree: Option<ClusterTree>, colTree: Option<ClusterTree>)

  /** The leaves of a tree, or `range(0, n)` without one. */
  function LeavesOr(tree: Option<ClusterTree>, n: nat): (r: seq<int>)
    ensures tree.None? ==> r == Range(0, n)
    ensures tree.Some? ==> r == tree.value.leaves
  {
    if tree.Some? then tree.value.leaves else Range(0, n)
  }

  /** `names[k]`: the name, or undefined past the end. */
  function NameAt(names: seq<string>, k: int): Cell {
    if 0 <= k < |names| then Str(names[k]) else Null
  }

  /** The order of the main table's rows, and of its columns. */
  function RowOrder(cf: ClusterFrame): seq<int>
    requires MAIN_CLUSTER_FRAME in cf.dataframes
  {
    LeavesOr(cf.rowTree, Shape(cf.dataframes[MAIN_CLUSTER_FRAME]).0)
  }

  function ColOrder(cf: ClusterFrame): seq<int>
    requires MAIN_CLUSTER_FRAME in cf.dataframes
  {
    LeavesOr(cf.colTree, Shape(cf.dataframes[MAIN_CLUSTER_FRAME]).1)
  }

  /** There is a main table, and every row the order reads exists (no
      row is read when no column is). */
  predicate Readable(cf: ClusterFrame) {
    MAIN_CLUSTER_FRAME in cf.dataframes &&
    (|ColOrder(cf)| == 0 || DataFrames.RowsExist(cf.dataframes[MAIN_CLUSTER_FRAME].data, RowOrder(cf)))
  }

  /** `getClusterOrderedDataFrame(cf)`: the main table with its rows in the
      order of the row tree's leaves and its columns in the order of the
      column tree's leaves, each kept in place when there is no tree; the
      names follow their rows and columns. Without a main table, or when
      a leaf names a row that does not exist, the lookup throws. */
  function OrderedFrame(cf: ClusterFrame, fmt: Formats): (r: Result<Frame, string>)
    ensures r.Failure? <==> !Readable(cf)
    ensures r.Success? ==>
              var df, rows, cols := cf.dataframes[MAIN_CLUSTER_FRAME], RowOrder(cf), ColOrder(cf);
              r.value.name == df.name && |r.value.data| == |rows| &&
              (forall i :: 0 <= i < |rows| ==> |r.value.data[i]| == |cols|) &&
              (forall i, j :: 0 <= i < |rows| && 0 <= j < |cols| ==>
                 r.value.data[i][j] == DataFrames.CellOrNull(df.data[rows[i]], cols[j])) &&
              r.value.index.Data? && |r.value.index.values| == |rows| &&
              (forall i :: 0 <= i < |rows| ==> r.value.index.values[i] == NameAt(RowNames(df, fmt), rows[i])) &&
              (|rows| > 0 ==>
                 r.value.columns.Data? && |r.value.columns.values| == |cols| &&
                 forall j :: 0 <= j < |cols| ==> r.value.columns.values[j] == NameAt(ColNames(df, fmt), cols[j]))
  {
    if !Readable(cf) then Failure("TypeError")
    else
      var df := cf.dataframes[MAIN_CLUSTER_FRAME];
      var rows, cols := RowOrder(cf), ColOrder(cf);
      var rowNames, colNames := RowNames(df, fmt), ColNames(df, fmt);
      var data := DataFrames.Cells(df.data, rows, cols);
      var index := seq(|rows|, i requires 0 <= i < |rows| => NameAt(rowNames, rows[i]));
      var columns := seq(|cols|, j requires 0 <= j < |cols| => NameAt(colNames, cols[j]));
      Success(DataFrames.Construct(df.name, data, DataFrames.FromList(index), DataFrames.FromList(columns)))
  }

  /** The rows of `s` at the positions `idx`, in that order. */
  function Gather<T>(s: seq<T>, idx: seq<int>): (r: seq<T>)
    requires forall k :: 0 <= k < |idx| ==> 0 <= idx[k] < |s|
    ensures |r| == |idx| && forall k :: 0 <= k < |idx| ==> r[k] == s[idx[k]]
  {
    seq(|idx|, k requires 0 <= k < |idx| => s[idx[k]])
  }

  /** Taking out the element at p takes one copy of it out of the
      multiset. */
  lemma RemoveAt<T>(b: seq<T>, p: nat)
    requires p < |b|
    ensures multiset(b) == multiset(b[..p] + b[p + 1..]) + multiset([b[p]])
  {
    assert b == b[..p] + [b[p]] + b[p + 1..];
  }

  /** The same multiset added to both sides cancels. */
  lemma Cancel<T>(m1: multiset<T>, m2: multiset<T>, m: multiset<T>)
    requires m1 + m == m2 + m
    ensures m1 == m2
  {
    assert forall y :: m1[y] == (m1 + m)[y] - m[y];
  }

  /** Taking a position out of the list takes its element out of what is
      gathered. */
  lemma GatherRemove<T>(s: seq<T>, b: seq<int>, p: nat, rest: seq<int>)
    requires forall k :: 0 <= k < |b| ==> 0 <= b[k] < |s|
    requires p < |b| && rest == b[..p] + b[p + 1..]
    ensures forall k :: 0 <= k < |rest| ==> 0 <= rest[k] < |s|
    ensures multiset(Gather(s, b)) == multiset(Gather(s, rest)) + multiset([s[b[p]]])
  {
    var g := Gather(s, b);
    assert Gather(s, rest) == g[..p] + g[p + 1..];
    RemoveAt(g, p);
  }

  /** Two position lists with the same positions gather the same
      elements. */
  lemma {:induction false} GatherPermuted<T>(s: seq<T>, a: seq<int>, b: seq<int>)
    requires forall k :: 0 <= k < |a| ==> 0 <= a[k] < |s|
    requires forall k :: 0 <= k < |b| ==> 0 <= b[k] < |s|
    requires multiset(a) == multiset(b)
    ensures multiset(Gather(s, a)) == multiset(Gather(s, b))
    decreases |a|
  {
    if |a| == 0 {
      assert |multiset(b)| == 0;
      assert b == [];
    } else {
      var x := a[0];
      assert x in multiset(b);
      var p :| 0 <= p < |b| && b[p] == x;
      var restA, restB := a[1..], b[..p] + b[p + 1..];
      assert restA == a[..0] + a[1..];
      RemoveAt(a, 0);
      RemoveAt(b, p);
      GatherRemove(s, a, 0, restA);
      GatherRemove(s, b, p, restB);
      Cancel(multiset(restA), multiset(restB), multiset([x]));
      GatherPermuted(s, restA, restB);
    }
  }

  /** Positions that are a permutation of 0 .. |s| - 1 gather a
      permutation of `s`. */
  lemma GatherAll<T>(s: seq<T>, idx: seq<nat>)
    requires multiset(idx) == multiset(Iota(|s|))
    ensures forall k :: 0 <= k < |idx| ==> idx[k] < |s|
    ensures multiset(Gather(s, idx)) == multiset(s)
  {
    forall k | 0 <= k < |idx| ensures idx[k] < |s| {
      assert idx[k] in multiset(Iota(|s|));
    }
    GatherPermuted(s, idx, Iota(|s|));
    assert Gather(s, Iota(|s|)) == s;
  }

  /** A rectangular table read at all its columns in order gives its rows
      back. */
  lemma CellsRows(data: seq<seq<Cell>>, rows: seq<int>)
    requires Rectangular(data) && DataFrames.RowsExist(data, rows)
    ensures DataFrames.Cells(data, rows, Range(0, if |data| > 0 then |data[0]| else 0)) == Gather(data, rows)
  {
    var cols := Range(0, if |data| > 0 then |data[0]| else 0);
    var r := DataFrames.Cells(data, rows, cols);
    forall i | 0 <= i < |rows| ensures r[i] == data[rows[i]] {
      assert |data[rows[i]]| == |cols|;
    }
  }

  /** The cells of the result are those read at the row and column
      orders. */
  lemma OrderedData(cf: ClusterFrame, fmt: Formats)
    requires Readable(cf)
    ensures OrderedFrame(cf, fmt).Success? &&
            OrderedFrame(cf, fmt).value.data ==
              DataFrames.Cells(cf.dataframes[MAIN_CLUSTER_FRAME].data, RowOrder(cf), ColOrder(cf))
  {
  }

  /** Without trees the main table comes back with its cells, name and row
      names unchanged. */
  lemma OrderedIdentity(cf: ClusterFrame, fmt: Formats)
    requires MAIN_CLUSTER_FRAME in cf.dataframes && cf.rowTree.None? && cf.colTree.None?
    requires Rectangular(cf.dataframes[MAIN_CLUSTER_FRAME].data)
    ensures var r := OrderedFrame(cf, fmt); var df := cf.dataframes[MAIN_CLUSTER_FRAME];
            r.Success? && r.value.data == df.data && r.value.name == df.name &&
            r.value.index == Indexes.Data(seq(|df.data|, i requires 0 <= i < |df.data| => Str(RowNames(df, fmt)[i])))
  {
    var df := cf.dataframes[MAIN_CLUSTER_FRAME];
    DataFrames.CellsAll(df.data);
    OrderedData(cf, fmt);
  }

  /** Clustering the rows only: the rows of the result are the main
      table's rows, each once, in the order of the row tree's leaves. */
  lemma OrderedRowsPermuted(cf: ClusterFrame, fmt: Formats)
    requires MAIN_CLUSTER_FRAME in cf.dataframes && cf.colTree.None?
    requires Rectangular(cf.dataframes[MAIN_CLUSTER_FRAME].data)
    requires cf.rowTree.Some? ==>
               multiset(cf.rowTree.value.leaves) == multiset(Iota(|cf.dataframes[MAIN_CLUSTER_FRAME].data|))
    ensures var r := OrderedFrame(cf, fmt); var df := cf.dataframes[MAIN_CLUSTER_FRAME];
            r.Success? && multiset(r.value.data) == multiset(df.data)
  {
    var df := cf.dataframes[MAIN_CLUSTER_FRAME];
    var rows := RowOrder(cf);
    if cf.rowTree.Some? {
      GatherAll(df.data, cf.rowTree.value.leaves);
    } else {
      assert Gather(df.data, rows) == df.data;
    }
    assert DataFrames.RowsExist(df.data, rows);
    CellsRows(df.data, rows);
    OrderedData(cf, fmt);
  }

  /** Clustering the columns: each row of the result holds the cells of
      its row of the main table, each once, in the order of the column
      tree's leaves. */
  lemma OrderedColumnsPermuted(cf: ClusterFrame, fmt: Formats, i: nat)
    requires MAIN_CLUSTER_FRAME in cf.dataframes && cf.colTree.Some?
    requires var df := cf.dataframes[MAIN_CLUSTER_FRAME];
             Rectangular(df.data) && DataFrames.RowsExist(df.data, RowOrder(cf)) &&
             multiset(cf.colTree.value.leaves) == multiset(Iota(Shape(df).1))
    requires i < |RowOrder(cf)|
    ensures var r := OrderedFrame(cf, fmt); var df := cf.dataframes[MAIN_CLUSTER_FRAME];
            r.Success? && i < |r.value.data| &&
            multiset(r.value.data[i]) == multiset(df.data[RowOrder(cf)[i]])
  {
    var df := cf.dataframes[MAIN_CLUSTER_FRAME];
    var leaves := cf.colTree.value.leaves;
    var row := df.data[RowOrder(cf)[i]];
    assert |row| == Shape(df).1;
    GatherAll(row, leaves);
    OrderedData(cf, fmt);
    assert OrderedFrame(cf, fmt).value.data[i] == Gather(row, leaves);
  }
}
