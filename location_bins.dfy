/** `LocationBinMap` of src/modules/genomic/genomic.ts: locations filed by
    chromosome and by fixed-size bin, and the search for the stored
    locations that overlap a query. */
module LocationBins {
  import opened Wrappers
  import opened Seqs
  import opened Genomic

  /** The bins of one chromosome: bin number to the locations filed there. */
  type Bins = map<int, seq<GenomicLocation>>

  /** Chromosome name to its bins. */
  type BinMap = map<string, Bins>

  /** `Math.floor(x / binSize)` for a positive bin size. */
  function BinOf(x: int, binSize: int): int
    requires binSize > 0
  {
    x / binSize
  }

  /** Floor division keeps the order of its dividends. */
  lemma BinOfMonotone(a: int, b: int, binSize: int)
    requires binSize > 0 && a <= b
    ensures BinOf(a, binSize) <= BinOf(b, binSize)
  {
    var qa, qb := a / binSize, b / binSize;
    if qa > qb {
      MulMonotone(qb + 1, qa, binSize);
      assert false;
    }
  }

  lemma MulMonotone(x: int, y: int, d: int)
    requires x <= y && d > 0
    ensures x * d <= y * d
  {
  }

  /** The list kept under bin b, empty when there is none. */
  function Bin(bins: Bins, b: int): seq<GenomicLocation> {
    if b in bins then bins[b] else []
  }

  /** The list under bin b of chromosome chr, empty when there is none. */
  function BinAt(m: BinMap, chr: string, b: int): seq<GenomicLocation> {
    if chr in m then Bin(m[chr], b) else []
  }

  // ------------------------------------------------------------ building

  /** Pushing l onto every bin in [lo, hi), lowest first. */
  function AddToBins(bins: Bins, l: GenomicLocation, lo: int, hi: int): Bins
    decreases hi - lo
  {
    if hi <= lo then bins
    else
      var m := AddToBins(bins, l, lo, hi - 1);
      m[hi - 1 := Bin(m, hi - 1) + [l]]
  }

  /** One step of the constructor: the chromosome gets a map if it has
      none, then the location is pushed onto every bin it spans. */
  function AddLocation(m: BinMap, l: GenomicLocation, binSize: int): BinMap
    requires binSize > 0
  {
    var bins := if l.chr in m then m[l.chr] else map[];
    m[l.chr := AddToBins(bins, l, BinOf(l.start, binSize), BinOf(l.end, binSize) + 1)]
  }

  /** The map the constructor builds from the locations, in order. */
  function Binned(locations: seq<GenomicLocation>, binSize: int): BinMap
    requires binSize > 0
  {
    if locations == [] then map[]
    else AddLocation(Binned(locations[..|locations| - 1], binSize), locations[|locations| - 1], binSize)
  }

  /** Whether the bins of location l include bin b. */
  predicate Spans(l: GenomicLocation, b: int, binSize: int)
    requires binSize > 0
  {
    BinOf(l.start, binSize) <= b <= BinOf(l.end, binSize)
  }

  /** The locations of chromosome chr whose bins include b, in input
      order: what bin b of chr should hold. */
  function InBin(locations: seq<GenomicLocation>, chr: string, b: int, binSize: int): seq<GenomicLocation>
    requires binSize > 0
  {
    if locations == [] then []
    else
      var l := locations[|locations| - 1];
      InBin(locations[..|locations| - 1], chr, b, binSize) +
      (if l.chr == chr && Spans(l, b, binSize) then [l] else [])
  }

  /** Pushing onto the bins [lo, hi) adds l at the end of exactly those
      bins. */
  lemma {:induction false} AddToBinsBin(bins: Bins, l: GenomicLocation, lo: int, hi: int, b: int)
    ensures Bin(AddToBins(bins, l, lo, hi), b) == Bin(bins, b) + (if lo <= b < hi then [l] else [])
    decreases hi - lo
  {
    if hi > lo {
      AddToBinsBin(bins, l, lo, hi - 1, b);
    }
  }

  /** The constructor files each location under every bin it spans, in
      input order, and under no other. */
  lemma {:induction false} BinnedBins(locations: seq<GenomicLocation>, binSize: int, chr: string, b: int)
    requires binSize > 0
    ensures BinAt(Binned(locations, binSize), chr, b) == InBin(locations, chr, b, binSize)
  {
    if locations != [] {
      var p, l := locations[..|locations| - 1], locations[|locations| - 1];
      BinnedBins(p, binSize, chr, b);
      if l.chr == chr {
        var m := Binned(p, binSize);
        var bins := if l.chr in m then m[l.chr] else map[];
        AddToBinsBin(bins, l, BinOf(l.start, binSize), BinOf(l.end, binSize) + 1, b);
      }
    }
  }

  /** A chromosome has a map exactly when some location is on it. */
  lemma {:induction false} BinnedKeys(locations: seq<GenomicLocation>, binSize: int)
    requires binSize > 0
    ensures Binned(locations, binSize).Keys == set l | l in locations :: l.chr
  {
    if locations != [] {
      var p, l := locations[..|locations| - 1], locations[|locations| - 1];
      assert locations == p + [l];
      BinnedKeys(p, binSize);
      assert (set x | x in locations :: x.chr) == (set x | x in p :: x.chr) + {l.chr};
    }
  }

  /** What bin b of chr holds: its locations that span b. */
  lemma {:induction false} InBinHas(locations: seq<GenomicLocation>, chr: string, b: int, binSize: int, x: GenomicLocation)
    requires binSize > 0
    ensures x in InBin(locations, chr, b, binSize) <==> x in locations && x.chr == chr && Spans(x, b, binSize)
  {
    if locations != [] {
      var p := locations[..|locations| - 1];
      assert locations == p + [locations[|locations| - 1]];
      InBinHas(p, chr, b, binSize, x);
    }
  }

  // ------------------------------------------------------------ searching

  /** The locations of ls that overlap q, in order (the `forEach` over one
      bin). */
  function Hits(ls: seq<GenomicLocation>, q: GenomicLocation): seq<GenomicLocation> {
    if ls == [] then []
    else
      var l := ls[|ls| - 1];
      Hits(ls[..|ls| - 1], q) + (if Overlaps(Some(q), Some(l)).Some? then [l] else [])
  }

  /** The hits of the bins visited, in the order visited. */
  function BinsHits(bins: Bins, q: GenomicLocation, visited: seq<int>): seq<GenomicLocation> {
    if visited == [] then []
    else BinsHits(bins, q, visited[..|visited| - 1]) + Hits(Bin(bins, visited[|visited| - 1]), q)
  }

  /** n copies of x. */
  function Repeat(x: int, n: nat): (r: seq<int>)
    ensures |r| == n && forall k :: 0 <= k < n ==> r[k] == x
  {
    if n == 0 then [] else Repeat(x, n - 1) + [x]
  }

  /** The number of bins a query spans: floor(start/binSize) to
      floor(end/binSize), none when inverted. */
  function Span(q: GenomicLocation, binSize: int): nat
    requires binSize > 0
  {
    var s, e := BinOf(q.start, binSize), BinOf(q.end, binSize);
    if e + 1 > s then e + 1 - s else 0
  }

  /** `search` as written: once per bin the query spans, it scans the
      query's first bin s. */
  function SearchAsWritten(m: BinMap, binSize: int, q: GenomicLocation): seq<GenomicLocation>
    requires binSize > 0
  {
    if q.chr !in m then []
    else BinsHits(m[q.chr], q, Repeat(BinOf(q.start, binSize), Span(q, binSize)))
  }

  /** `search` scanning bin b on the visit to bin b. */
  function SearchBins(m: BinMap, binSize: int, q: GenomicLocation): seq<GenomicLocation>
    requires binSize > 0
  {
    if q.chr !in m then []
    else BinsHits(m[q.chr], q, Range(BinOf(q.start, binSize), BinOf(q.end, binSize) + 1))
  }

  /** The hits of a list are its locations that overlap the query. */
  lemma {:induction false} HitsHas(ls: seq<GenomicLocation>, q: GenomicLocation, x: GenomicLocation)
    ensures x in Hits(ls, q) <==> x in ls && Overlaps(Some(q), Some(x)).Some?
  {
    if ls != [] {
      var p := ls[..|ls| - 1];
      assert ls == p + [ls[|ls| - 1]];
      HitsHas(p, q, x);
    }
  }

  /** A hit of the visited bins is a hit of some visited bin. */
  lemma {:induction false} BinsHitsWitness(bins: Bins, q: GenomicLocation, visited: seq<int>, x: GenomicLocation)
    returns (k: int)
    requires x in BinsHits(bins, q, visited)
    ensures 0 <= k < |visited| && x in Hits(Bin(bins, visited[k]), q)
  {
    var p := visited[..|visited| - 1];
    if x in Hits(Bin(bins, visited[|visited| - 1]), q) {
      k := |visited| - 1;
    } else {
      k := BinsHitsWitness(bins, q, p, x);
      assert visited[k] == p[k];
    }
  }

  /** A hit of a visited bin is a hit of the visited bins. */
  lemma {:induction false} BinsHitsHave(bins: Bins, q: GenomicLocation, visited: seq<int>, k: int, x: GenomicLocation)
    requires 0 <= k < |visited| && x in Hits(Bin(bins, visited[k]), q)
    ensures x in BinsHits(bins, q, visited)
  {
    var p := visited[..|visited| - 1];
    if k < |p| {
      assert visited[k] == p[k];
      BinsHitsHave(bins, q, p, k, x);
    }
  }

  /** Visiting the same bin n times gives its hits n times over. */
  lemma {:induction false} RepeatHitsLength(bins: Bins, q: GenomicLocation, b: int, n: nat)
    ensures |BinsHits(bins, q, Repeat(b, n))| == n * |Hits(Bin(bins, b), q)|
  {
    if n > 0 {
      var h := |Hits(Bin(bins, b), q)|;
      assert Repeat(b, n)[..n - 1] == Repeat(b, n - 1);
      RepeatHitsLength(bins, q, b, n - 1);
      assert (n - 1) * h + h == n * h;
    }
  }

  /** Everything `search` returns, as written, is a stored location that
      overlaps the query, and it finds exactly the stored overlapping
      locations that span the query's first bin, each once per bin the
      query spans. */
  lemma SearchAsWrittenHits(locations: seq<GenomicLocation>, binSize: int, q: GenomicLocation, x: GenomicLocation)
    requires binSize > 0
    ensures var r := SearchAsWritten(Binned(locations, binSize), binSize, q);
            (x in r <==> Span(q, binSize) > 0 && x in locations && Overlaps(Some(q), Some(x)).Some? &&
                         Spans(x, BinOf(q.start, binSize), binSize)) &&
            |r| == Span(q, binSize) * |InBinHits(locations, binSize, q)|
  {
    var m := Binned(locations, binSize);
    var s := BinOf(q.start, binSize);
    var n := Span(q, binSize);
    BinnedBins(locations, binSize, q.chr, s);
    InBinHas(locations, q.chr, s, binSize, x);
    HitsHas(InBin(locations, q.chr, s, binSize), q, x);
    BinnedKeys(locations, binSize);
    if q.chr in m {
      RepeatHitsLength(m[q.chr], q, s, n);
      if x in SearchAsWritten(m, binSize, q) {
        var k := BinsHitsWitness(m[q.chr], q, Repeat(s, n), x);
      }
      if n > 0 && x in Hits(Bin(m[q.chr], s), q) {
        BinsHitsHave(m[q.chr], q, Repeat(s, n), 0, x);
      }
    }
  }

  /** The hits of the query's first bin, as the stored map holds it. */
  function InBinHits(locations: seq<GenomicLocation>, binSize: int, q: GenomicLocation): seq<GenomicLocation>
    requires binSize > 0
  {
    Hits(InBin(locations, q.chr, BinOf(q.start, binSize), binSize), q)
  }

  /** Scanning bin b on the visit to bin b finds exactly the stored
      locations that overlap the query. */
  lemma SearchBinsHits(locations: seq<GenomicLocation>, binSize: int, q: GenomicLocation, x: GenomicLocation)
    requires binSize > 0
    ensures x in SearchBins(Binned(locations, binSize), binSize, q) <==>
            x in locations && Overlaps(Some(q), Some(x)).Some?
  {
    if x in SearchBins(Binned(locations, binSize), binSize, q) {
      SearchBinsSound(locations, binSize, q, x);
    }
    if x in locations && Overlaps(Some(q), Some(x)).Some? {
      SearchBinsComplete(locations, binSize, q, x);
    }
  }

  lemma SearchBinsSound(locations: seq<GenomicLocation>, binSize: int, q: GenomicLocation, x: GenomicLocation)
    requires binSize > 0
    requires x in SearchBins(Binned(locations, binSize), binSize, q)
    ensures x in locations && Overlaps(Some(q), Some(x)).Some?
  {
    var m := Binned(locations, binSize);
    var visited := Range(BinOf(q.start, binSize), BinOf(q.end, binSize) + 1);
    var k := BinsHitsWitness(m[q.chr], q, visited, x);
    HitsHas(Bin(m[q.chr], visited[k]), q, x);
    BinnedBins(locations, binSize, q.chr, visited[k]);
    InBinHas(locations, q.chr, visited[k], binSize, x);
  }

  lemma SearchBinsComplete(locations: seq<GenomicLocation>, binSize: int, q: GenomicLocation, x: GenomicLocation)
    requires binSize > 0
    requires x in locations && Overlaps(Some(q), Some(x)).Some?
    ensures x in SearchBins(Binned(locations, binSize), binSize, q)
  {
    var m := Binned(locations, binSize);
    var s, e := BinOf(q.start, binSize), BinOf(q.end, binSize);
    var visited := Range(s, e + 1);
    var p := Max(q.start, x.start);
    var b := BinOf(p, binSize);
    assert Spans(x, b, binSize) && s <= b <= e by {
      BinOfMonotone(x.start, p, binSize);
      BinOfMonotone(p, x.end, binSize);
      BinOfMonotone(q.start, p, binSize);
      BinOfMonotone(p, q.end, binSize);
    }
    assert q.chr in m by {
      BinnedKeys(locations, binSize);
    }
    assert x in Hits(Bin(m[q.chr], b), q) by {
      BinnedBins(locations, binSize, q.chr, b);
      InBinHas(locations, q.chr, b, binSize, x);
      HitsHas(Bin(m[q.chr], b), q, x);
    }
    assert visited[b - s] == b;
    BinsHitsHave(m[q.chr], q, visited, b - s, x);
  }

  /** The same, for every location at once. */
  lemma SearchBinsSpec(locations: seq<GenomicLocation>, binSize: int, q: GenomicLocation)
    requires binSize > 0
    ensures forall x :: x in SearchBins(Binned(locations, binSize), binSize, q) <==>
                        x in locations && Overlaps(Some(q), Some(x)).Some?
  {
    forall x ensures x in SearchBins(Binned(locations, binSize), binSize, q) <==>
                     x in locations && Overlaps(Some(q), Some(x)).Some? {
      SearchBinsHits(locations, binSize, q, x);
    }
  }

  /** `range(a, b + 1)` is `range(a, b)` and then b. */
  lemma RangeSnoc(a: int, b: int)
    requires a <= b
    ensures Range(a, b + 1) == Range(a, b) + [b]
  {
  }

  /** A location that overlaps the query but is filed only in a later bin
      than the query's first one is missed by `search` as written, and
      found when bin b is scanned on the visit to bin b. */
  lemma SearchMissesOverlap()
    ensures var l := GenomicLocation("chr1", 1500, 1600);
            var q := GenomicLocation("chr1", 900, 1600);
            var m := Binned([l], 1000);
            Overlaps(Some(q), Some(l)).Some? &&
            SearchAsWritten(m, 1000, q) == [] &&
            SearchBins(m, 1000, q) == [l]
  {
    var l := GenomicLocation("chr1", 1500, 1600);
    var q := GenomicLocation("chr1", 900, 1600);
    var m := Binned([l], 1000);
    assert [l][..0] == [];
    var none: Bins := map[];
    assert AddToBins(none, l, 1, 1) == none;
    assert Bin(none, 1) == [];
    assert AddToBins(none, l, 1, 2) == none[1 := Bin(none, 1) + [l]];
    assert Bin(none, 1) + [l] == [l];
    assert none[1 := [l]] == map[1 := [l]];
    assert BinOf(1500, 1000) == 1 && BinOf(1600, 1000) == 1;
    assert BinOf(900, 1000) == 0;
    var empty: BinMap := map[];
    var ls := [l];
    assert ls[..|ls| - 1] == [] && ls[|ls| - 1] == l;
    assert Binned([], 1000) == empty;
    assert m == AddLocation(empty, l, 1000);
    assert m == map["chr1" := map[1 := [l]]];
    var inner: Bins := map[1 := [l]];
    var nothing: seq<GenomicLocation> := [];
    assert Span(q, 1000) == 2;
    assert Repeat(0, 2) == [0, 0];
    assert Range(0, 2) == [0, 1];
    assert [0, 0][..1] == [0] && [0, 1][..1] == [0] && [0][..0] == [];
    assert Bin(inner, 0) == [] && Bin(inner, 1) == [l];
    assert Hits(nothing, q) == [];
    assert BinsHits(inner, q, [0]) == [];
    assert BinsHits(inner, q, [0, 0]) == [];
    assert Overlaps(Some(q), Some(l)).Some?;
    assert [l][..0] == nothing;
    assert Hits([l], q) == [l];
    assert BinsHits(inner, q, [0, 1]) == [l];
  }

  // ------------------------------------------------------------ the class

  /** `LocationBinMap`: the bin size and the map from chromosome to bins. */
  class LocationBinMap {
    var binSize: int
    var binMap: BinMap
    /** The locations the map was built from. */
    ghost var locations: seq<GenomicLocation>

    ghost predicate Valid()
      reads this
    {
      binSize > 0 && binMap == Binned(locations, binSize)
    }

    /** Files every location under each bin it spans, creating the maps
        it needs. */
    constructor (locations: seq<GenomicLocation>, binSize: int)
      requires binSize > 0
      ensures Valid() && this.locations == locations && this.binSize == binSize
    {
      var m: BinMap := map[];
      var i := 0;
      while i < |locations|
        invariant 0 <= i <= |locations|
        invariant m == Binned(locations[..i], binSize)
      {
        var l := locations[i];
        assert locations[..i + 1] == locations[..i] + [l];
        var s, e := l.start / binSize, l.end / binSize;
        ghost var m0 := m;
        if l.chr !in m {
          m := m[l.chr := map[]];
        }
        ghost var bins0 := m[l.chr];
        var b := s;
        while b < e + 1
          invariant s <= b && (b <= e + 1 || b == s)
          invariant l.chr in m && m == m0[l.chr := AddToBins(bins0, l, s, b)]
        {
          m := m[l.chr := m[l.chr][b := Bin(m[l.chr], b) + [l]]];
          b := b + 1;
        }
        i := i + 1;
      }
      assert locations[..i] == locations;
      this.binSize := binSize;
      this.binMap := m;
      this.locations := locations;
    }

    /** `search` as written: on every visit it scans bin s, the query's
        first bin. */
    method Search(location: GenomicLocation) returns (ret: seq<GenomicLocation>)
      requires Valid()
      ensures ret == SearchAsWritten(binMap, binSize, location)
    {
      ret := [];
      if location.chr in binMap {
        var bins := binMap[location.chr];
        var s, e := location.start / binSize, location.end / binSize;
        var b := s;
        while b < e + 1
          invariant s <= b && (b <= e + 1 || b == s)
          invariant ret == BinsHits(bins, location, Repeat(s, b - s))
        {
          assert Repeat(s, b + 1 - s)[..b - s] == Repeat(s, b - s);
          if s in bins {
            ret := PushHits(ret, bins[s], location);
          }
          b := b + 1;
        }
      }
    }

    /** `search` scanning bin b on the visit to bin b. */
    method SearchAllBins(location: GenomicLocation) returns (ret: seq<GenomicLocation>)
      requires Valid()
      ensures ret == SearchBins(binMap, binSize, location)
      ensures forall x :: x in ret <==> x in locations && Overlaps(Some(location), Some(x)).Some?
    {
      ret := [];
      if location.chr in binMap {
        var bins := binMap[location.chr];
        var s, e := location.start / binSize, location.end / binSize;
        var b := s;
        while b < e + 1
          invariant s <= b && (b <= e + 1 || b == s)
          invariant ret == BinsHits(bins, location, Range(s, b))
        {
          RangeSnoc(s, b);
          if b in bins {
            ret := PushHits(ret, bins[b], location);
          }
          b := b + 1;
        }
        assert b == e + 1 || Range(s, b) == Range(s, e + 1);
      }
      SearchBinsSpec(locations, binSize, location);
    }

    /** The `forEach` over one bin: pushes the locations that overlap the
        query. */
    static method PushHits(ret: seq<GenomicLocation>, ls: seq<GenomicLocation>, q: GenomicLocation)
      returns (r: seq<GenomicLocation>)
      ensures r == ret + Hits(ls, q)
    {
      r := ret;
      var j := 0;
      while j < |ls|
        invariant 0 <= j <= |ls|
        invariant r == ret + Hits(ls[..j], q)
      {
        assert ls[..j + 1][..j] == ls[..j];
        if Overlaps(Some(q), Some(ls[j])).Some? {
          r := r + [ls[j]];
        }
        j := j + 1;
      }
      assert ls[..j] == ls;
    }
  }
}
