/** The peak index of src/modules/genomic/overlap.ts: peak ids ("uids")
    made of a sample id and a location, the 1000-base bins each peak
    spans, and the candidate peaks found through those bins. JavaScript
    `Set`s are kept as their members in insertion order, which is the order
    the source iterates them in. */
module Overlap {
  import opened Wrappers
  import opened Strs
  import opened Seqs
  import opened Genomic

  /** `BIN_SIZE`. */
  const BIN_SIZE: int := 1000

  // ------------------------------------------------------------ uids

  /** `makeUid`: "sid=chr:start-end", or "sid=none" without a location. */
  function MakeUid(sid: string, loc: Option<GenomicLocation>): string {
    sid + "=" + (if loc.Some? then LocStr(loc.value) else "none")
  }

  /** `parseUid`: the pieces between the '=' signs. */
  function ParseUid(uid: string): (r: seq<string>)
    ensures |r| >= 1
  {
    Split(uid, '=')
  }

  /** The sample id comes back out of a uid when it holds no '=', and so
      does the location text when that holds none either. */
  lemma ParseUidMakeUid(sid: string, loc: Option<GenomicLocation>)
    requires '=' !in sid
    ensures ParseUid(MakeUid(sid, loc))[0] == sid
    ensures loc.Some? && '=' !in LocStr(loc.value) ==>
              ParseUid(MakeUid(sid, loc)) == [sid, LocStr(loc.value)]
  {
    var rest := if loc.Some? then LocStr(loc.value) else "none";
    SplitJoinStep(sid, '=', rest, Split(rest, '='));
    assert MakeUid(sid, loc) == sid + ['='] + rest;
  }

  /** A sample id that does not start with '=' gives a uid whose first
      piece is not empty. */
  lemma ParseUidNamed(sid: string, loc: Option<GenomicLocation>)
    requires sid != [] && sid[0] != '='
    ensures ParseUid(MakeUid(sid, loc))[0] != ""
  {
    var s := MakeUid(sid, loc);
    assert s[0] == sid[0];
    var i := IndexOf(s, '=');
    if i >= 0 {
      assert Split(s, '=')[0] == s[..i];
    }
  }

  // ------------------------------------------------------------ sets

  /** `set.add(x)` on a set kept in insertion order. */
  function AddTo(s: seq<string>, x: string): (r: seq<string>)
    ensures forall y :: y in r <==> y in s || y == x
    ensures NoDups(s) ==> NoDups(r)
  {
    if x in s then s else s + [x]
  }

  // ------------------------------------------------------------ bins

  /** `Math.floor(x / BIN_SIZE)`. */
  function BinOf(x: int): int {
    x / BIN_SIZE
  }

  /** l spans bin b: floor(start/1000) <= b <= floor(end/1000). */
  predicate InBins(l: GenomicLocation, b: int) {
    BinOf(l.start) <= b <= BinOf(l.end)
  }

  /** `binToUidsMap`: the uids filed under each bin. */
  type BinIndex = map<int, seq<string>>

  /** The uids of bin b, none when the bin is absent. */
  function Members(m: BinIndex, b: int): seq<string> {
    if b in m then m[b] else []
  }

  /** Creating bin b when it is absent, then adding u to it. */
  function AddUid(m: BinIndex, b: int, u: string): BinIndex {
    m[b := AddTo(Members(m, b), u)]
  }

  /** u added to every bin lo..hi-1. */
  function AddToBins(m: BinIndex, u: string, lo: int, hi: int): BinIndex
    decreases hi - lo
  {
    if hi <= lo then m else AddUid(AddToBins(m, u, lo, hi - 1), hi - 1, u)
  }

  /** Exactly the bins lo..hi-1 gain u. */
  lemma {:induction false} AddToBinsMembers(m: BinIndex, u: string, lo: int, hi: int, b: int)
    ensures Members(AddToBins(m, u, lo, hi), b) ==
            if lo <= b < hi then AddTo(Members(m, b), u) else Members(m, b)
    decreases hi - lo
  {
    if hi > lo {
      AddToBinsMembers(m, u, lo, hi - 1, b);
      if b == hi - 1 {
        assert Members(AddToBins(m, u, lo, hi - 1), b) == Members(m, b);
      }
    }
  }

  // ------------------------------------------------------------ peaks

  /** One input file: a sample id and its peaks. */
  datatype PeakFile = PeakFile(fid: string, locations: seq<GenomicLocation>)

  /** A peak with its uid. */
  datatype Peak = Peak(uid: string, loc: GenomicLocation)

  /** The peaks of one file, in order. */
  function FilePeaks(f: PeakFile): (r: seq<Peak>)
    ensures |r| == |f.locations|
  {
    seq(|f.locations|, k requires 0 <= k < |f.locations| =>
          Peak(MakeUid(f.fid, Some(f.locations[k])), f.locations[k]))
  }

  /** The peaks of all files, file after file. */
  function AllPeaks(fids: seq<PeakFile>): seq<Peak> {
    if fids == [] then [] else AllPeaks(fids[..|fids| - 1]) + FilePeaks(fids[|fids| - 1])
  }

  /** `uids`: the uids in input order. */
  function UidList(ps: seq<Peak>): (r: seq<string>)
    ensures |r| == |ps|
  {
    if ps == [] then [] else UidList(ps[..|ps| - 1]) + [ps[|ps| - 1].uid]
  }

  /** `uidToLocMap`: each uid mapped to its location, the last one
      winning. */
  function LocMap(ps: seq<Peak>): map<string, GenomicLocation> {
    if ps == [] then map[] else LocMap(ps[..|ps| - 1])[ps[|ps| - 1].uid := ps[|ps| - 1].loc]
  }

  /** `binToUidsMap`: each peak's uid added to every bin its location
      spans. */
  function BinIndexOf(ps: seq<Peak>): BinIndex {
    if ps == [] then map[]
    else
      var p := ps[|ps| - 1];
      AddToBins(BinIndexOf(ps[..|ps| - 1]), p.uid, BinOf(p.loc.start), BinOf(p.loc.end) + 1)
  }

  /** Reference definition of one bin: the uids of the peaks spanning b,
      each once, in the order they first appear. */
  function Spanners(ps: seq<Peak>, b: int): seq<string> {
    if ps == [] then []
    else
      var s := Spanners(ps[..|ps| - 1], b);
      if InBins(ps[|ps| - 1].loc, b) then AddTo(s, ps[|ps| - 1].uid) else s
  }

  /** `uids` lists every peak's uid, in input order. */
  lemma {:induction false} UidListSpec(ps: seq<Peak>)
    ensures forall k :: 0 <= k < |ps| ==> UidList(ps)[k] == ps[k].uid
  {
    if ps != [] {
      UidListSpec(ps[..|ps| - 1]);
    }
  }

  /** Every peak's uid has a location, and every location stored is the
      location of a peak with that uid. */
  lemma {:induction false} LocMapSpec(ps: seq<Peak>)
    ensures forall k :: 0 <= k < |ps| ==> ps[k].uid in LocMap(ps)
    ensures forall u | u in LocMap(ps) :: Peak(u, LocMap(ps)[u]) in ps
  {
    if ps != [] {
      var p := ps[..|ps| - 1];
      assert ps == p + [ps[|ps| - 1]];
      LocMapSpec(p);
    }
  }

  /** Each bin of the index holds exactly the reference list of the peaks
      spanning it. */
  lemma {:induction false} BinIndexMembers(ps: seq<Peak>, b: int)
    ensures Members(BinIndexOf(ps), b) == Spanners(ps, b)
  {
    if ps != [] {
      var p := ps[|ps| - 1];
      BinIndexMembers(ps[..|ps| - 1], b);
      AddToBinsMembers(BinIndexOf(ps[..|ps| - 1]), p.uid, BinOf(p.loc.start), BinOf(p.loc.end) + 1, b);
    }
  }

  /** A bin lists each uid once. */
  lemma {:induction false} SpannersNoDups(ps: seq<Peak>, b: int)
    ensures NoDups(Spanners(ps, b))
  {
    if ps != [] {
      SpannersNoDups(ps[..|ps| - 1], b);
    }
  }

  /** A uid in a bin belongs to a peak spanning the bin. */
  lemma {:induction false} SpannersWitness(ps: seq<Peak>, b: int, u: string) returns (k: int)
    requires u in Spanners(ps, b)
    ensures 0 <= k < |ps| && ps[k].uid == u && InBins(ps[k].loc, b)
  {
    var p := ps[..|ps| - 1];
    if u in Spanners(p, b) {
      k := SpannersWitness(p, b, u);
      assert ps[k] == p[k];
    } else {
      k := |ps| - 1;
    }
  }

  /** Every peak spanning a bin has its uid in the bin. */
  lemma {:induction false} SpannersHave(ps: seq<Peak>, b: int, k: int)
    requires 0 <= k < |ps| && InBins(ps[k].loc, b)
    ensures ps[k].uid in Spanners(ps, b)
  {
    if k < |ps| - 1 {
      var p := ps[..|ps| - 1];
      assert ps[k] == p[k];
      SpannersHave(p, b, k);
    }
  }

  /** Appending one peak to the list. */
  lemma PeakStep(ps: seq<Peak>, p: Peak)
    ensures UidList(ps + [p]) == UidList(ps) + [p.uid]
    ensures LocMap(ps + [p]) == LocMap(ps)[p.uid := p.loc]
    ensures BinIndexOf(ps + [p]) ==
            AddToBins(BinIndexOf(ps), p.uid, BinOf(p.loc.start), BinOf(p.loc.end) + 1)
  {
    assert (ps + [p])[..|ps|] == ps;
  }

  lemma TakeSnoc(done: seq<Peak>, fp: seq<Peak>, j: int, p: Peak)
    requires 0 <= j < |fp| && fp[j] == p
    ensures done + fp[..j + 1] == (done + fp[..j]) + [p]
  {
    assert fp[..j + 1] == fp[..j] + [p];
  }

  /** Appending one file. */
  lemma AllPeaksStep(fids: seq<PeakFile>, i: int)
    requires 0 <= i < |fids|
    ensures AllPeaks(fids[..i + 1]) == AllPeaks(fids[..i]) + FilePeaks(fids[i])
  {
    assert fids[..i + 1][..i] == fids[..i];
  }

  /** `overlappingPeaks`, lines 178-207: for every file and every peak,
      record its uid, its location and its bins. */
  method IndexPeaks(fids: seq<PeakFile>)
    returns (uids: seq<string>, uidToLoc: map<string, GenomicLocation>, binToUids: BinIndex)
    ensures uids == UidList(AllPeaks(fids))
    ensures uidToLoc == LocMap(AllPeaks(fids))
    ensures binToUids == BinIndexOf(AllPeaks(fids))
  {
    uids, uidToLoc, binToUids := [], map[], map[];
    for i := 0 to |fids|
      invariant uids == UidList(AllPeaks(fids[..i]))
      invariant uidToLoc == LocMap(AllPeaks(fids[..i]))
      invariant binToUids == BinIndexOf(AllPeaks(fids[..i]))
    {
      var f := fids[i];
      AllPeaksStep(fids, i);
      ghost var done := AllPeaks(fids[..i]);
      ghost var fp := FilePeaks(f);
      assert done + fp[..0] == done;
      for j := 0 to |f.locations|
        invariant uids == UidList(done + fp[..j])
        invariant uidToLoc == LocMap(done + fp[..j])
        invariant binToUids == BinIndexOf(done + fp[..j])
      {
        var location := f.locations[j];
        var uid := MakeUid(f.fid, Some(location));
        TakeSnoc(done, fp, j, Peak(uid, location));
        PeakStep(done + fp[..j], Peak(uid, location));
        uids := uids + [uid];
        uidToLoc := uidToLoc[uid := location];
        binToUids := AddToAllBins(binToUids, uid, BinOf(location.start), BinOf(location.end));
      }
      assert fp[..|f.locations|] == fp;
    }
    assert fids[..|fids|] == fids;
  }

  /** `range(binStart, binEnd + 1).forEach(...)`: uid added to each bin. */
  method AddToAllBins(m: BinIndex, uid: string, binStart: int, binEnd: int) returns (r: BinIndex)
    ensures r == AddToBins(m, uid, binStart, binEnd + 1)
  {
    r := m;
    var bin := binStart;
    while bin < binEnd + 1
      invariant binStart <= bin
      invariant bin == binStart || bin <= binEnd + 1
      invariant r == AddToBins(m, uid, binStart, bin)
      decreases binEnd + 1 - bin
    {
      r := AddUid(r, bin, uid);
      bin := bin + 1;
    }
  }

  // ------------------------------------------------------------ candidates

  /** Adding, in order, every uid of us except uid1. */
  function AddAllExcept(acc: seq<string>, us: seq<string>, uid1: string): seq<string> {
    if us == [] then acc
    else
      var a := AddAllExcept(acc, us[..|us| - 1], uid1);
      if us[|us| - 1] != uid1 then AddTo(a, us[|us| - 1]) else a
  }

  /** The uids of bins lo..hi-1 other than uid1, in visiting order. */
  function BinsUnion(m: BinIndex, uid1: string, lo: int, hi: int): seq<string>
    decreases hi - lo
  {
    if hi <= lo then [] else AddAllExcept(BinsUnion(m, uid1, lo, hi - 1), Members(m, hi - 1), uid1)
  }

  /** `getTestUids`: the uids other than uid1 in the bins loc1 spans. */
  function TestUids(uid1: string, loc1: GenomicLocation, m: BinIndex): seq<string> {
    BinsUnion(m, uid1, BinOf(loc1.start), BinOf(loc1.end) + 1)
  }

  lemma {:induction false} AddAllExceptHas(acc: seq<string>, us: seq<string>, uid1: string, x: string)
    ensures x in AddAllExcept(acc, us, uid1) <==> x in acc || (x in us && x != uid1)
  {
    if us != [] {
      AddAllExceptHas(acc, us[..|us| - 1], uid1, x);
      assert us == us[..|us| - 1] + [us[|us| - 1]];
    }
  }

  lemma {:induction false} AddAllExceptNoDups(acc: seq<string>, us: seq<string>, uid1: string)
    requires NoDups(acc)
    ensures NoDups(AddAllExcept(acc, us, uid1))
  {
    if us != [] {
      AddAllExceptNoDups(acc, us[..|us| - 1], uid1);
    }
  }

  /** Every candidate is in one of the bins and is not uid1. */
  lemma {:induction false} BinsUnionWitness(m: BinIndex, uid1: string, lo: int, hi: int, u: string)
    returns (b: int)
    requires u in BinsUnion(m, uid1, lo, hi)
    ensures lo <= b < hi && u in Members(m, b) && u != uid1
    decreases hi - lo
  {
    AddAllExceptHas(BinsUnion(m, uid1, lo, hi - 1), Members(m, hi - 1), uid1, u);
    if u in BinsUnion(m, uid1, lo, hi - 1) {
      b := BinsUnionWitness(m, uid1, lo, hi - 1, u);
    } else {
      b := hi - 1;
    }
  }

  /** Every uid other than uid1 in one of the bins is a candidate. */
  lemma {:induction false} BinsUnionHave(m: BinIndex, uid1: string, lo: int, hi: int, b: int, u: string)
    requires lo <= b < hi && u in Members(m, b) && u != uid1
    ensures u in BinsUnion(m, uid1, lo, hi)
    decreases hi - lo
  {
    var prev := BinsUnion(m, uid1, lo, hi - 1);
    AddAllExceptHas(prev, Members(m, hi - 1), uid1, u);
    if b < hi - 1 {
      BinsUnionHave(m, uid1, lo, hi - 1, b, u);
    }
  }

  /** The candidates hold no uid twice. */
  lemma {:induction false} BinsUnionNoDups(m: BinIndex, uid1: string, lo: int, hi: int)
    ensures NoDups(BinsUnion(m, uid1, lo, hi))
    decreases hi - lo
  {
    if hi > lo {
      BinsUnionNoDups(m, uid1, lo, hi - 1);
      AddAllExceptNoDups(BinsUnion(m, uid1, lo, hi - 1), Members(m, hi - 1), uid1);
    }
  }

  /** `getTestUids`, as the loop over the bins and, inside it, over each
      bin's uids. */
  method GetTestUids(uid1: string, loc1: GenomicLocation, m: BinIndex) returns (testLocations: seq<string>)
    ensures testLocations == TestUids(uid1, loc1, m)
  {
    testLocations := [];
    var binStart, binEnd := BinOf(loc1.start), BinOf(loc1.end);
    var bin := binStart;
    while bin < binEnd + 1
      invariant binStart <= bin
      invariant bin == binStart || bin <= binEnd + 1
      invariant testLocations == BinsUnion(m, uid1, binStart, bin)
      decreases binEnd + 1 - bin
    {
      var us := Members(m, bin);
      ghost var acc := testLocations;
      for k := 0 to |us|
        invariant testLocations == AddAllExcept(acc, us[..k], uid1)
      {
        assert us[..k + 1][..k] == us[..k];
        if us[k] != uid1 {
          testLocations := AddTo(testLocations, us[k]);
        }
      }
      assert us[..|us|] == us;
      bin := bin + 1;
    }
  }
}
