/** The grouping of overlapping peaks in src/modules/genomic/overlap.ts
    (`_mcr` and `overlappingPeaks`): starting from each peak not yet
    allocated, grow a group of peaks whose running intersection stays
    non-empty, and file every member under the text of that intersection. */
module OverlapGroups {
  import opened Wrappers
  import opened Strs
  import opened Seqs
  import opened Genomic
  import opened Overlap

  /** l lies inside m: the same chromosome, not inverted, and covered by m. */
  predicate Inside(l: GenomicLocation, m: GenomicLocation) {
    l.chr == m.chr && m.start <= l.start <= l.end <= m.end
  }

  /** The location of a uid, None (`undefined`) when it has none. */
  function LocOf(locs: map<string, GenomicLocation>, u: string): Option<GenomicLocation> {
    if u in locs then Some(locs[u]) else None
  }

  // ------------------------------------------------------------ one round

  /** One grouping round, lines 112-134: the unused candidates, in order,
      whose location meets the running intersection, and the intersection
      they leave behind. */
  function Group(loc1: GenomicLocation, tests: seq<string>, used: set<string>,
                 locs: map<string, GenomicLocation>): (seq<string>, GenomicLocation)
  {
    if tests == [] then ([], loc1)
    else
      var (g, l) := Group(loc1, tests[..|tests| - 1], used, locs);
      var u := tests[|tests| - 1];
      if u in used then (g, l)
      else
        var ov := Overlaps(Some(l), LocOf(locs, u));
        if ov.Some? then (g + [u], ov.value) else (g, l)
  }

  /** The group key lies inside the first peak and inside every member it
      was grown with; every member is an unused candidate with a location;
      without members the key is the first peak itself. */
  lemma {:induction false} GroupSpec(loc1: GenomicLocation, tests: seq<string>, used: set<string>,
                                     locs: map<string, GenomicLocation>)
    requires Formatted(loc1)
    ensures var (g, l) := Group(loc1, tests, used, locs);
      Formatted(l) &&
      (g == [] ==> l == loc1) &&
      (g != [] ==> Inside(l, loc1)) &&
      (forall u | u in g :: u in tests && u !in used && u in locs && Inside(l, locs[u]))
  {
    if tests != [] {
      var init := tests[..|tests| - 1];
      GroupSpec(loc1, init, used, locs);
      var (g, l) := Group(loc1, init, used, locs);
      var u := tests[|tests| - 1];
      if u !in used && u in locs {
        OverlapsWithin(l, locs[u]);
      }
      assert forall v | v in init :: v in tests;
    }
  }

  /** A round never lists a candidate twice. */
  lemma {:induction false} GroupNoDups(loc1: GenomicLocation, tests: seq<string>, used: set<string>,
                                       locs: map<string, GenomicLocation>)
    requires NoDups(tests)
    ensures NoDups(Group(loc1, tests, used, locs).0)
  {
    if tests != [] {
      var init := tests[..|tests| - 1];
      assert NoDups(init) by {
        forall i, j | 0 <= i < j < |init| ensures init[i] != init[j] {
          assert init[i] == tests[i] && init[j] == tests[j];
        }
      }
      GroupNoDups(loc1, init, used, locs);
      GroupMembers(loc1, init, used, locs);
      var u := tests[|tests| - 1];
      assert u !in init by {
        forall i | 0 <= i < |init| ensures init[i] != u {
          assert init[i] == tests[i];
        }
      }
    }
  }

  lemma {:induction false} GroupMembers(loc1: GenomicLocation, tests: seq<string>, used: set<string>,
                                        locs: map<string, GenomicLocation>)
    ensures forall u | u in Group(loc1, tests, used, locs).0 :: u in tests
  {
    if tests != [] {
      GroupMembers(loc1, tests[..|tests| - 1], used, locs);
    }
  }

  /** Lines 112-134: the group starts with uid1 and takes each unused
      candidate whose location meets the running intersection. */
  method FormGroup(uid1: string, loc1: GenomicLocation, tests: seq<string>, used: set<string>,
                   locs: map<string, GenomicLocation>)
    returns (groupedLocations: seq<string>, loc: GenomicLocation)
    ensures groupedLocations == [uid1] + Group(loc1, tests, used, locs).0
    ensures loc == Group(loc1, tests, used, locs).1
  {
    groupedLocations, loc := [uid1], loc1;
    for k := 0 to |tests|
      invariant groupedLocations == [uid1] + Group(loc1, tests[..k], used, locs).0
      invariant loc == Group(loc1, tests[..k], used, locs).1
    {
      assert tests[..k + 1][..k] == tests[..k];
      var uid2 := tests[k];
      if uid2 !in used {
        var loc2 := LocOf(locs, uid2);
        var overlap := Overlaps(Some(loc), loc2);
        if overlap.Some? {
          loc := overlap.value;
          groupedLocations := groupedLocations + [uid2];
        }
      }
    }
    assert tests[..|tests|] == tests;
  }

  // ------------------------------------------------------------ filing

  /** `locationCoreMap`: for each key, the uid filed for each sample id.
      The key None stands for the `undefined` key that a lone peak is
      filed under before any group has been formed. */
  type CoreMap = map<Option<string>, map<string, string>>

  /** `DefaultMap.get`: the row of key k, a fresh empty one when absent. */
  function Row(core: CoreMap, k: Option<string>): map<string, string> {
    if k in core then core[k] else map[]
  }

  /** `locationCoreMap.get(k)?.set(sid, uid)`. */
  function File(core: CoreMap, k: Option<string>, sid: string, uid: string): CoreMap {
    core[k := Row(core, k)[sid := uid]]
  }

  /** The sample id of a uid: the text before its first '='. */
  function SampleOf(uid: string): string {
    ParseUid(uid)[0]
  }

  /** The members whose sample id is not empty (`if (sid)`). */
  function Named(gs: seq<string>): set<string> {
    if gs == [] then {}
    else Named(gs[..|gs| - 1]) + (if SampleOf(gs[|gs| - 1]) != "" then {gs[|gs| - 1]} else {})
  }

  /** `Named` holds exactly the members with a sample id. */
  lemma {:induction false} NamedHas(gs: seq<string>, u: string)
    ensures u in Named(gs) <==> u in gs && SampleOf(u) != ""
  {
    if gs != [] {
      NamedHas(gs[..|gs| - 1], u);
      assert gs == gs[..|gs| - 1] + [gs[|gs| - 1]];
    }
  }

  /** Lines 145-156: every member with a sample id filed under the key. */
  function FileAll(core: CoreMap, k: Option<string>, gs: seq<string>): CoreMap {
    if gs == [] then core
    else
      var c := FileAll(core, k, gs[..|gs| - 1]);
      var u := gs[|gs| - 1];
      if SampleOf(u) != "" then File(c, k, SampleOf(u), u) else c
  }

  /** Every stored uid has a location and is stored under its own sample
      id. */
  predicate Sound(core: CoreMap, locs: map<string, GenomicLocation>) {
    forall k, s | k in core && s in core[k] :: core[k][s] in locs && SampleOf(core[k][s]) == s
  }

  /** Filing members that have locations keeps the map sound. */
  lemma {:induction false} FileAllSound(core: CoreMap, k: Option<string>, gs: seq<string>,
                                        locs: map<string, GenomicLocation>)
    requires Sound(core, locs)
    requires forall u | u in gs :: u in locs
    ensures Sound(FileAll(core, k, gs), locs)
  {
    if gs != [] {
      var init := gs[..|gs| - 1];
      assert forall u | u in init :: u in gs;
      FileAllSound(core, k, init, locs);
      var u := gs[|gs| - 1];
      if SampleOf(u) != "" {
        FileSound(FileAll(core, k, init), k, u, locs);
      }
    }
  }

  lemma FileSound(core: CoreMap, k: Option<string>, u: string, locs: map<string, GenomicLocation>)
    requires Sound(core, locs) && u in locs
    ensures Sound(File(core, k, SampleOf(u), u), locs)
  {
  }

  /** Filing leaves the rows of the other keys alone. */
  lemma {:induction false} FileAllOthers(core: CoreMap, k: Option<string>, gs: seq<string>, k2: Option<string>)
    requires k2 != k
    ensures Row(FileAll(core, k, gs), k2) == Row(core, k2)
  {
    if gs != [] {
      FileAllOthers(core, k, gs[..|gs| - 1], k2);
    }
  }

  /** After filing, every named member's sample has an entry under the
      key, and the entry of the last member of each sample is that
      member. */
  lemma {:induction false} FileAllEntries(core: CoreMap, k: Option<string>, gs: seq<string>, u: string)
    requires u in gs && SampleOf(u) != ""
    ensures SampleOf(u) in Row(FileAll(core, k, gs), k)
  {
    var init := gs[..|gs| - 1];
    var last := gs[|gs| - 1];
    if last != u {
      assert gs == init + [last];
      FileAllEntries(core, k, init, u);
    }
  }

  lemma NamedWithin(gs: seq<string>)
    ensures forall u | u in Named(gs) :: u in gs
  {
    forall u | u in Named(gs) ensures u in gs {
      NamedHas(gs, u);
    }
  }

  /** Appending one member. */
  lemma FileSnoc(core: CoreMap, k: Option<string>, gs: seq<string>, u: string)
    ensures FileAll(core, k, gs + [u]) ==
            if SampleOf(u) != "" then File(FileAll(core, k, gs), k, SampleOf(u), u) else FileAll(core, k, gs)
  {
    assert (gs + [u])[..|gs|] == gs;
  }

  lemma NamedSnoc(gs: seq<string>, u: string)
    ensures Named(gs + [u]) == Named(gs) + (if SampleOf(u) != "" then {u} else {})
  {
    assert (gs + [u])[..|gs|] == gs;
  }

  /** Lines 145-156 as a loop. */
  method FileGroup(core: CoreMap, used: set<string>, allocatedUids: set<string>, k: Option<string>,
                   groupedLocations: seq<string>)
    returns (core': CoreMap, used': set<string>, allocated': set<string>)
    ensures core' == FileAll(core, k, groupedLocations)
    ensures used' == used + Named(groupedLocations)
    ensures allocated' == allocatedUids + Named(groupedLocations)
  {
    core', used', allocated' := core, used, allocatedUids;
    assert groupedLocations[..0] == [];
    for i := 0 to |groupedLocations|
      invariant core' == FileAll(core, k, groupedLocations[..i])
      invariant used' == used + Named(groupedLocations[..i])
      invariant allocated' == allocatedUids + Named(groupedLocations[..i])
    {
      var uid := groupedLocations[i];
      assert groupedLocations[..i + 1] == groupedLocations[..i] + [uid];
      FileSnoc(core, k, groupedLocations[..i], uid);
      NamedSnoc(groupedLocations[..i], uid);
      var sid := SampleOf(uid);
      if sid != "" {
        core' := File(core', k, sid, uid);
        used' := used' + {uid};
        allocated' := allocated' + {uid};
      }
    }
    assert groupedLocations[..|groupedLocations|] == groupedLocations;
  }

  // ------------------------------------------------------------ _mcr

  /** The candidates not used yet: what each round with more than one
      member shrinks. */
  function Unused(tests: seq<string>, used: set<string>): set<string> {
    set u | u in tests && u !in used
  }

  /** Every candidate of a peak has a sample id when every uid in the bins
      has one. */
  lemma CandidatesNamed(uid1: string, loc1: GenomicLocation, bins: BinIndex)
    requires forall b, u | b in bins && u in bins[b] :: SampleOf(u) != ""
    ensures forall u | u in TestUids(uid1, loc1, bins) :: SampleOf(u) != ""
  {
    forall u | u in TestUids(uid1, loc1, bins) ensures SampleOf(u) != "" {
      var b := BinsUnionWitness(bins, uid1, BinOf(loc1.start), BinOf(loc1.end) + 1, u);
    }
  }

  /** `_mcr`. Each peak not yet allocated and with a location forms groups
      with its candidates until a round finds no partner; a group of two or
      more is filed under the text of its intersection, and a lone peak not
      allocated yet is filed under the key of the last group formed (the
      `undefined` key before the first), as written. Afterwards every peak
      with a location is allocated, and every stored uid has a location and
      sits under its own sample id. */
  method Mcr(uids: seq<string>, uidToLocMap: map<string, GenomicLocation>, binToUidsMap: BinIndex)
    returns (locationCoreMap: CoreMap, allocatedUids: set<string>)
    requires forall u | u in uidToLocMap :: Formatted(uidToLocMap[u])
    requires forall b, u | b in binToUidsMap && u in binToUidsMap[b] :: SampleOf(u) != ""
    ensures forall u | u in uids && u in uidToLocMap :: u in allocatedUids
    ensures allocatedUids <= uidToLocMap.Keys
    ensures Sound(locationCoreMap, uidToLocMap)
  {
    locationCoreMap, allocatedUids := map[], {};
    var overlapLocation: Option<string> := None;
    for i := 0 to |uids|
      invariant forall k | 0 <= k < i && uids[k] in uidToLocMap :: uids[k] in allocatedUids
      invariant allocatedUids <= uidToLocMap.Keys
      invariant Sound(locationCoreMap, uidToLocMap)
    {
      var uid1 := uids[i];
      if uid1 in allocatedUids {
        continue;
      }
      var sid1 := SampleOf(uid1);
      if uid1 !in uidToLocMap {
        continue;
      }
      var loc1 := uidToLocMap[uid1];
      var testUids := GetTestUids(uid1, loc1, binToUidsMap);
      CandidatesNamed(uid1, loc1, binToUidsMap);
      ghost var before := allocatedUids;
      var used: set<string> := {};
      var exhausted := false;
      while !exhausted
        invariant before <= allocatedUids <= uidToLocMap.Keys
        invariant Sound(locationCoreMap, uidToLocMap)
        invariant exhausted ==> uid1 in allocatedUids
        decreases if exhausted then 0 else 1, Unused(testUids, used)
      {
        var groupedLocations, loc := FormGroup(uid1, loc1, testUids, used, uidToLocMap);
        GroupSpec(loc1, testUids, used, uidToLocMap);
        if |groupedLocations| > 1 {
          overlapLocation := Some(LocStr(loc));
          ghost var unused := Unused(testUids, used);
          assert groupedLocations[1] in Group(loc1, testUids, used, uidToLocMap).0;
          FileAllSound(locationCoreMap, overlapLocation, groupedLocations, uidToLocMap);
          locationCoreMap, used, allocatedUids :=
            FileGroup(locationCoreMap, used, allocatedUids, overlapLocation, groupedLocations);
          NamedHas(groupedLocations, groupedLocations[1]);
          NamedWithin(groupedLocations);
          assert groupedLocations[1] in unused - Unused(testUids, used);
        } else {
          if uid1 !in allocatedUids {
            locationCoreMap := File(locationCoreMap, overlapLocation, sid1, uid1);
            allocatedUids := allocatedUids + {uid1};
          }
          exhausted := true;
        }
      }
    }
  }

  // ------------------------------------------------------------ overlappingPeaks

  /** Every peak of the input is a peak of some file. */
  lemma {:induction false} AllPeaksFrom(fids: seq<PeakFile>, k: int) returns (i: int, j: int)
    requires 0 <= k < |AllPeaks(fids)|
    ensures 0 <= i < |fids| && 0 <= j < |FilePeaks(fids[i])|
    ensures AllPeaks(fids)[k] == FilePeaks(fids[i])[j]
  {
    var init := fids[..|fids| - 1];
    var a, b := AllPeaks(init), FilePeaks(fids[|fids| - 1]);
    assert AllPeaks(fids) == a + b;
    if k < |a| {
      i, j := AllPeaksFrom(init, k);
      assert init[i] == fids[i];
    } else {
      i, j := |fids| - 1, k - |a|;
    }
  }

  /** Every peak of the input comes from some file: its uid names that
      file's sample and location. */
  lemma AllPeaksWitness(fids: seq<PeakFile>, k: int) returns (i: int, j: int)
    requires 0 <= k < |AllPeaks(fids)|
    ensures 0 <= i < |fids| && 0 <= j < |fids[i].locations|
    ensures AllPeaks(fids)[k] == Peak(MakeUid(fids[i].fid, Some(fids[i].locations[j])), fids[i].locations[j])
  {
    i, j := AllPeaksFrom(fids, k);
  }

  /** With sample ids that are not empty and do not start with '=', every
      uid in the bins has a sample id, and every stored location comes from
      the input. */
  lemma IndexFacts(fids: seq<PeakFile>)
    requires forall f | f in fids :: f.fid != "" && f.fid[0] != '='
    requires forall f, l | f in fids && l in f.locations :: Formatted(l)
    ensures forall b, u | b in BinIndexOf(AllPeaks(fids)) && u in BinIndexOf(AllPeaks(fids))[b] :: SampleOf(u) != ""
    ensures forall u | u in LocMap(AllPeaks(fids)) :: Formatted(LocMap(AllPeaks(fids))[u])
  {
    var ps := AllPeaks(fids);
    forall b, u | b in BinIndexOf(ps) && u in BinIndexOf(ps)[b] ensures SampleOf(u) != "" {
      BinIndexMembers(ps, b);
      var k := SpannersWitness(ps, b, u);
      var i, j := AllPeaksWitness(fids, k);
      ParseUidNamed(fids[i].fid, Some(fids[i].locations[j]));
    }
    LocMapSpec(ps);
    forall u | u in LocMap(ps) ensures Formatted(LocMap(ps)[u]) {
      var k :| 0 <= k < |ps| && ps[k] == Peak(u, LocMap(ps)[u]);
      var i, j := AllPeaksWitness(fids, k);
      assert fids[i].locations[j] in fids[i].locations;
    }
  }

  /** `overlappingPeaks`: index the peaks, then group them. The sample ids
      must not be empty or start with '=': otherwise a group member with an
      empty sample id is never marked used and the source repeats the same
      round forever. */
  method OverlappingPeaks(fids: seq<PeakFile>)
    returns (locationCoreMap: CoreMap, uidToLocMap: map<string, GenomicLocation>)
    requires forall f | f in fids :: f.fid != "" && f.fid[0] != '='
    requires forall f, l | f in fids && l in f.locations :: Formatted(l)
    ensures uidToLocMap == LocMap(AllPeaks(fids))
    ensures Sound(locationCoreMap, uidToLocMap)
  {
    var uids, binToUidsMap;
    uids, uidToLocMap, binToUidsMap := IndexPeaks(fids);
    IndexFacts(fids);
    var allocatedUids;
    locationCoreMap, allocatedUids := Mcr(uids, uidToLocMap, binToUidsMap);
  }
}
