/** The overlap table of src/modules/genomic/overlap.ts
    (`createOverlapTable`): one row per group key, in sorted key order,
    with the key, its width, the number of samples filed under it, and for
    every sample its uid, its peak and the overlap percentage, then the
    region the peaks span. */
module OverlapTable {
  import opened Wrappers
  import opened Strs
  import opened Seqs
  import opened ChrNames
  import opened Cell
  import opened Genomic
  import opened Overlap
  import opened OverlapGroups
  import opened StrOrder

  /** `NA`. */
  const NA: string := "NA"

  /** The column names and the rows of the table that is returned. */
  datatype Table = Table(columns: seq<string>, data: seq<seq<Cell>>)

  /** The overlap-percentage cell for the group key and a member's peak:
      `Math.min(100, Math.max(0, overlapFraction(key, peak) * 100)).toFixed(2)`
      made a cell. It is floating point, so it is a parameter here. */
  type PercentCell = (GenomicLocation, GenomicLocation) -> Cell

  /** Each sample id prefixed with a column title. */
  function Titled(title: string, fids: seq<string>): (r: seq<string>)
    ensures |r| == |fids|
    ensures forall i :: 0 <= i < |fids| ==> r[i] == title + fids[i]
  {
    seq(|fids|, i requires 0 <= i < |fids| => title + fids[i])
  }

  /** `header`, lines 221-232. */
  function Header(fids: seq<string>): (r: seq<string>)
    ensures |r| == 4 + 3 * |fids|
    ensures r[..3] == ["Genomic Location", "Width", "# Overlapping Peaks"]
    ensures r[|r| - 1] == "Region"
    ensures forall i :: 0 <= i < |fids| ==>
              r[3 + i] == "Sample " + fids[i] &&
              r[3 + |fids| + i] == "Peak " + fids[i] &&
              r[3 + 2 * |fids| + i] == "Overlap % " + fids[i]
  {
    ["Genomic Location", "Width", "# Overlapping Peaks"] +
    Titled("Sample ", fids) + Titled("Peak ", fids) + Titled("Overlap % ", fids) + ["Region"]
  }

  /** `locationCoreMap.get(coreLocation)?.get(fid) || NA`. */
  function UidFor(row: map<string, string>, fid: string): string {
    if fid in row && row[fid] != "" then row[fid] else NA
  }

  /** `locs`, lines 265-277: the peaks of the samples, in sample order,
      skipping samples without one. */
  function Found(row: map<string, string>, fids: seq<string>,
                 locs: map<string, GenomicLocation>): seq<GenomicLocation>
  {
    if fids == [] then []
    else
      var u := UidFor(row, fids[|fids| - 1]);
      Found(row, fids[..|fids| - 1], locs) + (if u in locs then [locs[u]] else [])
  }

  /** `Math.min(...locs.map(loc => loc.start))`. */
  function MinStart(ls: seq<GenomicLocation>): int
    requires ls != []
  {
    if |ls| == 1 then ls[0].start else Min(MinStart(ls[..|ls| - 1]), ls[|ls| - 1].start)
  }

  /** `Math.max(...locs.map(loc => loc.end))`. */
  function MaxEnd(ls: seq<GenomicLocation>): int
    requires ls != []
  {
    if |ls| == 1 then ls[0].end else Max(MaxEnd(ls[..|ls| - 1]), ls[|ls| - 1].end)
  }

  /** The region spans every found peak and is attained by one of them. */
  lemma {:induction false} SpanBounds(ls: seq<GenomicLocation>) returns (i: int, j: int)
    requires ls != []
    ensures forall l | l in ls :: MinStart(ls) <= l.start && l.end <= MaxEnd(ls)
    ensures 0 <= i < |ls| && ls[i].start == MinStart(ls)
    ensures 0 <= j < |ls| && ls[j].end == MaxEnd(ls)
  {
    if |ls| == 1 {
      i, j := 0, 0;
    } else {
      var init := ls[..|ls| - 1];
      var last := ls[|ls| - 1];
      i, j := SpanBounds(init);
      assert ls == init + [last];
      if last.start < MinStart(init) {
        i := |ls| - 1;
      }
      if last.end > MaxEnd(init) {
        j := |ls| - 1;
      }
    }
  }

  /** The uid cells, lines 261-263. */
  function SampleCells(row: map<string, string>, fids: seq<string>, p: Parsers): (r: seq<Cell>)
    ensures |r| == |fids|
  {
    seq(|fids|, i requires 0 <= i < |fids| => MakeCell(Str(UidFor(row, fids[i])), true, p))
  }

  /** The peak cells, lines 267-277. */
  function PeakCells(row: map<string, string>, fids: seq<string>, locs: map<string, GenomicLocation>,
                     p: Parsers): (r: seq<Cell>)
    ensures |r| == |fids|
  {
    seq(|fids|, i requires 0 <= i < |fids| =>
          var u := UidFor(row, fids[i]);
          MakeCell(Str(if u in locs then LocStr(locs[u]) else NA), true, p))
  }

  /** The overlap cells, lines 281-292. */
  function PercentCells(key: GenomicLocation, row: map<string, string>, fids: seq<string>,
                        locs: map<string, GenomicLocation>, percent: PercentCell): (r: seq<Cell>)
    ensures |r| == |fids|
  {
    seq(|fids|, i requires 0 <= i < |fids| =>
          var u := UidFor(row, fids[i]);
          if u in locs then percent(key, locs[u]) else Num(Finite(0.0)))
  }

  /** One row, lines 239-303: an unparsable key throws "invalid location",
      and a key none of whose samples has a peak fails at `locs[0]`. */
  function OverlapRow(coreLocation: string, row: map<string, string>, fids: seq<string>,
                      locs: map<string, GenomicLocation>, p: Parsers, percent: PercentCell)
    : (r: Result<seq<Cell>, string>)
    ensures r.Success? ==> |r.value| == |Header(fids)|
    ensures r.Success? ==> ParseLocation(coreLocation, 0, 0).Success? && Found(row, fids, locs) != []
  {
    match ParseLocation(coreLocation, 0, 0)
    case Failure(e) => Failure(e)
    case Success(overlapLocation) =>
      var found := Found(row, fids, locs);
      if found == [] then Failure("TypeError")
      else
        Success(RowCells(coreLocation, overlapLocation, row, fids, locs, found, p, percent))
  }

  /** The cells of a row whose key parsed and whose samples have peaks. */
  function RowCells(coreLocation: string, overlapLocation: GenomicLocation, row: map<string, string>,
                    fids: seq<string>, locs: map<string, GenomicLocation>, found: seq<GenomicLocation>,
                    p: Parsers, percent: PercentCell): (r: seq<Cell>)
    requires found != []
    ensures |r| == |Header(fids)|
    ensures r[0] == MakeCell(Str(coreLocation), true, p)
    ensures r[1] == Num(Finite(LocWidth(overlapLocation) as real))
    ensures r[2] == Num(Finite(|row| as real))
    ensures r[3..3 + |fids|] == SampleCells(row, fids, p)
    ensures r[|r| - 1] ==
            MakeCell(Str(LocStr(GenomicLocation(FormatChr(ChrName(found[0].chr)), MinStart(found), MaxEnd(found)))), true, p)
  {
    var region := NewLocation(ChrName(found[0].chr), MinStart(found), MaxEnd(found));
    var front := [MakeCell(Str(coreLocation), true, p),
                  Num(Finite(LocWidth(overlapLocation) as real)),
                  Num(Finite(|row| as real))];
    var samples := SampleCells(row, fids, p);
    var rest := PeakCells(row, fids, locs, p) + PercentCells(overlapLocation, row, fids, locs, percent) +
                [MakeCell(Str(LocStr(region)), true, p)];
    var r := front + samples + rest;
    assert r[3..3 + |fids|] == samples by {
      assert forall k | 0 <= k < |fids| :: r[3 + k] == samples[k];
    }
    r
  }

  /** A key that parses, with at least one sample that has a peak, gives a
      row: the key, the width of the parsed key, the number of samples
      filed under it, and last the region from the smallest start to the
      largest end of the peaks, which covers every one of them. Keys
      printed from a location parse back to it (`ParseLocationRoundTrip`). */
  lemma OverlapRowParsed(key: string, ol: GenomicLocation, row: map<string, string>, fids: seq<string>,
                         locs: map<string, GenomicLocation>, p: Parsers, percent: PercentCell)
    requires ParseLocation(key, 0, 0) == Success(ol)
    requires Found(row, fids, locs) != []
    ensures var r := OverlapRow(key, row, fids, locs, p, percent);
      var found := Found(row, fids, locs);
      r.Success? && r.value[1] == Num(Finite(LocWidth(ol) as real)) &&
      r.value[2] == Num(Finite(|row| as real)) &&
      r.value[|r.value| - 1] ==
        MakeCell(Str(LocStr(GenomicLocation(FormatChr(ChrName(found[0].chr)), MinStart(found), MaxEnd(found)))), true, p) &&
      forall l | l in found :: MinStart(found) <= l.start && l.end <= MaxEnd(found)
  {
    var i, j := SpanBounds(Found(row, fids, locs));
  }

  /** `Array.from(locationCoreMap.keys())`: the keys in some order. */
  method KeyList(core: CoreMap) returns (keys: seq<string>)
    ensures forall k :: k in keys <==> Some(k) in core
    ensures NoDups(keys)
  {
    keys := [];
    var rest := core.Keys;
    while rest != {}
      invariant rest <= core.Keys
      invariant forall k :: k in keys <==> Some(k) in core && Some(k) !in rest
      invariant NoDups(keys)
      decreases rest
    {
      var k :| k in rest;
      if k.Some? {
        keys := keys + [k.value];
      }
      rest := rest - {k};
    }
  }

  /** The rows for the sorted keys, lines 239-303 repeated: the first key
      whose row fails ends the loop with its error. */
  method OverlapRows(ks: seq<string>, rowOf: string -> Result<seq<Cell>, string>)
    returns (r: Result<seq<seq<Cell>>, string>)
    ensures r.Success? <==> forall i | 0 <= i < |ks| :: rowOf(ks[i]).Success?
    ensures r.Success? ==> |r.value| == |ks| && forall i | 0 <= i < |ks| :: Success(r.value[i]) == rowOf(ks[i])
  {
    var data: seq<seq<Cell>> := [];
    for i := 0 to |ks|
      invariant |data| == i
      invariant forall j | 0 <= j < i :: Success(data[j]) == rowOf(ks[j])
    {
      var row := rowOf(ks[i]);
      if row.Failure? {
        return Failure(row.error);
      }
      data := data + [row.value];
    }
    r := Success(data);
  }

  /** `createOverlapTable` on the grouped peaks: the keys sorted, one row
      per key, and a failure when a key is `undefined` (the source reaches
      it last, as undefined sorts after every string) or a row fails. The
      sorted keys `ks` are the only sorted arrangement of the key set. */
  method CreateOverlapTable(core: CoreMap, locs: map<string, GenomicLocation>, fids: seq<string>,
                            p: Parsers, percent: PercentCell)
    returns (r: Result<Table, string>, ghost ks: seq<string>)
    ensures SortedBy(ks, Id) && NoDups(ks)
    ensures forall k :: k in ks <==> Some(k) in core
    ensures r.Success? <==>
              None !in core && forall i | 0 <= i < |ks| :: OverlapRow(ks[i], Row(core, Some(ks[i])), fids, locs, p, percent).Success?
    ensures r.Success? ==>
              r.value.columns == Header(fids) && |r.value.data| == |ks| &&
              forall i | 0 <= i < |ks| ::
                Success(r.value.data[i]) == OverlapRow(ks[i], Row(core, Some(ks[i])), fids, locs, p, percent) &&
                |r.value.data[i]| == |r.value.columns|
  {
    var keys := KeyList(core);
    var sorted := SortStrings(keys);
    SortedKeys(keys);
    ks := sorted;
    var rows := OverlapRows(sorted, k => OverlapRow(k, Row(core, Some(k)), fids, locs, p, percent));
    if rows.Failure? {
      return Failure(rows.error), ks;
    }
    if None in core {
      return Failure("TypeError"), ks;
    }
    r := Success(Table(Header(fids), rows.value));
  }
}
