/** The gene-track reader of src/modules/tracks/genes-downloader.ts: a page
    index (`.gbi`, 32-bit words) gives the offset of the first record near
    a location, records are decoded one after the other from the `.gb`
    byte buffer, and a closest-genes table (`.gbc`) lists, per gene index,
    blocks of 11 record offsets. */
module GenesDownloader {
  import opened Wrappers
  import opened Genomic
  import opened GeneBytes
  import opened GeneRecords

  /** Blocks of `.gbc`: a gene and its ten closest genes. */
  const ClosestGenesN: nat := 11

  /** A `.gbi` index: magic number, page size, page count, then one record
      offset per page. */
  predicate IndexHeader(gbi: seq<nat>) {
    |gbi| >= 3 && gbi[1] > 0 && |gbi| >= 3 + gbi[2]
  }

  /** `max(0, min(pages - 1, floor(start / pageSize)))`; `/` on int is
      floor division for a positive divisor. */
  function ClosestPage(start: int, pageSize: nat, pages: nat): (r: int)
    requires pageSize > 0
    ensures pages > 0 ==> 0 <= r < pages
    ensures pages == 0 ==> r == 0
  {
    Max(0, Min(pages - 1, start / pageSize))
  }

  /** The page chosen is the one whose range holds `start` whenever some
      page does. */
  lemma ClosestPageHolds(start: int, pageSize: nat, pages: nat)
    requires pageSize > 0 && 0 <= start < pages * pageSize
    ensures var p := ClosestPage(start, pageSize, pages);
            p * pageSize <= start < (p + 1) * pageSize
  {
    var q := start / pageSize;
    assert q * pageSize <= start < (q + 1) * pageSize;
  }

  /** `getClosestGeneOffset`: the offset stored for the page of
      `loc.start`; an empty index throws inside the function and gives 0. */
  function ClosestGeneOffset(gbi: seq<nat>, loc: GenomicLocation): (r: nat)
    requires IndexHeader(gbi)
    ensures gbi[2] == 0 ==> r == 0
    ensures gbi[2] > 0 ==> r in gbi[3..3 + gbi[2]]
  {
    var page := ClosestPage(loc.start, gbi[1], gbi[2]);
    if page >= gbi[2] then 0
    else
      assert gbi[3..3 + gbi[2]][page] == gbi[3 + page];
      gbi[3 + page]
  }

  /** When `loc.start` falls inside the indexed range, the offset is the
      one of the page holding it. */
  lemma ClosestGeneOffsetPage(gbi: seq<nat>, loc: GenomicLocation)
    requires IndexHeader(gbi) && 0 <= loc.start < gbi[2] * gbi[1]
    ensures var p := ClosestPage(loc.start, gbi[1], gbi[2]);
            p * gbi[1] <= loc.start < (p + 1) * gbi[1] &&
            ClosestGeneOffset(gbi, loc) == gbi[3 + p]
  {
    ClosestPageHolds(loc.start, gbi[1], gbi[2]);
  }

  /** The records walked by `downloadGenes` from `offset`, after one that
      started at `start`: the walk goes on while the last start is before
      `last` (`loc.end`) and stops at the first offset yielding nothing. */
  function Walk(read: Reader, ghost size: nat, offset: nat, last: int, start: int): (r: seq<Transcript>)
    requires Advances(read, size)
    decreases if offset <= size then size - offset + 1 else 0
  {
    if start >= last then []
    else
      var (ts, next) := read(offset);
      if ts == [] then [] else [ts[0]] + Walk(read, size, next, last, ts[0].start)
  }

  /** Every walked transcript has exons and the requested chromosome, and
      every one but the last starts before `last`. */
  lemma {:induction false} WalkSpec(read: Reader, size: nat, chr: string, offset: nat, last: int, start: int)
    requires Advances(read, size) && Yields(read, chr)
    ensures var w := Walk(read, size, offset, last, start);
            (forall i | 0 <= i < |w| :: w[i].exons != [] && w[i].chr == chr) &&
            (forall i | 0 <= i < |w| - 1 :: w[i].start < last) &&
            (w != [] ==> start < last)
    decreases if offset <= size then size - offset + 1 else 0
  {
    if start < last {
      var (ts, next) := read(offset);
      if ts != [] {
        WalkSpec(read, size, chr, next, last, ts[0].start);
        var w := Walk(read, size, offset, last, start);
        var rest := Walk(read, size, next, last, ts[0].start);
        assert w == [ts[0]] + rest;
        forall i | 0 <= i < |w| - 1 ensures w[i].start < last {
          if i > 0 {
            assert w[i] == rest[i - 1];
          }
        }
      }
    }
  }

  /** What `downloadGenes` returns: nothing when the index gives offset 0,
      otherwise the walk from that offset. */
  function Downloaded(read: Reader, ghost size: nat, gbi: seq<nat>, loc: GenomicLocation): (r: seq<Transcript>)
    requires IndexHeader(gbi) && Advances(read, size)
  {
    var first := ClosestGeneOffset(gbi, loc);
    if first == 0 then [] else Walk(read, size, first, loc.end, -1)
  }

  /** `downloadGenes`, with `read` the buffer's record reader for
      `loc.chr`: the records from the closest offset on, until one starts at
      or after `loc.end` or no transcript is found. */
  method DownloadGenes(read: Reader, ghost size: nat, gbi: seq<nat>, loc: GenomicLocation)
    returns (ret: seq<Transcript>)
    requires IndexHeader(gbi) && Advances(read, size)
    ensures ret == Downloaded(read, size, gbi, loc)
  {
    var offset := ClosestGeneOffset(gbi, loc);
    if offset == 0 {
      return [];
    }
    ghost var first := offset;
    var start := -1;
    ret := [];
    while start < loc.end
      invariant ret + Walk(read, size, offset, loc.end, start) == Walk(read, size, first, loc.end, -1)
      decreases if offset <= size then size - offset + 1 else 0
    {
      var (ts, next) := read(offset);
      if |ts| < 1 {
        break;
      }
      ret := ret + [ts[0]];
      start := ts[0].start;
      offset := next;
    }
  }

  /** The location a transcript covers. */
  function LocOf(t: Transcript): GenomicLocation {
    GenomicLocation(t.chr, t.start, t.end)
  }

  /** The transcripts of ts that meet `loc`, in order. */
  function Within(ts: seq<Transcript>, loc: GenomicLocation): (r: seq<Transcript>)
    ensures |r| <= |ts|
  {
    if ts == [] then []
    else (if LocWithin(LocOf(ts[0]), loc) then [ts[0]] else []) + Within(ts[1..], loc)
  }

  /** A transcript is kept exactly when it was walked and meets `loc`. */
  lemma {:induction false} WithinSpec(ts: seq<Transcript>, loc: GenomicLocation, t: Transcript)
    ensures t in Within(ts, loc) <==> t in ts && LocWithin(LocOf(t), loc)
  {
    if ts != [] {
      WithinSpec(ts[1..], loc, t);
      assert ts == [ts[0]] + ts[1..];
    }
  }

  /** `getWithinTranscripts`: the walk of `downloadGenes`, keeping the
      transcripts that meet `loc`. */
  method GetWithinTranscripts(read: Reader, ghost size: nat, gbi: seq<nat>, loc: GenomicLocation)
    returns (ret: seq<Transcript>)
    requires IndexHeader(gbi) && Advances(read, size)
    ensures ret == Within(Downloaded(read, size, gbi, loc), loc)
  {
    var offset := ClosestGeneOffset(gbi, loc);
    if offset == 0 {
      return [];
    }
    ghost var first := offset;
    var start := -1;
    ret := [];
    while start < loc.end
      invariant ret + Within(Walk(read, size, offset, loc.end, start), loc) ==
                Within(Walk(read, size, first, loc.end, -1), loc)
      decreases if offset <= size then size - offset + 1 else 0
    {
      var (ts, next) := read(offset);
      if |ts| < 1 {
        break;
      }
      ghost var rest := Walk(read, size, next, loc.end, ts[0].start);
      assert ([ts[0]] + rest)[0] == ts[0] && ([ts[0]] + rest)[1..] == rest;
      if LocWithin(LocOf(ts[0]), loc) {
        ret := ret + [ts[0]];
      }
      start := ts[0].start;
      offset := next;
    }
  }

  /** `getClosestTranscript`: the transcript at the closest offset, as a
      list of at most one. */
  function ClosestTranscript(read: Reader, gbi: seq<nat>, loc: GenomicLocation): (r: seq<Transcript>)
    requires IndexHeader(gbi)
    ensures |r| <= 1
  {
    var offset := ClosestGeneOffset(gbi, loc);
    if offset == 0 then []
    else
      var ts := read(offset).0;
      if |ts| < 1 then [] else [ts[0]]
  }

  /** The closest transcript is the first one `downloadGenes` returns,
      whenever the walk runs at all (`loc.end >= 0`). */
  lemma ClosestIsFirst(read: Reader, size: nat, gbi: seq<nat>, loc: GenomicLocation)
    requires IndexHeader(gbi) && Advances(read, size) && loc.end >= 0
    ensures var w := Downloaded(read, size, gbi, loc);
            ClosestTranscript(read, gbi, loc) == (if w == [] then [] else [w[0]])
  {
  }

  /** The transcripts of the first n slots of the `.gbc` block starting at
      word `base`; slots whose record yields nothing are skipped. */
  function ClosestAt(read: Reader, gbc: seq<nat>, base: nat, n: nat): (r: seq<Transcript>)
    requires base + n <= |gbc|
  {
    if n == 0 then []
    else
      var ts := read(gbc[base + n - 1]).0;
      ClosestAt(read, gbc, base, n - 1) + (if |ts| > 0 then [ts[0]] else [])
  }

  /** At most one transcript per slot, each with exons and the requested
      chromosome. */
  lemma {:induction false} ClosestAtFound(read: Reader, chr: string, gbc: seq<nat>, base: nat, n: nat)
    requires base + n <= |gbc| && Yields(read, chr)
    ensures var r := ClosestAt(read, gbc, base, n);
            |r| <= n && (forall i | 0 <= i < |r| :: r[i].exons != [] && r[i].chr == chr)
  {
    if n > 0 {
      ClosestAtFound(read, chr, gbc, base, n - 1);
      var prev := ClosestAt(read, gbc, base, n - 1);
      var ts := read(gbc[base + n - 1]).0;
      var r := ClosestAt(read, gbc, base, n);
      assert r == prev + (if |ts| > 0 then [ts[0]] else []);
      forall i | 0 <= i < |r| ensures r[i].exons != [] && r[i].chr == chr {
        if i >= |prev| {
          assert r[i] == ts[0];
        } else {
          assert r[i] == prev[i];
        }
      }
    }
  }

  /** One transcript per slot when every slot's record has one. */
  lemma {:induction false} ClosestAtAll(read: Reader, gbc: seq<nat>, base: nat, n: nat)
    requires base + n <= |gbc|
    requires forall i | base <= i < base + n :: read(gbc[i]).0 != []
    ensures |ClosestAt(read, gbc, base, n)| == n
  {
    if n > 0 {
      ClosestAtAll(read, gbc, base, n - 1);
      assert read(gbc[base + n - 1]).0 != [];
    }
  }

  /** `getClosestTranscriptsUsingIndex`: for each of the first n offsets
      of gene `index`'s block in `.gbc`, the transcript there. */
  method GetClosestTranscriptsUsingIndex(read: Reader, gbc: seq<nat>, index: nat, n: nat)
    returns (ret: seq<Transcript>)
    requires 3 + index * ClosestGenesN + n <= |gbc|
    ensures ret == ClosestAt(read, gbc, 3 + index * ClosestGenesN, n)
  {
    var base := 3 + index * ClosestGenesN;
    var offset := base;
    ret := [];
    for ci := 0 to n
      invariant offset == base + ci
      invariant ret == ClosestAt(read, gbc, base, ci)
    {
      var (genes, _) := read(gbc[offset]);
      if |genes| > 0 {
        ret := ret + [genes[0]];
      }
      offset := offset + 1;
    }
  }

  /** `getClosestTranscripts`: nothing when there is no closest
      transcript, otherwise the closest genes listed for its index. */
  function ClosestTranscripts(read: Reader, gbi: seq<nat>, gbc: seq<nat>, loc: GenomicLocation, n: nat)
    : (r: seq<Transcript>)
    requires IndexHeader(gbi) && Yields(read, loc.chr)
    requires var c := ClosestTranscript(read, gbi, loc);
             c != [] ==> c[0].index >= 0 && 3 + c[0].index * ClosestGenesN + n <= |gbc|
    ensures ClosestTranscript(read, gbi, loc) == [] ==> r == []
    ensures |r| <= n && forall i | 0 <= i < |r| :: r[i].exons != [] && r[i].chr == loc.chr
  {
    var c := ClosestTranscript(read, gbi, loc);
    if c == [] then []
    else
      ClosestAtFound(read, loc.chr, gbc, 3 + c[0].index * ClosestGenesN, n);
      ClosestAt(read, gbc, 3 + c[0].index * ClosestGenesN, n)
  }
}
