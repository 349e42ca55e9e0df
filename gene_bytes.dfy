/** The binary transcript records read by src/modules/tracks/genes-downloader.ts:
    little-endian unsigned integers and length-prefixed UTF-8 strings in a
    byte buffer. `DecodeRecord` reads one record the way
    `getTranscriptUsingOffset` does; `EncodeRecord` writes one, and the two
    are proved inverse. */
module GeneBytes {
  import opened Wrappers

  type Byte = x: int | 0 <= x < 0x100

  /** `buffer.toString("utf8", …)`: UTF-8 decoding is a parameter. */
  type Utf8 = seq<Byte> -> string

  /** `256^k`. */
  function Pow256(k: nat): (r: nat)
    ensures r > 0
  {
    if k == 0 then 1 else 0x100 * Pow256(k - 1)
  }

  /** k bytes holding v least significant first (v is cut to k bytes). */
  function LeBytes(v: nat, k: nat): (r: seq<Byte>)
    ensures |r| == k
  {
    if k == 0 then [] else [v % 0x100] + LeBytes(v / 0x100, k - 1)
  }

  /** The value of the k bytes at `at`, least significant first. */
  function Word(gb: seq<Byte>, at: nat, k: nat): (r: nat)
    requires at + k <= |gb|
    ensures r < Pow256(k)
    decreases k
  {
    if k == 0 then 0 else gb[at] + 0x100 * Word(gb, at + 1, k - 1)
  }

  /** `readUInt8`, `readUInt16LE`, `readUInt32LE` (k = 1, 2, 4) at `at`: a
      RangeError unless all k bytes are inside the buffer. */
  function ReadUInt(gb: seq<Byte>, at: nat, k: nat): (r: Result<nat, string>)
    ensures r.Success? <==> at + k <= |gb|
    ensures r.Success? ==> r.value < Pow256(k)
  {
    if at + k <= |gb| then Success(Word(gb, at, k)) else Failure("RangeError")
  }

  function Clamp(x: nat, n: nat): nat { if x <= n then x else n }

  /** `n > 0 ? buffer.toString("utf8", at, at + n) : ""`: Buffer cuts the
      range at the end of the buffer instead of failing, and gives "" for a
      range that is empty once cut. */
  function Text(gb: seq<Byte>, at: nat, n: nat, utf8: Utf8): (r: string)
    ensures n == 0 || at >= |gb| ==> r == ""
    ensures n > 0 && at + n <= |gb| ==> r == utf8(gb[at..at + n])
  {
    var lo, hi := Clamp(at, |gb|), Clamp(at + n, |gb|);
    if n > 0 && lo < hi then utf8(gb[lo..hi]) else ""
  }

  /** A string field: one length byte, then that many bytes of text. The
      result is the text and the position after it. */
  function DecodeText(gb: seq<Byte>, at: nat, utf8: Utf8): (r: Result<(string, nat), string>)
    ensures r.Success? <==> at < |gb|
    ensures r.Success? ==> r.value.1 == at + 1 + gb[at]
  {
    var n :- ReadUInt(gb, at, 1);
    Success((Text(gb, at + 1, n, utf8), at + 1 + n))
  }

  /** `{ chr: loc.chr, start, end, id, value: 1 }`. */
  datatype Exon = Exon(chr: string, start: int, end: int, id: string, value: int)

  /** `ITranscript`: the strand is '+' or '-'. */
  datatype Transcript = Transcript(index: int, id: string, geneId: string, geneSymbol: string,
                                   chr: string, start: int, end: int, strand: char, exons: seq<Exon>)

  /** One exon, lines 254-262: u32 start, u32 end, a string field. */
  function DecodeExon(gb: seq<Byte>, at: nat, chr: string, utf8: Utf8): (r: Result<(Exon, nat), string>)
    ensures r.Success? ==> r.value.1 >= at + 9
  {
    var start :- ReadUInt(gb, at, 4);
    var end :- ReadUInt(gb, at + 4, 4);
    var id :- DecodeText(gb, at + 8, utf8);
    Success((Exon(chr, start, end, id.0, 1), id.1))
  }

  /** The first `count` exons from `at`, and the position after them. */
  function DecodeExons(gb: seq<Byte>, at: nat, count: nat, chr: string, utf8: Utf8)
    : (r: Result<(seq<Exon>, nat), string>)
    ensures r.Success? ==> |r.value.0| == count && r.value.1 >= at
  {
    if count == 0 then Success(([], at))
    else
      var prev :- DecodeExons(gb, at, count - 1, chr, utf8);
      var e :- DecodeExon(gb, prev.1, chr, utf8);
      Success((prev.0 + [e.0], e.1))
  }

  /** Once an exon fails to decode, every longer run of exons fails with
      the same error. */
  lemma {:induction false} DecodeExonsFail(gb: seq<Byte>, at: nat, k: nat, m: nat, chr: string, utf8: Utf8)
    requires k <= m && DecodeExons(gb, at, k, chr, utf8).Failure?
    ensures DecodeExons(gb, at, m, chr, utf8) == DecodeExons(gb, at, k, chr, utf8)
    decreases m
  {
    if k < m {
      DecodeExonsFail(gb, at, k, m - 1, chr, utf8);
    }
  }

  /** The fixed fields after the block size, lines 193-203: u32 index,
      u32 start, u32 end and the u8 strand, 13 bytes. */
  function DecodeFixed(gb: seq<Byte>, at: nat): (r: Result<(nat, nat, nat, nat), string>)
    ensures r.Success? <==> at + 13 <= |gb|
  {
    var index :- ReadUInt(gb, at, 4);
    var start :- ReadUInt(gb, at + 4, 4);
    var end :- ReadUInt(gb, at + 8, 4);
    var strand :- ReadUInt(gb, at + 12, 1);
    Success((index, start, end, strand))
  }

  /** The three string fields, lines 204-218: id, gene id and gene symbol,
      and the position after them. */
  function DecodeNames(gb: seq<Byte>, at: nat, utf8: Utf8): (r: Result<(string, string, string, nat), string>)
    ensures r.Success? ==> r.value.3 >= at + 3
  {
    var id :- DecodeText(gb, at, utf8);
    var geneId :- DecodeText(gb, id.1, utf8);
    var geneSymbol :- DecodeText(gb, geneId.1, utf8);
    Success((id.0, geneId.0, geneSymbol.0, geneSymbol.1))
  }

  /** The u16 exon count and the exons, lines 250-267. */
  function DecodeTail(gb: seq<Byte>, at: nat, chr: string, utf8: Utf8): (r: Result<(seq<Exon>, nat), string>)
    ensures r.Success? ==> r.value.1 >= at + 2
  {
    var en :- ReadUInt(gb, at, 2);
    DecodeExons(gb, at + 2, en, chr, utf8)
  }

  /** One record at `offset`, lines 166-267: u32 block size, the fixed
      fields, the string fields, the exon count and the exons. The second
      component is the offset of the next record, `offset + 4 + block
      size`. */
  function DecodeRecord(gb: seq<Byte>, offset: nat, chr: string, utf8: Utf8)
    : (r: Result<(Transcript, nat), string>)
    ensures r.Success? ==> offset + 4 <= |gb| && r.value.1 == offset + 4 + Word(gb, offset, 4)
    ensures r.Success? ==> r.value.0.chr == chr && r.value.0.strand in {'+', '-'}
  {
    var blockSize :- ReadUInt(gb, offset, 4);
    var fixed :- DecodeFixed(gb, offset + 4);
    var names :- DecodeNames(gb, offset + 17, utf8);
    var exons :- DecodeTail(gb, names.3, chr, utf8);
    Success((Transcript(fixed.0, names.0, names.1, names.2, chr, fixed.1, fixed.2,
                        if fixed.3 > 0 then '+' else '-', exons.0),
             offset + 4 + blockSize))
  }

  // ------------------------------------------------------------ encoding

  /** The stored form of an exon: coordinates and the bytes of its id. */
  datatype ExonRecord = ExonRecord(start: nat, end: nat, id: seq<Byte>)

  /** The stored form of a transcript. */
  datatype GeneRecord = GeneRecord(index: nat, start: nat, end: nat, strand: Byte,
                                   id: seq<Byte>, geneId: seq<Byte>, geneSymbol: seq<Byte>,
                                   exons: seq<ExonRecord>)

  predicate ValidExon(e: ExonRecord) {
    e.start < Pow256(4) && e.end < Pow256(4) && |e.id| < 0x100
  }

  predicate ValidExons(es: seq<ExonRecord>) {
    es == [] || (ValidExons(es[..|es| - 1]) && ValidExon(es[|es| - 1]))
  }

  /** Every field fits its width, and so does the block size. */
  predicate ValidRecord(r: GeneRecord) {
    r.index < Pow256(4) && r.start < Pow256(4) && r.end < Pow256(4) &&
    |r.id| < 0x100 && |r.geneId| < 0x100 && |r.geneSymbol| < 0x100 &&
    |r.exons| < Pow256(2) && ValidExons(r.exons) &&
    BodySize(r) < Pow256(4)
  }

  /** A string field: its length byte, then its bytes. */
  function Field(s: seq<Byte>): (r: seq<Byte>)
    ensures |r| == |s| + 1
  {
    [|s| % 0x100] + s
  }

  function EncodeExon(e: ExonRecord): seq<Byte> {
    LeBytes(e.start, 4) + LeBytes(e.end, 4) + Field(e.id)
  }

  function EncodeExons(es: seq<ExonRecord>): seq<Byte> {
    if es == [] then [] else EncodeExons(es[..|es| - 1]) + EncodeExon(es[|es| - 1])
  }

  /** Everything after the block size. */
  function Body(r: GeneRecord): seq<Byte> {
    Head(r) + Names(r) + Tail(r)
  }

  /** index, start, end, strand. */
  function Head(r: GeneRecord): seq<Byte> {
    LeBytes(r.index, 4) + LeBytes(r.start, 4) + LeBytes(r.end, 4) + [r.strand]
  }

  /** The three string fields. */
  function Names(r: GeneRecord): seq<Byte> {
    Field(r.id) + Field(r.geneId) + Field(r.geneSymbol)
  }

  /** The exon count and the exons. */
  function Tail(r: GeneRecord): seq<Byte> {
    LeBytes(|r.exons|, 2) + EncodeExons(r.exons)
  }

  /** A whole record: the block size counts the bytes after it. */
  function EncodeRecord(r: GeneRecord): seq<Byte> {
    LeBytes(|Body(r)|, 4) + Body(r)
  }

  /** The block size of a record, counted field by field. */
  function BodySize(r: GeneRecord): nat {
    13 + 3 + |r.id| + |r.geneId| + |r.geneSymbol| + 2 + ExonsSize(r.exons)
  }

  function ExonsSize(es: seq<ExonRecord>): nat {
    if es == [] then 0 else ExonsSize(es[..|es| - 1]) + 9 + |es[|es| - 1].id|
  }

  lemma {:induction false} ExonsLength(es: seq<ExonRecord>)
    ensures |EncodeExons(es)| == ExonsSize(es)
  {
    if es != [] {
      ExonsLength(es[..|es| - 1]);
    }
  }

  /** The block size written is the one counted field by field. */
  lemma RecordLength(r: GeneRecord)
    ensures |Body(r)| == BodySize(r) && |EncodeRecord(r)| == 4 + BodySize(r)
  {
    ExonsLength(r.exons);
  }

  /** What decoding a string field gives. */
  function TextOf(s: seq<Byte>, utf8: Utf8): string {
    if |s| > 0 then utf8(s) else ""
  }

  function ExonOf(e: ExonRecord, chr: string, utf8: Utf8): Exon {
    Exon(chr, e.start, e.end, TextOf(e.id, utf8), 1)
  }

  function ExonsOf(es: seq<ExonRecord>, chr: string, utf8: Utf8): (r: seq<Exon>)
    ensures |r| == |es|
  {
    if es == [] then [] else ExonsOf(es[..|es| - 1], chr, utf8) + [ExonOf(es[|es| - 1], chr, utf8)]
  }

  /** The transcript a stored record stands for. */
  function TranscriptOf(r: GeneRecord, chr: string, utf8: Utf8): Transcript {
    Transcript(r.index, TextOf(r.id, utf8), TextOf(r.geneId, utf8), TextOf(r.geneSymbol, utf8),
               chr, r.start, r.end, if r.strand > 0 then '+' else '-', ExonsOf(r.exons, chr, utf8))
  }

  // ------------------------------------------------------------ round trip

  /** A record decodes once each of its parts does. */
  lemma DecodeParts(gb: seq<Byte>, offset: nat, chr: string, utf8: Utf8, blockSize: nat,
                    fixed: (nat, nat, nat, nat), names: (string, string, string, nat),
                    exons: (seq<Exon>, nat), t: Transcript, next: nat)
    requires ReadUInt(gb, offset, 4) == Success(blockSize)
    requires DecodeFixed(gb, offset + 4) == Success(fixed)
    requires DecodeNames(gb, offset + 17, utf8) == Success(names)
    requires DecodeTail(gb, names.3, chr, utf8) == Success(exons)
    requires t == Transcript(fixed.0, names.0, names.1, names.2, chr, fixed.1, fixed.2,
                             if fixed.3 > 0 then '+' else '-', exons.0)
    requires next == offset + 4 + blockSize
    ensures DecodeRecord(gb, offset, chr, utf8) == Success((t, next))
  {
  }


  /** The buffer holds bs at `at`. */
  predicate At(gb: seq<Byte>, at: nat, bs: seq<Byte>)
    decreases |bs|
  {
    if bs == [] then at <= |gb|
    else at < |gb| && gb[at] == bs[0] && At(gb, at + 1, bs[1..])
  }

  lemma {:induction false} AtSlice(gb: seq<Byte>, at: nat, bs: seq<Byte>)
    requires At(gb, at, bs)
    ensures at + |bs| <= |gb| && gb[at..at + |bs|] == bs
    decreases |bs|
  {
    if bs != [] {
      AtSlice(gb, at + 1, bs[1..]);
      assert gb[at..at + |bs|] == [gb[at]] + gb[at + 1..at + |bs|];
    }
  }

  lemma {:induction false} AtSplit(gb: seq<Byte>, at: nat, a: seq<Byte>, b: seq<Byte>)
    requires At(gb, at, a + b)
    ensures At(gb, at, a) && At(gb, at + |a|, b)
    decreases |a|
  {
    if a != [] {
      assert (a + b)[0] == a[0] && (a + b)[1..] == a[1..] + b;
      AtSplit(gb, at + 1, a[1..], b);
    } else {
      assert a + b == b;
      AtSlice(gb, at, b);
    }
  }

  /** Reading back the bytes written for a value that fits gives the value. */
  lemma {:induction false} AtRead(gb: seq<Byte>, at: nat, v: nat, k: nat)
    requires v < Pow256(k) && At(gb, at, LeBytes(v, k))
    ensures ReadUInt(gb, at, k) == Success(v)
    decreases k
  {
    AtSlice(gb, at, LeBytes(v, k));
    if k > 0 {
      assert LeBytes(v, k)[1..] == LeBytes(v / 0x100, k - 1);
      AtRead(gb, at + 1, v / 0x100, k - 1);
    }
  }

  lemma AtText(gb: seq<Byte>, at: nat, s: seq<Byte>, utf8: Utf8)
    requires |s| < 0x100 && At(gb, at, Field(s))
    ensures DecodeText(gb, at, utf8) == Success((TextOf(s, utf8), at + 1 + |s|))
  {
    AtSplit(gb, at, [|s|], s);
    AtSlice(gb, at + 1, s);
  }

  lemma AtExon(gb: seq<Byte>, at: nat, e: ExonRecord, chr: string, utf8: Utf8)
    requires ValidExon(e) && At(gb, at, EncodeExon(e))
    ensures DecodeExon(gb, at, chr, utf8) == Success((ExonOf(e, chr, utf8), at + 9 + |e.id|))
  {
    AtSplit(gb, at, LeBytes(e.start, 4) + LeBytes(e.end, 4), Field(e.id));
    AtSplit(gb, at, LeBytes(e.start, 4), LeBytes(e.end, 4));
    AtRead(gb, at, e.start, 4);
    AtRead(gb, at + 4, e.end, 4);
    AtText(gb, at + 8, e.id, utf8);
  }

  /** One more exon after a decoded run. */
  lemma DecodeExonsStep(gb: seq<Byte>, at: nat, n: nat, chr: string, utf8: Utf8,
                        prev: (seq<Exon>, nat), e: (Exon, nat))
    requires DecodeExons(gb, at, n, chr, utf8) == Success(prev)
    requires DecodeExon(gb, prev.1, chr, utf8) == Success(e)
    ensures DecodeExons(gb, at, n + 1, chr, utf8) == Success((prev.0 + [e.0], e.1))
  {
  }

  /** Where the last exon of a run sits. */
  lemma AtLastExon(gb: seq<Byte>, at: nat, es: seq<ExonRecord>)
    requires es != [] && At(gb, at, EncodeExons(es))
    ensures At(gb, at, EncodeExons(es[..|es| - 1]))
    ensures At(gb, at + ExonsSize(es[..|es| - 1]), EncodeExon(es[|es| - 1]))
  {
    ExonsLength(es[..|es| - 1]);
    AtSplit(gb, at, EncodeExons(es[..|es| - 1]), EncodeExon(es[|es| - 1]));
  }

  lemma {:induction false} AtExons(gb: seq<Byte>, at: nat, es: seq<ExonRecord>, chr: string, utf8: Utf8)
    requires ValidExons(es) && At(gb, at, EncodeExons(es))
    ensures DecodeExons(gb, at, |es|, chr, utf8) == Success((ExonsOf(es, chr, utf8), at + ExonsSize(es)))
  {
    if es != [] {
      var init, last := es[..|es| - 1], es[|es| - 1];
      AtLastExon(gb, at, es);
      AtExons(gb, at, init, chr, utf8);
      AtExon(gb, at + ExonsSize(init), last, chr, utf8);
      var d := DecodeExons(gb, at, |init|, chr, utf8);
      var de := DecodeExon(gb, d.value.1, chr, utf8);
      DecodeExonsStep(gb, at, |init|, chr, utf8, d.value, de.value);
    }
  }

  /** The fixed part of a record: index, start, end, strand. */
  lemma AtHead(gb: seq<Byte>, at: nat, r: GeneRecord)
    requires r.index < Pow256(4) && r.start < Pow256(4) && r.end < Pow256(4)
    requires At(gb, at, Head(r))
    ensures DecodeFixed(gb, at) == Success((r.index, r.start, r.end, r.strand))
  {
    var a, b, c := LeBytes(r.index, 4), LeBytes(r.start, 4), LeBytes(r.end, 4);
    AtSplit(gb, at, a + b + c, [r.strand]);
    AtSplit(gb, at, a + b, c);
    AtSplit(gb, at, a, b);
    AtRead(gb, at, r.index, 4);
    AtRead(gb, at + 4, r.start, 4);
    AtRead(gb, at + 8, r.end, 4);
    assert LeBytes(r.strand, 1) == [r.strand];
    AtRead(gb, at + 12, r.strand, 1);
  }

  /** Three string fields in a row. */
  lemma DecodeNamesParts(gb: seq<Byte>, at: nat, utf8: Utf8,
                         id: (string, nat), geneId: (string, nat), geneSymbol: (string, nat))
    requires DecodeText(gb, at, utf8) == Success(id)
    requires DecodeText(gb, id.1, utf8) == Success(geneId)
    requires DecodeText(gb, geneId.1, utf8) == Success(geneSymbol)
    ensures DecodeNames(gb, at, utf8) == Success((id.0, geneId.0, geneSymbol.0, geneSymbol.1))
  {
  }

  /** The three string fields. */
  lemma AtNames(gb: seq<Byte>, at: nat, r: GeneRecord, utf8: Utf8)
    requires |r.id| < 0x100 && |r.geneId| < 0x100 && |r.geneSymbol| < 0x100
    requires At(gb, at, Names(r))
    ensures DecodeNames(gb, at, utf8) ==
            Success((TextOf(r.id, utf8), TextOf(r.geneId, utf8), TextOf(r.geneSymbol, utf8),
                     at + 3 + |r.id| + |r.geneId| + |r.geneSymbol|))
  {
    var p, q := at + 1 + |r.id|, at + 2 + |r.id| + |r.geneId|;
    AtSplit(gb, at, Field(r.id) + Field(r.geneId), Field(r.geneSymbol));
    AtSplit(gb, at, Field(r.id), Field(r.geneId));
    AtText(gb, at, r.id, utf8);
    AtText(gb, p, r.geneId, utf8);
    AtText(gb, q, r.geneSymbol, utf8);
    DecodeNamesParts(gb, at, utf8, (TextOf(r.id, utf8), p), (TextOf(r.geneId, utf8), q),
                     (TextOf(r.geneSymbol, utf8), q + 1 + |r.geneSymbol|));
  }

  /** The exon count and the exons. */
  lemma AtTail(gb: seq<Byte>, at: nat, r: GeneRecord, chr: string, utf8: Utf8)
    requires |r.exons| < Pow256(2) && ValidExons(r.exons)
    requires At(gb, at, Tail(r))
    ensures DecodeTail(gb, at, chr, utf8) ==
            Success((ExonsOf(r.exons, chr, utf8), at + 2 + ExonsSize(r.exons)))
  {
    AtSplit(gb, at, LeBytes(|r.exons|, 2), EncodeExons(r.exons));
    AtRead(gb, at, |r.exons|, 2);
    AtExons(gb, at + 2, r.exons, chr, utf8);
  }

  /** Where the parts of a written record sit. */
  lemma AtParts(gb: seq<Byte>, offset: nat, r: GeneRecord)
    requires At(gb, offset, EncodeRecord(r))
    ensures At(gb, offset, LeBytes(|Body(r)|, 4))
    ensures At(gb, offset + 4, Head(r))
    ensures At(gb, offset + 17, Names(r))
    ensures At(gb, offset + 20 + |r.id| + |r.geneId| + |r.geneSymbol|, Tail(r))
  {
    AtSplit(gb, offset, LeBytes(|Body(r)|, 4), Body(r));
    AtSplit(gb, offset + 4, Head(r) + Names(r), Tail(r));
    AtSplit(gb, offset + 4, Head(r), Names(r));
  }

  lemma EncodedFixed(gb: seq<Byte>, offset: nat, r: GeneRecord)
    requires ValidRecord(r) && At(gb, offset, EncodeRecord(r))
    ensures ReadUInt(gb, offset, 4) == Success(BodySize(r))
    ensures DecodeFixed(gb, offset + 4) == Success((r.index, r.start, r.end, r.strand))
  {
    AtParts(gb, offset, r);
    RecordLength(r);
    AtRead(gb, offset, |Body(r)|, 4);
    AtHead(gb, offset + 4, r);
  }

  lemma EncodedNames(gb: seq<Byte>, offset: nat, r: GeneRecord, utf8: Utf8)
    requires ValidRecord(r) && At(gb, offset, EncodeRecord(r))
    ensures DecodeNames(gb, offset + 17, utf8) ==
            Success((TextOf(r.id, utf8), TextOf(r.geneId, utf8), TextOf(r.geneSymbol, utf8),
                     offset + 20 + |r.id| + |r.geneId| + |r.geneSymbol|))
  {
    AtParts(gb, offset, r);
    AtNames(gb, offset + 17, r, utf8);
  }

  /** The tail starts at `at`, after the three string fields. */
  lemma EncodedTail(gb: seq<Byte>, offset: nat, r: GeneRecord, chr: string, utf8: Utf8, at: nat)
    requires ValidRecord(r) && At(gb, offset, EncodeRecord(r))
    requires at == offset + 20 + |r.id| + |r.geneId| + |r.geneSymbol|
    ensures DecodeTail(gb, at, chr, utf8) == Success((ExonsOf(r.exons, chr, utf8), offset + 4 + BodySize(r)))
  {
    AtParts(gb, offset, r);
    AtTail(gb, at, r, chr, utf8);
  }

  /** Each part of a written record decodes, and together they make up the
      transcript the record stands for. */
  lemma EncodedParts(gb: seq<Byte>, offset: nat, r: GeneRecord, chr: string, utf8: Utf8)
    returns (fixed: (nat, nat, nat, nat), names: (string, string, string, nat), exons: (seq<Exon>, nat))
    requires ValidRecord(r) && At(gb, offset, EncodeRecord(r))
    ensures ReadUInt(gb, offset, 4) == Success(BodySize(r))
    ensures DecodeFixed(gb, offset + 4) == Success(fixed)
    ensures DecodeNames(gb, offset + 17, utf8) == Success(names)
    ensures DecodeTail(gb, names.3, chr, utf8) == Success(exons)
    ensures TranscriptOf(r, chr, utf8) ==
            Transcript(fixed.0, names.0, names.1, names.2, chr, fixed.1, fixed.2,
                       if fixed.3 > 0 then '+' else '-', exons.0)
  {
    fixed := (r.index, r.start, r.end, r.strand);
    names := (TextOf(r.id, utf8), TextOf(r.geneId, utf8), TextOf(r.geneSymbol, utf8),
              offset + 20 + |r.id| + |r.geneId| + |r.geneSymbol|);
    exons := (ExonsOf(r.exons, chr, utf8), offset + 4 + BodySize(r));
    EncodedFixed(gb, offset, r);
    EncodedNames(gb, offset, r, utf8);
    EncodedTail(gb, offset, r, chr, utf8, names.3);
  }

  /** Decoding a written record, wherever it sits in the buffer, gives the
      transcript it stands for, with zero-length strings read as "", and
      the offset just past it (`RecordLength` ties 4 + BodySize(r) to the
      length of the written bytes). */
  lemma DecodeEncode(gb: seq<Byte>, offset: nat, r: GeneRecord, chr: string, utf8: Utf8)
    requires ValidRecord(r) && At(gb, offset, EncodeRecord(r))
    ensures DecodeRecord(gb, offset, chr, utf8) == Success((TranscriptOf(r, chr, utf8), offset + 4 + BodySize(r)))
  {
    var fixed, names, exons := EncodedParts(gb, offset, r, chr, utf8);
    DecodeParts(gb, offset, chr, utf8, BodySize(r), fixed, names, exons,
                TranscriptOf(r, chr, utf8), offset + 4 + BodySize(r));
  }
}
