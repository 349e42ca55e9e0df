/** Reading one gene record of the `.gb` buffer, as
    `getTranscriptUsingOffset` in src/modules/tracks/genes-downloader.ts
    does: a record is decoded at an offset, kept when it has exons, and the
    offset after it is returned. */
module GeneRecords {
  import opened Wrappers
  import opened GeneBytes

  /** `getTranscriptUsingOffset`: offset 0 means "no record"; a record
      that fails to decode gives nothing and the offset unchanged; a
      decoded record is kept when it has exons, and the offset moves past
      it. */
  function TranscriptAt(gb: seq<Byte>, offset: nat, chr: string, utf8: Utf8): (r: (seq<Transcript>, nat))
    ensures |r.0| <= 1
    ensures r.0 != [] ==> r.0[0].exons != [] && r.0[0].chr == chr
    ensures r.0 != [] ==> offset + 4 <= |gb| && r.1 >= offset + 4
    ensures offset == 0 ==> r == ([], 0)
  {
    if offset == 0 then ([], 0)
    else
      var d := DecodeRecord(gb, offset, chr, utf8);
      if d.Failure? then ([], offset)
      else (if d.value.0.exons != [] then [d.value.0] else [], d.value.1)
  }

  /** A record that does not decode leaves the offset where it was. */
  lemma TranscriptAtFailure(gb: seq<Byte>, offset: nat, chr: string, utf8: Utf8)
    requires DecodeRecord(gb, offset, chr, utf8).Failure?
    ensures TranscriptAt(gb, offset, chr, utf8) == ([], offset)
  {
  }

  /** Reading a written record: its transcript (when it has exons) and the
      offset just past it, `4 + BodySize(r)` bytes on (RecordLength). */
  lemma TranscriptAtEncoded(gb: seq<Byte>, offset: nat, r: GeneRecord, chr: string, utf8: Utf8)
    requires offset > 0 && ValidRecord(r) && At(gb, offset, EncodeRecord(r))
    ensures TranscriptAt(gb, offset, chr, utf8) ==
            (if r.exons != [] then [TranscriptOf(r, chr, utf8)] else [], offset + 4 + BodySize(r))
  {
    DecodeEncode(gb, offset, r, chr, utf8);
    TranscriptAtDecoded(gb, offset, chr, utf8, TranscriptOf(r, chr, utf8), offset + 4 + BodySize(r));
  }

  /** A record that decodes is kept exactly when it has exons, and the
      offset moves to the one the decoder returns. */
  lemma TranscriptAtDecoded(gb: seq<Byte>, offset: nat, chr: string, utf8: Utf8, t: Transcript, next: nat)
    requires offset > 0 && DecodeRecord(gb, offset, chr, utf8) == Success((t, next))
    ensures TranscriptAt(gb, offset, chr, utf8) == (if t.exons != [] then [t] else [], next)
  {
  }

  /** `getTranscriptUsingOffset`: the record at a non-zero offset, kept
      when it has exons. */
  method GetTranscriptUsingOffset(gb: seq<Byte>, chr: string, offset: nat, utf8: Utf8)
    returns (ret: seq<Transcript>, next: nat)
    ensures (ret, next) == TranscriptAt(gb, offset, chr, utf8)
  {
    if offset == 0 {
      return [], offset;
    }
    var d := ReadRecord(gb, offset, chr, utf8);
    if d.Failure? {
      return [], offset;
    }
    var (transcript, after) := d.value;
    ret := if |transcript.exons| > 0 then [transcript] else [];
    next := after;
  }

  /** The body of `getTranscriptUsingOffset`'s `try`: field by field with
      a cursor; the next offset is `offset + 4 + block size`. */
  method ReadRecord(gb: seq<Byte>, offset: nat, chr: string, utf8: Utf8)
    returns (d: Result<(Transcript, nat), string>)
    ensures d == DecodeRecord(gb, offset, chr, utf8)
  {
    var blockSize := ReadUInt(gb, offset, 4);
    if blockSize.Failure? {
      return Failure(blockSize.error);
    }
    var fixed := DecodeFixed(gb, offset + 4);
    if fixed.Failure? {
      return Failure(fixed.error);
    }
    var names := ReadNames(gb, offset + 17, utf8);
    if names.Failure? {
      return Failure(names.error);
    }
    var exons := ReadTail(gb, names.value.3, chr, utf8);
    if exons.Failure? {
      return Failure(exons.error);
    }
    var (index, start, end, strand) := fixed.value;
    var t := Transcript(index, names.value.0, names.value.1, names.value.2, chr, start, end,
                        if strand > 0 then '+' else '-', exons.value.0);
    DecodeParts(gb, offset, chr, utf8, blockSize.value, fixed.value, names.value, exons.value,
                t, offset + 4 + blockSize.value);
    d := Success((t, offset + 4 + blockSize.value));
  }

  /** The u16 exon count, then the exons. */
  method ReadTail(gb: seq<Byte>, at: nat, chr: string, utf8: Utf8) returns (r: Result<(seq<Exon>, nat), string>)
    ensures r == DecodeTail(gb, at, chr, utf8)
  {
    var en := ReadUInt(gb, at, 2);
    if en.Failure? {
      return Failure(en.error);
    }
    r := ReadExons(gb, at + 2, en.value, chr, utf8);
  }

  /** The three string fields, each a length byte and its text. */
  method ReadNames(gb: seq<Byte>, at: nat, utf8: Utf8) returns (r: Result<(string, string, string, nat), string>)
    ensures r == DecodeNames(gb, at, utf8)
  {
    var id := DecodeText(gb, at, utf8);
    if id.Failure? {
      return Failure(id.error);
    }
    var geneId := DecodeText(gb, id.value.1, utf8);
    if geneId.Failure? {
      return Failure(geneId.error);
    }
    var geneSymbol := DecodeText(gb, geneId.value.1, utf8);
    if geneSymbol.Failure? {
      return Failure(geneSymbol.error);
    }
    DecodeNamesParts(gb, at, utf8, id.value, geneId.value, geneSymbol.value);
    r := Success((id.value.0, geneId.value.0, geneSymbol.value.0, geneSymbol.value.1));
  }

  /** `range(0, en).forEach(...)`: en exons from `at`, pushed one by one. */
  method ReadExons(gb: seq<Byte>, at: nat, en: nat, chr: string, utf8: Utf8)
    returns (r: Result<(seq<Exon>, nat), string>)
    ensures r == DecodeExons(gb, at, en, chr, utf8)
  {
    var exons: seq<Exon> := [];
    var cursor := at;
    for ei := 0 to en
      invariant DecodeExons(gb, at, ei, chr, utf8) == Success((exons, cursor))
    {
      var e := DecodeExon(gb, cursor, chr, utf8);
      if e.Failure? {
        DecodeExonsFail(gb, at, ei + 1, en, chr, utf8);
        return Failure(e.error);
      }
      DecodeExonsStep(gb, at, ei, chr, utf8, (exons, cursor), e.value);
      exons := exons + [e.value.0];
      cursor := e.value.1;
    }
    r := Success((exons, cursor));
  }

  /** What reading a record yields at each offset of one buffer, for one
      chromosome: `getTranscriptUsingOffset` with `gb` and `loc` fixed. */
  type Reader = nat -> (seq<Transcript>, nat)

  /** The reader of buffer `gb` for chromosome `chr`. */
  function RecordReader(gb: seq<Byte>, chr: string, utf8: Utf8): Reader {
    o => TranscriptAt(gb, o, chr, utf8)
  }

  /** A reader gives at most one transcript per offset, with exons and the
      chromosome asked for. */
  ghost predicate Yields(read: Reader, chr: string) {
    forall o: nat :: |read(o).0| <= 1 &&
      (read(o).0 != [] ==> read(o).0[0].exons != [] && read(o).0[0].chr == chr)
  }

  /** A reader finds records only below `size`, and each moves the offset
      forward. */
  ghost predicate Advances(read: Reader, size: nat) {
    forall o: nat :: read(o).0 != [] ==> o < size && o < read(o).1
  }

  /** The buffer reader yields transcripts of its chromosome and advances
      within the buffer. */
  lemma RecordReaderOk(gb: seq<Byte>, chr: string, utf8: Utf8)
    ensures Yields(RecordReader(gb, chr, utf8), chr)
    ensures Advances(RecordReader(gb, chr, utf8), |gb|)
  {
    forall o: nat ensures RecordReader(gb, chr, utf8)(o) == TranscriptAt(gb, o, chr, utf8) { }
  }
}
