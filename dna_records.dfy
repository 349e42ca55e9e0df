/** The record structure `dnaToJson` of src/modules/genomic/dna.ts writes
    for a list of fetched sequences (the JSON text itself is not part of
    this model). */
module DnaRecords {
  import opened Genomic

  /** `IDNA`: a location and the bases read there. */
  datatype Dna = Dna(location: GenomicLocation, bases: string)

  /** One element of the array `dnaToJson` serialises. */
  datatype DnaRecord = DnaRecord(chr: string, start: int, end: int, dna: string)

  /** The record of one sequence. */
  function RecordOf(d: Dna): DnaRecord {
    DnaRecord(d.location.chr, d.location.start, d.location.end, d.bases)
  }

  /** `dnaToJson`: one record per sequence, in input order. */
  function DnaToJson(seqs: seq<Dna>): (r: seq<DnaRecord>)
    ensures |r| == |seqs|
  {
    seq(|seqs|, i requires 0 <= i < |seqs| => RecordOf(seqs[i]))
  }

  /** The sequence a record describes. */
  function DnaOf(r: DnaRecord): Dna {
    Dna(GenomicLocation(r.chr, r.start, r.end), r.dna)
  }

  /** The records keep every field: reading them back gives the input
      list, in order. */
  lemma DnaToJsonRoundTrip(seqs: seq<Dna>)
    ensures seq(|seqs|, i requires 0 <= i < |seqs| => DnaOf(DnaToJson(seqs)[i])) == seqs
  {
  }

  /** Records of a concatenation are the concatenated records. */
  lemma DnaToJsonAppend(a: seq<Dna>, b: seq<Dna>)
    ensures DnaToJson(a + b) == DnaToJson(a) + DnaToJson(b)
  {
  }
}
