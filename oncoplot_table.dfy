/** The mutation table `makeOncoPlot` builds
    (src/components/pages/modules/oncoplot/oncoplot-utils.ts): the sorted
    distinct samples and genes, and one count map per gene and sample that
    counts the mutation types of the rows naming both. */
module OncoplotTable {
  import opened Seqs
  import opened StrOrder
  import opened EventCounts
  import opened OncoplotEvents

  /** One row of the mutation table: the sample, gene and type columns,
      each as text. */
  datatype OncoRow = OncoRow(sample: string, gene: string, mutType: string)

  /** `[...new Set(xs)]`: the first occurrence of each value, in order. */
  function Distinct(xs: seq<string>): (r: seq<string>)
    ensures NoDups(r)
    ensures forall x :: x in r <==> x in xs
  {
    if xs == [] then []
    else
      var d := Distinct(xs[..|xs| - 1]);
      var x := xs[|xs| - 1];
      assert forall y :: y in xs <==> y in xs[..|xs| - 1] || y == x;
      if x in d then d else d + [x]
  }

  /** `samples`: the distinct samples, sorted. */
  function SampleNames(rows: seq<OncoRow>): (r: seq<string>) {
    SortStrings(Distinct(seq(|rows|, i requires 0 <= i < |rows| => rows[i].sample)))
  }

  /** `genes`: the distinct non-empty genes, sorted. */
  function GeneNames(rows: seq<OncoRow>): (r: seq<string>) {
    SortStrings(FilterIn(Distinct(seq(|rows|, i requires 0 <= i < |rows| => rows[i].gene)), [""], false))
  }

  /** The samples and genes are sorted, without repeats, and are exactly
      those of the rows (no empty gene). */
  lemma NamesSpec(rows: seq<OncoRow>)
    ensures var samples := SampleNames(rows);
            SortedBy(samples, Id) && NoDups(samples) &&
            forall x :: x in samples <==> exists i | 0 <= i < |rows| :: rows[i].sample == x
    ensures var genes := GeneNames(rows);
            SortedBy(genes, Id) && NoDups(genes) &&
            forall x :: x in genes <==> x != "" && exists i | 0 <= i < |rows| :: rows[i].gene == x
  {
    var ss := seq(|rows|, i requires 0 <= i < |rows| => rows[i].sample);
    var gs := seq(|rows|, i requires 0 <= i < |rows| => rows[i].gene);
    SortedKeys(Distinct(ss));
    SortedKeys(FilterIn(Distinct(gs), [""], false));
    forall x ensures x in ss <==> exists i | 0 <= i < |rows| :: rows[i].sample == x {
      if x in ss {
        var i :| 0 <= i < |ss| && ss[i] == x;
      }
      if exists i | 0 <= i < |rows| :: rows[i].sample == x {
        var i :| 0 <= i < |rows| && rows[i].sample == x;
        assert ss[i] == x;
      }
    }
    forall x ensures x in gs <==> exists i | 0 <= i < |rows| :: rows[i].gene == x {
      if x in gs {
        var i :| 0 <= i < |gs| && gs[i] == x;
      }
      if exists i | 0 <= i < |rows| :: rows[i].gene == x {
        var i :| 0 <= i < |rows| && rows[i].gene == x;
        assert gs[i] == x;
      }
    }
  }

  /** The position of x in xs (the index maps built from the names), or -1. */
  function Find(xs: seq<string>, x: string): (r: int)
    ensures -1 <= r < |xs|
    ensures r >= 0 ==> xs[r] == x
    ensures r < 0 <==> x !in xs
  {
    if xs == [] then -1
    else if xs[|xs| - 1] == x then |xs| - 1
    else
      assert forall y :: y in xs <==> y in xs[..|xs| - 1] || y == xs[|xs| - 1];
      Find(xs[..|xs| - 1], x)
  }

  /** A table of empty count maps, genes by samples. */
  function EmptyTable(nGenes: nat, nSamples: nat): (t: seq<seq<CountMap>>)
    ensures |t| == nGenes && forall g | 0 <= g < nGenes :: t[g] == seq(nSamples, s => Empty)
  {
    seq(nGenes, g => seq(nSamples, s => Empty))
  }

  /** Whether a row counts in the cell of gene g and sample s: its gene
      and sample are found there; with `skipFirst` the first gene is never
      counted, as `if (geneIndex)` does. */
  predicate Hits(row: OncoRow, genes: seq<string>, samples: seq<string>, g: nat, s: nat, skipFirst: bool) {
    Find(genes, row.gene) == g && Find(samples, row.sample) == s && (g != 0 || !skipFirst)
  }

  /** The cell of gene g and sample s after the first n rows: one more of
      each counted row's type. */
  function CellTally(rows: seq<OncoRow>, genes: seq<string>, samples: seq<string>, n: nat, g: nat, s: nat,
                     skipFirst: bool): CountMap
    requires n <= |rows|
  {
    if n == 0 then Empty
    else
      var c := CellTally(rows, genes, samples, n - 1, g, s, skipFirst);
      if Hits(rows[n - 1], genes, samples, g, s, skipFirst) then Added(c, rows[n - 1].mutType, 1.0) else c
  }

  /** The table after all rows, genes by samples. */
  function Tally(rows: seq<OncoRow>, genes: seq<string>, samples: seq<string>, skipFirst: bool): (t: seq<seq<CountMap>>)
    ensures |t| == |genes| && forall g | 0 <= g < |genes| :: |t[g]| == |samples|
  {
    seq(|genes|, g requires 0 <= g < |genes| =>
      seq(|samples|, s requires 0 <= s < |samples| => CellTally(rows, genes, samples, |rows|, g, s, skipFirst)))
  }

  /** The genes whose rows a tally counts: all of them, or all but the
      first with `skipFirst`. */
  function CountedGenes(genes: seq<string>, skipFirst: bool): (r: seq<string>)
    ensures |r| <= |genes|
  {
    if skipFirst && |genes| > 0 then genes[1..] else genes
  }

  /** Without repeats, the genes after the first are the listed ones
      other than the first. */
  lemma CountedGenesSpec(genes: seq<string>, x: string)
    requires NoDups(genes) && |genes| > 0
    ensures x in CountedGenes(genes, true) <==> x in genes && x != genes[0]
  {
    assert genes == [genes[0]] + genes[1..];
  }

  /** The rows before n with this sample, gene and type. */
  function CountRows(rows: seq<OncoRow>, n: nat, sample: string, gene: string, mutType: string): (c: nat)
    requires n <= |rows|
  {
    if n == 0 then 0
    else CountRows(rows, n - 1, sample, gene, mutType) + if rows[n - 1] == OncoRow(sample, gene, mutType) then 1 else 0
  }

  /** Every count of a map is positive. */
  predicate Positive(m: CountMap) {
    forall i | 0 <= i < |m.keys| :: Get(m, m.keys[i]) > 0.0
  }

  /** Every cell of a tally is a well-formed map of positive counts. */
  ghost predicate CellsOk(t: seq<seq<CountMap>>) {
    forall g, s | 0 <= g < |t| && 0 <= s < |t[g]| :: WellFormed(t[g][s]) && Positive(t[g][s])
  }

  /** Each cell counts, for every type, the rows of its gene, sample and
      type; with `skipFirst` the cells of the first gene count nothing. */
  lemma {:induction false} TallyCounts(rows: seq<OncoRow>, genes: seq<string>, samples: seq<string>, n: nat,
                                       g: nat, s: nat, e: string, skipFirst: bool)
    requires n <= |rows| && NoDups(genes) && NoDups(samples) && g < |genes| && s < |samples|
    ensures Get(CellTally(rows, genes, samples, n, g, s, skipFirst), e) ==
            if skipFirst && g == 0 then 0.0 else CountRows(rows, n, samples[s], genes[g], e) as real
  {
    if n > 0 {
      TallyCounts(rows, genes, samples, n - 1, g, s, e, skipFirst);
      var row := rows[n - 1];
      if skipFirst && g == 0 {
        assert !Hits(row, genes, samples, g, s, skipFirst);
      } else if Hits(row, genes, samples, g, s, skipFirst) {
        assert row == OncoRow(samples[s], genes[g], e) <==> e == row.mutType;
      } else {
        assert row != OncoRow(samples[s], genes[g], e);
      }
    }
  }

  /** In a list without repeats, x is found at k exactly when it is there. */
  lemma FindNoDups(xs: seq<string>, x: string, k: nat)
    requires NoDups(xs) && k < |xs|
    ensures Find(xs, x) == k <==> xs[k] == x
  {
  }

  /** Whether one of the first n rows names this gene and sample. */
  predicate Mentioned(rows: seq<OncoRow>, n: nat, gene: string, sample: string)
    requires n <= |rows|
  {
    exists i | 0 <= i < n :: rows[i].gene == gene && rows[i].sample == sample
  }

  /** A cell has events exactly when some row names its gene and sample. */
  lemma {:induction false} CellEvents(rows: seq<OncoRow>, genes: seq<string>, samples: seq<string>, n: nat, g: nat, s: nat,
                                      skipFirst: bool)
    requires n <= |rows| && NoDups(genes) && NoDups(samples) && g < |genes| && s < |samples|
    ensures CellTally(rows, genes, samples, n, g, s, skipFirst).keys != [] <==>
            (g != 0 || !skipFirst) && Mentioned(rows, n, genes[g], samples[s])
  {
    if n > 0 && skipFirst && g == 0 {
      FirstGeneEmpty(rows, genes, samples, n, s);
    } else if n > 0 {
      CellEvents(rows, genes, samples, n - 1, g, s, skipFirst);
      var c0 := CellTally(rows, genes, samples, n - 1, g, s, skipFirst);
      var row := rows[n - 1];
      FindNoDups(genes, row.gene, g);
      FindNoDups(samples, row.sample, s);
      if row.gene == genes[g] && row.sample == samples[s] {
        TallyCellOk(rows, genes, samples, n - 1, g, s, skipFirst);
        AddedSpec(c0, row.mutType, 1.0);
        assert Mentioned(rows, n, genes[g], samples[s]) by {
          assert rows[n - 1].gene == genes[g] && rows[n - 1].sample == samples[s];
        }
      } else {
        assert Mentioned(rows, n, genes[g], samples[s]) == Mentioned(rows, n - 1, genes[g], samples[s]) by {
          if Mentioned(rows, n, genes[g], samples[s]) {
            var i :| 0 <= i < n && rows[i].gene == genes[g] && rows[i].sample == samples[s];
            assert i < n - 1;
          }
        }
      }
    }
  }

  /** Some counted gene is named with sample x exactly when some row of a
      counted gene names x. */
  lemma SomeGeneMentioned(rows: seq<OncoRow>, genes: seq<string>, x: string, skipFirst: bool)
    ensures (exists g | 0 <= g < |genes| && (g != 0 || !skipFirst) :: Mentioned(rows, |rows|, genes[g], x)) <==>
            (exists i | 0 <= i < |rows| :: rows[i].sample == x && rows[i].gene in CountedGenes(genes, skipFirst))
  {
    var counted := CountedGenes(genes, skipFirst);
    var shift := if skipFirst && |genes| > 0 then 1 else 0;
    assert forall k | 0 <= k < |counted| :: counted[k] == genes[k + shift];
    if exists i | 0 <= i < |rows| :: rows[i].sample == x && rows[i].gene in counted {
      var i :| 0 <= i < |rows| && rows[i].sample == x && rows[i].gene in counted;
      var k :| 0 <= k < |counted| && counted[k] == rows[i].gene;
      assert Mentioned(rows, |rows|, genes[k + shift], x);
    }
    if exists g | 0 <= g < |genes| && (g != 0 || !skipFirst) :: Mentioned(rows, |rows|, genes[g], x) {
      var g :| 0 <= g < |genes| && (g != 0 || !skipFirst) && Mentioned(rows, |rows|, genes[g], x);
      var i :| 0 <= i < |rows| && rows[i].gene == genes[g] && rows[i].sample == x;
      assert counted[g - shift] == genes[g];
    }
  }

  /** Neither name list repeats a name. */
  lemma NamesNoDups(rows: seq<OncoRow>)
    ensures NoDups(GeneNames(rows)) && NoDups(SampleNames(rows))
  {
    NamesSpec(rows);
  }

  /** Every cell of the table is a well-formed map of positive counts. */
  lemma {:induction false} TallyCellOk(rows: seq<OncoRow>, genes: seq<string>, samples: seq<string>, n: nat,
                                       g: nat, s: nat, skipFirst: bool)
    requires n <= |rows|
    ensures WellFormed(CellTally(rows, genes, samples, n, g, s, skipFirst))
    ensures Positive(CellTally(rows, genes, samples, n, g, s, skipFirst))
  {
    if n > 0 {
      TallyCellOk(rows, genes, samples, n - 1, g, s, skipFirst);
      var row := rows[n - 1];
      if Hits(row, genes, samples, g, s, skipFirst) {
        AddedPositive(CellTally(rows, genes, samples, n - 1, g, s, skipFirst), row.mutType);
      }
    }
  }

  /** One more of an event keeps a map well formed and positive. */
  lemma AddedPositive(c: CountMap, e: string)
    requires WellFormed(c) && Positive(c)
    ensures WellFormed(Added(c, e, 1.0)) && Positive(Added(c, e, 1.0))
  {
    AddedSpec(c, e, 1.0);
    var r := Added(c, e, 1.0);
    forall i | 0 <= i < |r.keys| ensures Get(r, r.keys[i]) > 0.0 {
      if r.keys[i] != e {
        assert r.keys[i] == c.keys[i];
      }
    }
  }

  /** The whole table is made of well-formed maps of positive counts. */
  lemma TallyOk(rows: seq<OncoRow>, genes: seq<string>, samples: seq<string>, skipFirst: bool)
    ensures CellsOk(Tally(rows, genes, samples, skipFirst))
  {
    var t := Tally(rows, genes, samples, skipFirst);
    forall g, s | 0 <= g < |t| && 0 <= s < |t[g]| ensures WellFormed(t[g][s]) && Positive(t[g][s]) {
      TallyCellOk(rows, genes, samples, |rows|, g, s, skipFirst);
    }
  }

  /** `if (geneIndex)` is false for the first gene's index 0: every cell
      of the first gene stays empty, whatever the rows. */
  lemma {:induction false} FirstGeneEmpty(rows: seq<OncoRow>, genes: seq<string>, samples: seq<string>, n: nat, s: nat)
    requires n <= |rows|
    ensures CellTally(rows, genes, samples, n, 0, s, true) == Empty
  {
    if n > 0 {
      FirstGeneEmpty(rows, genes, samples, n - 1, s);
    }
  }

  /** A single row "S1", "A", "SNP" leaves the table as written empty,
      where the intended table counts one SNP. */
  lemma FirstGeneDropped()
    ensures var rows := [OncoRow("S1", "A", "SNP")];
            Tally(rows, ["A"], ["S1"], true) == [[Empty]] &&
            Get(Tally(rows, ["A"], ["S1"], false)[0][0], "SNP") == 1.0
  {
    var rows := [OncoRow("S1", "A", "SNP")];
    assert Find(["A"], "A") == 0 && Find(["S1"], "S1") == 0;
    assert CellTally(rows, ["A"], ["S1"], 1, 0, 0, true) == Empty;
    assert Tally(rows, ["A"], ["S1"], true)[0] == [Empty];
  }

  /** `oncotable[g][s].set(mutType)`: one more of the type in that cell,
      every other cell unchanged. */
  function Bump(t: seq<seq<CountMap>>, g: nat, s: nat, mutType: string): (r: seq<seq<CountMap>>)
    requires g < |t| && s < |t[g]|
    ensures |r| == |t| && forall k | 0 <= k < |t| :: |r[k]| == |t[k]|
    ensures forall k, j | 0 <= k < |t| && 0 <= j < |t[k]| ::
              r[k][j] == if k == g && j == s then Added(t[g][s], mutType, 1.0) else t[k][j]
  {
    t[g := t[g][s := Added(t[g][s], mutType, 1.0)]]
  }

  /** Counting row i as the loop does turns the table of the first i rows
      into that of the first i + 1. */
  lemma TallyStep(rows: seq<OncoRow>, genes: seq<string>, samples: seq<string>, i: nat, t: seq<seq<CountMap>>)
    requires i < |rows|
    requires |t| == |genes| && forall g | 0 <= g < |genes| :: |t[g]| == |samples|
    requires forall g, s | 0 <= g < |genes| && 0 <= s < |samples| :: t[g][s] == CellTally(rows, genes, samples, i, g, s, true)
    ensures var row := rows[i];
            var g, s := Find(genes, row.gene), Find(samples, row.sample);
            var next := if g > 0 && s >= 0 then Bump(t, g, s, row.mutType) else t;
            |next| == |genes| && (forall g | 0 <= g < |genes| :: |next[g]| == |samples|) &&
            forall k, j | 0 <= k < |genes| && 0 <= j < |samples| :: next[k][j] == CellTally(rows, genes, samples, i + 1, k, j, true)
  {
  }

  /** The loop over the rows of `makeOncoPlot`, counting every row of a
      known gene into the cell of its gene and sample; `if (geneIndex)`
      also passes over the first gene, whose index is 0. */
  method BuildTable(rows: seq<OncoRow>, genes: seq<string>, samples: seq<string>) returns (t: seq<seq<CountMap>>)
    ensures t == Tally(rows, genes, samples, true)
  {
    t := EmptyTable(|genes|, |samples|);
    for i := 0 to |rows|
      invariant |t| == |genes| && forall g | 0 <= g < |genes| :: |t[g]| == |samples|
      invariant forall g, s | 0 <= g < |genes| && 0 <= s < |samples| :: t[g][s] == CellTally(rows, genes, samples, i, g, s, true)
    {
      var row := rows[i];
      var s := Find(samples, row.sample);
      var g := Find(genes, row.gene);
      TallyStep(rows, genes, samples, i, t);
      if g > 0 && s >= 0 {
        t := Bump(t, g, s, row.mutType);
      }
    }
    forall g | 0 <= g < |genes| ensures t[g] == Tally(rows, genes, samples, true)[g] {
    }
  }
}
