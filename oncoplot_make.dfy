/** `makeOncoPlot` of src/components/pages/modules/oncoplot/oncoplot-utils.ts:
    from the rows of a mutation table to the oncoplot frame (cells and
    margins, optionally without empty samples and in memo-sort order) and
    its legend. */
module OncoplotMake {
  import opened Seqs
  import opened StrOrder
  import opened EventCounts
  import opened OncoplotEvents
  import opened OncoplotTable
  import opened OncoplotMargins
  import opened OncoplotFrame
  import opened MemoSort

  // ---------------------------------------------------------------- stages

  /** The table of the rows is rectangular and its cells positive. */
  lemma TallyRect(rows: seq<OncoRow>, genes: seq<string>, samples: seq<string>)
    ensures Rect(Tally(rows, genes, samples, true), |samples|)
  {
    TallyOk(rows, genes, samples, true);
  }

  /** The statistics of every gene, as `createMarginals` leaves them. */
  function GeneMargins(table: seq<seq<CountMap>>, nSamples: nat, mode: MultiMode): (r: seq<CountMap>)
    requires Rect(table, nSamples)
    ensures |r| == |table| && forall g | 0 <= g < |table| :: r[g] == RowMargin(table, nSamples, g, nSamples, mode)
  {
    seq(|table|, g requires 0 <= g < |table| => RowMargin(table, nSamples, g, nSamples, mode))
  }

  /** The statistics of every sample, as `createMarginals` leaves them. */
  function SampleMargins(table: seq<seq<CountMap>>, nSamples: nat, mode: MultiMode): (r: seq<CountMap>)
    requires Rect(table, nSamples)
    ensures |r| == nSamples && forall s | 0 <= s < nSamples :: r[s] == ColMargin(table, nSamples, s, |table|, mode)
  {
    seq(nSamples, s requires 0 <= s < nSamples => ColMargin(table, nSamples, s, |table|, mode))
  }

  /** The positions `removeEmpty` keeps: the samples whose statistics sum
      to more than 0. */
  function KeptSamples(sampleStats: seq<CountMap>): (r: seq<nat>)
    ensures forall i | 0 <= i < |r| :: r[i] < |sampleStats| && SumCounts(sampleStats[r[i]]) > 0.0
    ensures forall s | 0 <= s < |sampleStats| && SumCounts(sampleStats[s]) > 0.0 :: s in r
    ensures Increasing(r)
  {
    IndicesWhere(|sampleStats|, (s: nat) => s < |sampleStats| && SumCounts(sampleStats[s]) > 0.0)
  }

  /** `xs.filter((_, i) => keep.has(i))` for ascending positions `keep`. */
  function Pick<T>(xs: seq<T>, keep: seq<nat>): (r: seq<T>)
    requires forall i | 0 <= i < |keep| :: keep[i] < |xs|
    ensures |r| == |keep| && forall i | 0 <= i < |keep| :: r[i] == xs[keep[i]]
  {
    seq(|keep|, i requires 0 <= i < |keep| => xs[keep[i]])
  }

  /** The kept columns of every row of the table. */
  function PickColumns(table: seq<seq<CountMap>>, nSamples: nat, keep: seq<nat>): (r: seq<seq<CountMap>>)
    requires forall g | 0 <= g < |table| :: |table[g]| == nSamples
    requires forall i | 0 <= i < |keep| :: keep[i] < nSamples
    ensures |r| == |table| && forall g | 0 <= g < |table| :: r[g] == Pick(table[g], keep)
  {
    seq(|table|, g requires 0 <= g < |table| => Pick(table[g], keep))
  }

  /** The cells of the frame: each count map with its gene and sample. */
  function Cells(genes: seq<string>, samples: seq<string>, table: seq<seq<CountMap>>): (r: seq<seq<CellStats>>)
    requires |table| == |genes| && forall g | 0 <= g < |genes| :: |table[g]| == |samples|
    ensures |r| == |genes| && forall g | 0 <= g < |genes| :: |r[g]| == |samples|
    ensures forall g, s | 0 <= g < |genes| && 0 <= s < |samples| :: r[g][s] == CellStats(genes[g], samples[s], table[g][s])
  {
    seq(|genes|, g requires 0 <= g < |genes| =>
      seq(|samples|, s requires 0 <= s < |samples| => CellStats(genes[g], samples[s], table[g][s])))
  }

  /** The margins of the frame: each count map under its name. */
  function Named(names: seq<string>, stats: seq<CountMap>): (r: seq<CellStats>)
    requires |names| == |stats|
    ensures |r| == |names| && forall i | 0 <= i < |names| :: r[i] == CellStats(names[i], names[i], stats[i])
  {
    seq(|names|, i requires 0 <= i < |names| => CellStats(names[i], names[i], stats[i]))
  }

  /** `df._data[g][c].sum > 0` for every cell. */
  function PresentOf(data: seq<seq<CellStats>>): (r: seq<seq<bool>>)
    ensures |r| == |data| && forall g | 0 <= g < |data| :: |r[g]| == |data[g]|
    ensures forall g, s | 0 <= g < |data| && 0 <= s < |data[g]| :: r[g][s] == (SumCounts(data[g][s].counts) > 0.0)
  {
    seq(|data|, g requires 0 <= g < |data| =>
      seq(|data[g]|, s requires 0 <= s < |data[g]| => SumCounts(data[g][s].counts) > 0.0))
  }

  /** `stats.sum` for every gene. */
  function SumsOf(stats: seq<CellStats>): (r: seq<real>)
    ensures |r| == |stats| && forall i | 0 <= i < |stats| :: r[i] == SumCounts(stats[i].counts)
  {
    seq(|stats|, i requires 0 <= i < |stats| => SumCounts(stats[i].counts))
  }

  /** `ret.setGeneOrder(geneOrder).setSampleOrder(sampleOrder)` with the
      orders `memoSort(ret)` returns. */
  function Sorted(f: MutationFrame): MutationFrame {
    var (go, so) := MemoSort.MemoSort(SumsOf(f.geneStats), PresentOf(f.data), |f.sampleOrder|);
    SetSampleOrder(SetGeneOrder(f, go), so)
  }

  /** The frame built from the names, the table and the margins, sorted on
      request. */
  function Arrange(genes: seq<string>, samples: seq<string>, table: seq<seq<CountMap>>, geneStats: seq<CountMap>,
                   sampleStats: seq<CountMap>, sort: bool): MutationFrame
    requires |table| == |genes| == |geneStats| && |sampleStats| == |samples|
    requires forall g | 0 <= g < |genes| :: |table[g]| == |samples|
  {
    var f := NewFrame(Cells(genes, samples, table), Named(genes, geneStats), Named(samples, sampleStats), [], []);
    if sort then Sorted(f) else f
  }

  /** The frame `makeOncoPlot` returns for the rows. */
  function PlotFrame(rows: seq<OncoRow>, mode: MultiMode, sort: bool, removeEmpty: bool): MutationFrame {
    var samples := SampleNames(rows);
    var genes := GeneNames(rows);
    var table := Tally(rows, genes, samples, true);
    TallyRect(rows, genes, samples);
    var geneStats := GeneMargins(table, |samples|, mode);
    var sampleStats := SampleMargins(table, |samples|, mode);
    if removeEmpty then
      var keep := KeptSamples(sampleStats);
      Arrange(genes, Pick(samples, keep), PickColumns(table, |samples|, keep), geneStats, Pick(sampleStats, keep), sort)
    else Arrange(genes, samples, table, geneStats, sampleStats, sort)
  }

  // ---------------------------------------------------------------- legend

  /** Whether x is an event of one of the first n maps. */
  predicate InMaps(x: string, ms: seq<CellStats>, n: nat)
    requires n <= |ms|
  {
    n > 0 && (InMaps(x, ms, n - 1) || x in ms[n - 1].counts.keys)
  }

  /** Whether x is an event of the statistics or of a cell of one of the
      first g genes. */
  predicate InGenes(x: string, geneStats: seq<CellStats>, data: seq<seq<CellStats>>, nSamples: nat, g: nat)
    requires g <= |geneStats| == |data| && Rectangular(data, nSamples)
  {
    g > 0 && (InGenes(x, geneStats, data, nSamples, g - 1) || x in geneStats[g - 1].counts.keys ||
              InMaps(x, data[g - 1], nSamples))
  }

  /** Whether x is an event anywhere in the frame's table or margins. */
  predicate InUse(x: string, f: MutationFrame)
    requires |f.data| == |f.geneStats| && Rectangular(f.data, |f.sampleStats|)
  {
    InGenes(x, f.geneStats, f.data, |f.sampleStats|, |f.geneStats|) || InMaps(x, f.sampleStats, |f.sampleStats|)
  }

  /** `allEventsInUse.add(event)` for every event of a map. */
  method AddKeys(events: seq<string>, keys: seq<string>) returns (r: seq<string>)
    requires NoDups(events)
    ensures NoDups(r)
    ensures forall x :: x in r <==> x in events || x in keys
  {
    r := events;
    for i := 0 to |keys|
      invariant NoDups(r)
      invariant forall x :: x in r <==> x in events || x in keys[..i]
    {
      assert keys[..i + 1] == keys[..i] + [keys[i]];
      if keys[i] !in r {
        r := r + [keys[i]];
      }
    }
    assert keys[..|keys|] == keys;
  }

  /** The loops that gather `allEventsInUse`: the events of each gene's
      statistics and cells, then of each sample's statistics, each once. */
  method CollectEvents(f: MutationFrame) returns (events: seq<string>)
    requires |f.data| == |f.geneStats| && Rectangular(f.data, |f.sampleStats|)
    ensures NoDups(events)
    ensures forall x :: x in events <==> InUse(x, f)
  {
    var nSamples := |f.sampleStats|;
    events := [];
    for g := 0 to |f.geneStats|
      invariant NoDups(events)
      invariant forall x :: x in events <==> InGenes(x, f.geneStats, f.data, nSamples, g)
    {
      events := AddKeys(events, f.geneStats[g].counts.keys);
      for s := 0 to nSamples
        invariant NoDups(events)
        invariant forall x :: x in events <==>
                    InGenes(x, f.geneStats, f.data, nSamples, g) || x in f.geneStats[g].counts.keys ||
                    InMaps(x, f.data[g], s)
      {
        events := AddKeys(events, f.data[g][s].counts.keys);
      }
    }
    for s := 0 to nSamples
      invariant NoDups(events)
      invariant forall x :: x in events <==>
                  InGenes(x, f.geneStats, f.data, nSamples, |f.geneStats|) || InMaps(x, f.sampleStats, s)
    {
      events := AddKeys(events, f.sampleStats[s].counts.keys);
    }
  }

  // ---------------------------------------------------------------- makeOncoPlot

  /** `makeOncoPlot(df, columns, multi, sort, removeEmpty, oncoProps)`: the
      frame, the legend names and the legend colours. */
  method MakeOncoPlot(rows: seq<OncoRow>, mode: MultiMode, sort: bool, removeEmpty: bool, plotorder: seq<string>)
      returns (frame: MutationFrame, legend: seq<string>, colors: map<string, string>)
    ensures frame == PlotFrame(rows, mode, sort, removeEmpty)
    ensures |frame.data| == |frame.geneStats| && Rectangular(frame.data, |frame.sampleStats|)
    ensures forall x :: x in legend <==> InUse(x, frame)
    ensures NoDups(plotorder) ==> NoDups(legend)
    ensures var ordered := FilterIn(plotorder, legend, true);
            |ordered| <= |legend| && legend[..|ordered|] == ordered && SortedBy(legend[|ordered|..], Id) &&
            forall x | x in legend[|ordered|..] :: x !in plotorder
    ensures colors == LegendColors(legend)
  {
    frame := MakeFrame(rows, mode, sort, removeEmpty);
    var events;
    events, legend, colors := MakeLegend(frame, plotorder);
    OrderEventsSpec(events, plotorder);
    FilterSameMembers(plotorder, events, legend, true);
  }

  /** The frame part of `makeOncoPlot`: the table, its margins, the
      optional removal of empty samples and the optional memo sort. */
  method MakeFrame(rows: seq<OncoRow>, mode: MultiMode, sort: bool, removeEmpty: bool) returns (frame: MutationFrame)
    ensures frame == PlotFrame(rows, mode, sort, removeEmpty)
    ensures |frame.data| == |frame.geneStats| && Rectangular(frame.data, |frame.sampleStats|)
  {
    var genes, samples, table, geneStats, sampleStats := MakeTables(rows, mode);
    if removeEmpty {
      var keep := KeptSamples(sampleStats);
      table := PickColumns(table, |samples|, keep);
      samples := Pick(samples, keep);
      sampleStats := Pick(sampleStats, keep);
    }
    frame := NewFrame(Cells(genes, samples, table), Named(genes, geneStats), Named(samples, sampleStats), [], []);
    if sort {
      frame := Sorted(frame);
    }
    assert frame == Arrange(genes, samples, table, geneStats, sampleStats, sort);
  }

  /** The names, the table and the margins `makeOncoPlot` computes first. */
  method MakeTables(rows: seq<OncoRow>, mode: MultiMode)
      returns (genes: seq<string>, samples: seq<string>, table: seq<seq<CountMap>>, geneStats: seq<CountMap>,
               sampleStats: seq<CountMap>)
    ensures genes == GeneNames(rows) && samples == SampleNames(rows)
    ensures table == Tally(rows, genes, samples, true) && Rect(table, |samples|)
    ensures geneStats == GeneMargins(table, |samples|, mode)
    ensures sampleStats == SampleMargins(table, |samples|, mode)
  {
    samples := SampleNames(rows);
    genes := GeneNames(rows);
    table := BuildTable(rows, genes, samples);
    TallyRect(rows, genes, samples);
    geneStats, sampleStats := CreateMarginals(table, |samples|, mode);
  }

  /** The legend part of `makeOncoPlot`: the events in use, each once; the
      legend names them in legend order, each with its colour. */
  method MakeLegend(frame: MutationFrame, plotorder: seq<string>)
      returns (events: seq<string>, legend: seq<string>, colors: map<string, string>)
    requires |frame.data| == |frame.geneStats| && Rectangular(frame.data, |frame.sampleStats|)
    ensures NoDups(events) && forall x :: x in events <==> InUse(x, frame)
    ensures legend == OrderEvents(events, plotorder)
    ensures colors == LegendColors(legend)
  {
    events := CollectEvents(frame);
    legend := OrderEvents(events, plotorder);
    colors := LegendColors(legend);
  }

  // ---------------------------------------------------------------- properties

  /** Every position below n, in order. */
  function AllPositions(n: nat): (r: seq<nat>)
    ensures |r| == n && forall i | 0 <= i < n :: r[i] == i
  {
    seq(n, i => i)
  }

  /** The positions of the samples the frame keeps. */
  function Kept(rows: seq<OncoRow>, mode: MultiMode, removeEmpty: bool): (r: seq<nat>)
    ensures forall i | 0 <= i < |r| :: r[i] < |SampleNames(rows)|
  {
    var samples := SampleNames(rows);
    var table := Tally(rows, GeneNames(rows), samples, true);
    TallyRect(rows, GeneNames(rows), samples);
    if removeEmpty then KeptSamples(SampleMargins(table, |samples|, mode)) else AllPositions(|samples|)
  }

  /** Keeping every position keeps everything. */
  lemma PickAll<T>(xs: seq<T>)
    ensures Pick(xs, AllPositions(|xs|)) == xs
  {
  }

  /** The frame holds the cells and margins it is built from, sorted or
      not. */
  lemma ArrangeParts(genes: seq<string>, samples: seq<string>, table: seq<seq<CountMap>>, geneStats: seq<CountMap>,
                     sampleStats: seq<CountMap>, sort: bool)
    requires |table| == |genes| == |geneStats| && |sampleStats| == |samples|
    requires forall g | 0 <= g < |genes| :: |table[g]| == |samples|
    ensures var f := Arrange(genes, samples, table, geneStats, sampleStats, sort);
            f.data == Cells(genes, samples, table) && f.geneStats == Named(genes, geneStats) &&
            f.sampleStats == Named(samples, sampleStats)
  {
  }

  /** The frame is arranged from the kept samples: all of them, or those
      `removeEmpty` keeps. */
  lemma PlotFrameArranged(rows: seq<OncoRow>, mode: MultiMode, sort: bool, removeEmpty: bool)
    ensures var genes, samples := GeneNames(rows), SampleNames(rows);
            var table := Tally(rows, genes, samples, true);
            var keep := Kept(rows, mode, removeEmpty);
            Rect(table, |samples|) &&
            PlotFrame(rows, mode, sort, removeEmpty) ==
            Arrange(genes, Pick(samples, keep), PickColumns(table, |samples|, keep), GeneMargins(table, |samples|, mode),
                    Pick(SampleMargins(table, |samples|, mode), keep), sort)
  {
    var genes, samples := GeneNames(rows), SampleNames(rows);
    var table := Tally(rows, genes, samples, true);
    TallyRect(rows, genes, samples);
    var keep := Kept(rows, mode, removeEmpty);
    if !removeEmpty {
      PickAll(samples);
      PickAll(SampleMargins(table, |samples|, mode));
      assert PickColumns(table, |samples|, keep) == table by {
        forall g | 0 <= g < |genes| ensures Pick(table[g], keep) == table[g] {
          PickAll(table[g]);
        }
      }
    }
  }

  /** What the frame holds: a row of cells per gene, with the cell of each
      kept sample, the statistics of every gene and of every kept sample. */
  lemma PlotFrameParts(rows: seq<OncoRow>, mode: MultiMode, sort: bool, removeEmpty: bool)
    ensures var f := PlotFrame(rows, mode, sort, removeEmpty);
            var genes, samples := GeneNames(rows), SampleNames(rows);
            var table := Tally(rows, genes, samples, true);
            var keep := Kept(rows, mode, removeEmpty);
            Rect(table, |samples|) &&
            f.data == Cells(genes, Pick(samples, keep), PickColumns(table, |samples|, keep)) &&
            f.geneStats == Named(genes, GeneMargins(table, |samples|, mode)) &&
            f.sampleStats == Named(Pick(samples, keep), Pick(SampleMargins(table, |samples|, mode), keep))
  {
    var genes, samples := GeneNames(rows), SampleNames(rows);
    var table := Tally(rows, genes, samples, true);
    var keep := Kept(rows, mode, removeEmpty);
    PlotFrameArranged(rows, mode, sort, removeEmpty);
    ArrangeParts(genes, Pick(samples, keep), PickColumns(table, |samples|, keep), GeneMargins(table, |samples|, mode),
                 Pick(SampleMargins(table, |samples|, mode), keep), sort);
  }

  /** Each cell of the frame belongs to a gene and a sample of the rows,
      and counts, for every type, the rows of its gene, sample and type;
      the cells of the first gene count nothing. */
  lemma PlotCells(rows: seq<OncoRow>, mode: MultiMode, sort: bool, removeEmpty: bool, g: nat, s: nat, e: string)
    requires var f := PlotFrame(rows, mode, sort, removeEmpty); g < |f.data| && s < |f.data[g]|
    ensures var c := PlotFrame(rows, mode, sort, removeEmpty).data[g][s];
            c.gene == GeneNames(rows)[g] && c.sample in SampleNames(rows) &&
            Get(c.counts, e) == if g == 0 then 0.0 else CountRows(rows, |rows|, c.sample, c.gene, e) as real
  {
    var genes, samples := GeneNames(rows), SampleNames(rows);
    var keep := Kept(rows, mode, removeEmpty);
    PlotFrameParts(rows, mode, sort, removeEmpty);
    NamesSpec(rows);
    TallyCounts(rows, genes, samples, |rows|, g, keep[s], e, true);
  }

  /** The statistics of a gene add up to the number of samples in which
      the gene has a row, whatever the multi mode. */
  lemma PlotGeneMargins(rows: seq<OncoRow>, mode: MultiMode, sort: bool, removeEmpty: bool, g: nat)
    requires g < |PlotFrame(rows, mode, sort, removeEmpty).geneStats|
    ensures var genes, samples := GeneNames(rows), SampleNames(rows);
            var c := PlotFrame(rows, mode, sort, removeEmpty).geneStats[g];
            c.gene == genes[g] && WellFormed(c.counts) &&
            SumCounts(c.counts) == CountNonEmpty(Tally(rows, genes, samples, true)[g], |samples|) as real
  {
    var genes, samples := GeneNames(rows), SampleNames(rows);
    var table := Tally(rows, genes, samples, true);
    PlotFrameParts(rows, mode, sort, removeEmpty);
    forall s | 0 <= s < |samples| ensures WellFormed(table[g][s]) {
      TallyCellOk(rows, genes, samples, |rows|, g, s, true);
    }
    RowMarginSum(table, |samples|, g, |samples|, mode);
  }

  /** The statistics of a kept sample add up to the number of genes with a
      row in that sample, whatever the multi mode. */
  lemma PlotSampleMargins(rows: seq<OncoRow>, mode: MultiMode, sort: bool, removeEmpty: bool, s: nat)
    requires s < |PlotFrame(rows, mode, sort, removeEmpty).sampleStats|
    ensures var genes, samples := GeneNames(rows), SampleNames(rows);
            var table := Tally(rows, genes, samples, true);
            var c := PlotFrame(rows, mode, sort, removeEmpty).sampleStats[s];
            var j := Kept(rows, mode, removeEmpty)[s];
            Rect(table, |samples|) && c.sample == samples[j] && WellFormed(c.counts) &&
            SumCounts(c.counts) == CountNonEmpty(Column(table, j), |genes|) as real
  {
    var genes, samples := GeneNames(rows), SampleNames(rows);
    var table := Tally(rows, genes, samples, true);
    var j := Kept(rows, mode, removeEmpty)[s];
    PlotFrameParts(rows, mode, sort, removeEmpty);
    forall g | 0 <= g < |table| ensures WellFormed(table[g][j]) {
      TallyCellOk(rows, genes, samples, |rows|, g, j, true);
    }
    ColMarginSum(table, |samples|, j, |genes|, mode);
  }

  /** With `removeEmpty`, the frame keeps exactly the samples that have a
      row of a named (non-empty) gene other than the first in sorted
      order. */
  lemma RemoveEmptyKeeps(rows: seq<OncoRow>, mode: MultiMode, sort: bool, x: string)
    ensures var f := PlotFrame(rows, mode, sort, true);
            (exists s | 0 <= s < |f.sampleStats| :: f.sampleStats[s].sample == x) <==>
            (exists i | 0 <= i < |rows| :: rows[i].sample == x && rows[i].gene in CountedGenes(GeneNames(rows), true))
  {
    var f := PlotFrame(rows, mode, sort, true);
    if exists s | 0 <= s < |f.sampleStats| :: f.sampleStats[s].sample == x {
      var s :| 0 <= s < |f.sampleStats| && f.sampleStats[s].sample == x;
      KeptHasRow(rows, mode, sort, s);
    }
    if exists i | 0 <= i < |rows| :: rows[i].sample == x && rows[i].gene in CountedGenes(GeneNames(rows), true) {
      var i :| 0 <= i < |rows| && rows[i].sample == x && rows[i].gene in CountedGenes(GeneNames(rows), true);
      RowIsKept(rows, mode, sort, i);
    }
  }

  /** The statistics of sample j sum to more than 0 exactly when a row of
      a listed gene other than the first names the sample. */
  lemma ColumnSum(rows: seq<OncoRow>, genes: seq<string>, samples: seq<string>, j: nat, mode: MultiMode)
    requires NoDups(genes) && NoDups(samples) && j < |samples|
    ensures var table := Tally(rows, genes, samples, true);
            Rect(table, |samples|) &&
            (SumCounts(ColMargin(table, |samples|, j, |genes|, mode)) > 0.0 <==>
             exists i | 0 <= i < |rows| :: rows[i].sample == samples[j] && rows[i].gene in CountedGenes(genes, true))
  {
    var table := Tally(rows, genes, samples, true);
    TallyRect(rows, genes, samples);
    forall g | 0 <= g < |table| ensures WellFormed(table[g][j]) {
      TallyCellOk(rows, genes, samples, |rows|, g, j, true);
    }
    SampleSumPositive(table, |samples|, j, mode);
    forall g | 0 <= g < |genes|
      ensures table[g][j].keys != [] <==> g != 0 && Mentioned(rows, |rows|, genes[g], samples[j])
    {
      CellEvents(rows, genes, samples, |rows|, g, j, true);
    }
    SomeGeneMentioned(rows, genes, samples[j], true);
  }

  /** The statistics of a sample sum to more than 0 exactly when the
      sample has a row of a named gene other than the first in sorted
      order. */
  lemma SampleHasEvents(rows: seq<OncoRow>, mode: MultiMode, j: nat)
    requires j < |SampleNames(rows)|
    ensures var genes, samples := GeneNames(rows), SampleNames(rows);
            var table := Tally(rows, genes, samples, true);
            Rect(table, |samples|) &&
            (SumCounts(ColMargin(table, |samples|, j, |genes|, mode)) > 0.0 <==>
             exists i | 0 <= i < |rows| :: rows[i].sample == samples[j] && rows[i].gene in CountedGenes(genes, true))
  {
    NamesNoDups(rows);
    ColumnSum(rows, GeneNames(rows), SampleNames(rows), j, mode);
  }

  /** A sample kept by `removeEmpty` has a row of a counted gene. */
  lemma KeptHasRow(rows: seq<OncoRow>, mode: MultiMode, sort: bool, s: nat)
    requires s < |PlotFrame(rows, mode, sort, true).sampleStats|
    ensures exists i | 0 <= i < |rows| ::
              rows[i].sample == PlotFrame(rows, mode, sort, true).sampleStats[s].sample &&
              rows[i].gene in CountedGenes(GeneNames(rows), true)
  {
    var genes, samples := GeneNames(rows), SampleNames(rows);
    var table := Tally(rows, genes, samples, true);
    var keep := Kept(rows, mode, true);
    PlotFrameParts(rows, mode, sort, true);
    var j := keep[s];
    SampleHasEvents(rows, mode, j);
    assert SumCounts(ColMargin(table, |samples|, j, |table|, mode)) > 0.0 by {
      assert keep == KeptSamples(SampleMargins(table, |samples|, mode));
    }
    assert PlotFrame(rows, mode, sort, true).sampleStats[s].sample == samples[j];
  }

  /** A row of a counted gene keeps its sample under `removeEmpty`. */
  lemma RowIsKept(rows: seq<OncoRow>, mode: MultiMode, sort: bool, i: nat)
    requires i < |rows| && rows[i].gene in CountedGenes(GeneNames(rows), true)
    ensures var f := PlotFrame(rows, mode, sort, true);
            exists s | 0 <= s < |f.sampleStats| :: f.sampleStats[s].sample == rows[i].sample
  {
    var genes, samples := GeneNames(rows), SampleNames(rows);
    var table := Tally(rows, genes, samples, true);
    var keep := Kept(rows, mode, true);
    assert rows[i].sample in samples by {
      NamesSpec(rows);
    }
    var j :| 0 <= j < |samples| && samples[j] == rows[i].sample;
    SampleHasEvents(rows, mode, j);
    PlotFrameParts(rows, mode, sort, true);
    assert j in keep by {
      assert keep == KeptSamples(SampleMargins(table, |samples|, mode));
    }
    var s :| 0 <= s < |keep| && keep[s] == j;
    assert PlotFrame(rows, mode, sort, true).sampleStats[s].sample == rows[i].sample;
  }

  /** Sorting a new frame orders its genes by non-increasing sum and its
      samples by non-increasing memo score, both as permutations. */
  lemma SortedOrders(f: MutationFrame)
    requires f.sampleOrder == Range(0, |f.sampleStats|)
    ensures var r := Sorted(f);
            r.data == f.data && r.geneStats == f.geneStats && r.sampleStats == f.sampleStats &&
            IsPermutation(r.geneOrder, |f.geneStats|) && IsPermutation(r.sampleOrder, |f.sampleStats|) &&
            (forall a, b | 0 <= a < b < |r.geneOrder| ::
               SumCounts(f.geneStats[r.geneOrder[a]].counts) >= SumCounts(f.geneStats[r.geneOrder[b]].counts)) &&
            (forall a, b | 0 <= a < b < |r.sampleOrder| ::
               ScoreFrom(r.geneOrder, PresentOf(f.data), r.sampleOrder[a], 0) >=
               ScoreFrom(r.geneOrder, PresentOf(f.data), r.sampleOrder[b], 0))
  {
    var sums := SumsOf(f.geneStats);
    var (go, so) := MemoSort.MemoSort(sums, PresentOf(f.data), |f.sampleStats|);
    MemoSortSpec(sums, PresentOf(f.data), |f.sampleStats|);
    var r := Sorted(f);
    assert r.geneOrder == go;
    assert r.sampleOrder == so;
    forall a, b | 0 <= a < b < |go| ensures SumCounts(f.geneStats[go[a]].counts) >= SumCounts(f.geneStats[go[b]].counts) {
      assert sums[go[a]] >= sums[go[b]];
    }
  }

  /** Sorted, the frame's orders are permutations by non-increasing gene
      sum and sample score; unsorted, they are the natural orders. */
  lemma PlotOrders(rows: seq<OncoRow>, mode: MultiMode, sort: bool, removeEmpty: bool)
    ensures var f := PlotFrame(rows, mode, sort, removeEmpty);
            sort ==>
              IsPermutation(f.geneOrder, |f.geneStats|) && IsPermutation(f.sampleOrder, |f.sampleStats|) &&
              (forall a, b | 0 <= a < b < |f.geneOrder| ::
                 SumCounts(f.geneStats[f.geneOrder[a]].counts) >= SumCounts(f.geneStats[f.geneOrder[b]].counts)) &&
              (forall a, b | 0 <= a < b < |f.sampleOrder| ::
                 ScoreFrom(f.geneOrder, PresentOf(f.data), f.sampleOrder[a], 0) >=
                 ScoreFrom(f.geneOrder, PresentOf(f.data), f.sampleOrder[b], 0))
    ensures var f := PlotFrame(rows, mode, sort, removeEmpty);
            !sort ==> f.geneOrder == Range(0, |f.geneStats|) && f.sampleOrder == Range(0, |f.sampleStats|)
  {
    var genes, samples := GeneNames(rows), SampleNames(rows);
    var table := Tally(rows, genes, samples, true);
    var keep := Kept(rows, mode, removeEmpty);
    PlotFrameArranged(rows, mode, sort, removeEmpty);
    ArrangeOrders(genes, Pick(samples, keep), PickColumns(table, |samples|, keep), GeneMargins(table, |samples|, mode),
                  Pick(SampleMargins(table, |samples|, mode), keep), sort);
  }

  /** The orders of an arranged frame. */
  lemma ArrangeOrders(genes: seq<string>, samples: seq<string>, table: seq<seq<CountMap>>, geneStats: seq<CountMap>,
                      sampleStats: seq<CountMap>, sort: bool)
    requires |table| == |genes| == |geneStats| && |sampleStats| == |samples|
    requires forall g | 0 <= g < |genes| :: |table[g]| == |samples|
    ensures var f := Arrange(genes, samples, table, geneStats, sampleStats, sort);
            sort ==>
              IsPermutation(f.geneOrder, |f.geneStats|) && IsPermutation(f.sampleOrder, |f.sampleStats|) &&
              (forall a, b | 0 <= a < b < |f.geneOrder| ::
                 SumCounts(f.geneStats[f.geneOrder[a]].counts) >= SumCounts(f.geneStats[f.geneOrder[b]].counts)) &&
              (forall a, b | 0 <= a < b < |f.sampleOrder| ::
                 ScoreFrom(f.geneOrder, PresentOf(f.data), f.sampleOrder[a], 0) >=
                 ScoreFrom(f.geneOrder, PresentOf(f.data), f.sampleOrder[b], 0))
    ensures var f := Arrange(genes, samples, table, geneStats, sampleStats, sort);
            !sort ==> f.geneOrder == Range(0, |f.geneStats|) && f.sampleOrder == Range(0, |f.sampleStats|)
  {
    var f0 := NewFrame(Cells(genes, samples, table), Named(genes, geneStats), Named(samples, sampleStats), [], []);
    if sort {
      SortedOrders(f0);
    }
  }
}
