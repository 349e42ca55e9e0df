/** `createMarginals` of src/components/pages/modules/oncoplot/oncoplot-utils.ts:
    every cell of the mutation table adds its events to the statistics of
    its gene and of its sample, so that each cell with events counts once
    in each margin, however its events are split. */
module OncoplotMargins {
  import opened Seqs
  import opened StrOrder
  import opened EventCounts
  import opened OncoplotEvents
  import opened OncoplotTable

  /** The share one event of count c adds to a margin: an equal share of
      the cell's n events in equal-bar mode, else its fraction of the
      cell's sum. */
  function Share(c: real, mode: MultiMode, n: nat, sum: real): real
    requires n > 0 && sum > 0.0
  {
    if mode == EqualBar then 1.0 / n as real else c / sum
  }

  /** m after `set(event, share)` for the first k (event, count) entries
      of a cell whose counts add up to sum. */
  function AddEvents(m: CountMap, ev: seq<(string, real)>, k: nat, mode: MultiMode, sum: real): CountMap
    requires k <= |ev| && sum > 0.0
  {
    if k == 0 then m else Added(AddEvents(m, ev, k - 1, mode, sum), ev[k - 1].0, Share(ev[k - 1].1, mode, |ev|, sum))
  }

  /** The total of the first n counts of a list of entries. */
  function SumEvents(ev: seq<(string, real)>, n: nat): real
    requires n <= |ev|
  {
    if n == 0 then 0.0 else SumEvents(ev, n - 1) + ev[n - 1].1
  }

  /** A margin after the contribution of one cell: one "Multi" for several
      events in multi mode, else a share of each event, taken in name
      order. */
  function Contribution(m: CountMap, cell: CountMap, mode: MultiMode): CountMap
    requires Positive(cell)
  {
    if mode == Multi && |cell.keys| > 1 then Added(m, MULTI_MUTATION, 1.0)
    else if cell.keys == [] then m
    else
      TotalPositive(cell.keys, cell);
      AddEvents(m, Events(cell), |cell.keys|, mode, SumCounts(cell))
  }

  /** The table has nSamples cells in every row, each positive. */
  predicate Rect(table: seq<seq<CountMap>>, nSamples: nat) {
    forall g | 0 <= g < |table| :: |table[g]| == nSamples && forall s | 0 <= s < nSamples :: Positive(table[g][s])
  }

  /** The statistics of gene g after the cells of its first k samples. */
  function RowMargin(table: seq<seq<CountMap>>, nSamples: nat, g: nat, k: nat, mode: MultiMode): CountMap
    requires Rect(table, nSamples) && g < |table| && k <= nSamples
  {
    if k == 0 then Empty else Contribution(RowMargin(table, nSamples, g, k - 1, mode), table[g][k - 1], mode)
  }

  /** The statistics of sample s after the cells of its first k genes. */
  function ColMargin(table: seq<seq<CountMap>>, nSamples: nat, s: nat, k: nat, mode: MultiMode): CountMap
    requires Rect(table, nSamples) && s < nSamples && k <= |table|
  {
    if k == 0 then Empty else Contribution(ColMargin(table, nSamples, s, k - 1, mode), table[k - 1][s], mode)
  }

  // ---------------------------------------------------------------- methods

  /** The contribution of one cell to one margin: `set(event, f)` for each
      event of the cell. */
  method Contribute(m: CountMap, cell: CountMap, mode: MultiMode) returns (r: CountMap)
    requires Positive(cell)
    ensures r == Contribution(m, cell, mode)
  {
    if mode == Multi && |cell.keys| > 1 {
      return Added(m, MULTI_MUTATION, 1.0);
    }
    var ev := Events(cell);
    r := m;
    if ev == [] {
      return;
    }
    TotalPositive(cell.keys, cell);
    var sum := SumCounts(cell);
    if mode == EqualBar {
      var f := 1.0 / |ev| as real;
      for i := 0 to |ev|
        invariant r == AddEvents(m, ev, i, mode, sum)
      {
        r := Added(r, ev[i].0, f);
      }
    } else {
      for i := 0 to |ev|
        invariant r == AddEvents(m, ev, i, mode, sum)
      {
        r := Added(r, ev[i].0, ev[i].1 / sum);
      }
    }
  }

  /** The gene statistics once the cells before (g, s) are done: genes
      before g are complete, gene g has seen its first s samples, later
      genes are empty. */
  ghost predicate GenesDone(geneStats: seq<CountMap>, table: seq<seq<CountMap>>, nSamples: nat, g: nat, s: nat, mode: MultiMode)
    requires Rect(table, nSamples) && g <= |table| && s <= nSamples
  {
    |geneStats| == |table| &&
    forall k | 0 <= k < |table| ::
      geneStats[k] == if k < g then RowMargin(table, nSamples, k, nSamples, mode)
                      else if k == g then RowMargin(table, nSamples, g, s, mode) else Empty
  }

  /** The sample statistics once the cells before (g, s) are done: samples
      before s have seen genes up to g, the others genes before g. */
  ghost predicate SamplesDone(sampleStats: seq<CountMap>, table: seq<seq<CountMap>>, nSamples: nat, g: nat, s: nat, mode: MultiMode)
    requires Rect(table, nSamples) && g < |table| && s <= nSamples
  {
    |sampleStats| == nSamples &&
    forall j | 0 <= j < nSamples :: sampleStats[j] == ColMargin(table, nSamples, j, if j < s then g + 1 else g, mode)
  }

  /** `createMarginals`: for every gene, for every sample, the cell's
      contribution to the gene's and to the sample's statistics. */
  method CreateMarginals(table: seq<seq<CountMap>>, nSamples: nat, mode: MultiMode)
      returns (geneStats: seq<CountMap>, sampleStats: seq<CountMap>)
    requires Rect(table, nSamples)
    ensures |geneStats| == |table| && |sampleStats| == nSamples
    ensures forall g | 0 <= g < |table| :: geneStats[g] == RowMargin(table, nSamples, g, nSamples, mode)
    ensures forall s | 0 <= s < nSamples :: sampleStats[s] == ColMargin(table, nSamples, s, |table|, mode)
  {
    geneStats := seq(|table|, g => Empty);
    sampleStats := seq(nSamples, s => Empty);
    for g := 0 to |table|
      invariant GenesDone(geneStats, table, nSamples, g, 0, mode)
      invariant |sampleStats| == nSamples
      invariant forall s | 0 <= s < nSamples :: sampleStats[s] == ColMargin(table, nSamples, s, g, mode)
    {
      geneStats, sampleStats := ContributeGene(table, nSamples, g, mode, geneStats, sampleStats);
    }
    assert GenesDone(geneStats, table, nSamples, |table|, 0, mode);
  }

  /** The inner loop of `createMarginals`: the cells of gene g, sample by
      sample, complete the gene's statistics and move every sample on by
      one gene. */
  method ContributeGene(table: seq<seq<CountMap>>, nSamples: nat, g: nat, mode: MultiMode,
                        geneStats0: seq<CountMap>, sampleStats0: seq<CountMap>)
      returns (geneStats: seq<CountMap>, sampleStats: seq<CountMap>)
    requires Rect(table, nSamples) && g < |table|
    requires GenesDone(geneStats0, table, nSamples, g, 0, mode)
    requires |sampleStats0| == nSamples
    requires forall s | 0 <= s < nSamples :: sampleStats0[s] == ColMargin(table, nSamples, s, g, mode)
    ensures GenesDone(geneStats, table, nSamples, g + 1, 0, mode)
    ensures |sampleStats| == nSamples
    ensures forall s | 0 <= s < nSamples :: sampleStats[s] == ColMargin(table, nSamples, s, g + 1, mode)
  {
    geneStats, sampleStats := geneStats0, sampleStats0;
    for s := 0 to nSamples
      invariant GenesDone(geneStats, table, nSamples, g, s, mode)
      invariant SamplesDone(sampleStats, table, nSamples, g, s, mode)
    {
      var cell := table[g][s];
      var gm := Contribute(geneStats[g], cell, mode);
      var sm := Contribute(sampleStats[s], cell, mode);
      GenesStep(geneStats, table, nSamples, g, s, mode, gm);
      SamplesStep(sampleStats, table, nSamples, g, s, mode, sm);
      geneStats := geneStats[g := gm];
      sampleStats := sampleStats[s := sm];
    }
    GenesNext(geneStats, table, nSamples, g, mode);
    SamplesNext(sampleStats, table, nSamples, g, mode);
  }

  /** One more cell of gene g. */
  lemma GenesStep(geneStats: seq<CountMap>, table: seq<seq<CountMap>>, nSamples: nat, g: nat, s: nat, mode: MultiMode,
                  gm: CountMap)
    requires Rect(table, nSamples) && g < |table| && s < nSamples
    requires GenesDone(geneStats, table, nSamples, g, s, mode)
    requires gm == Contribution(geneStats[g], table[g][s], mode)
    ensures GenesDone(geneStats[g := gm], table, nSamples, g, s + 1, mode)
  {
  }

  /** One more cell of sample s. */
  lemma SamplesStep(sampleStats: seq<CountMap>, table: seq<seq<CountMap>>, nSamples: nat, g: nat, s: nat, mode: MultiMode,
                    sm: CountMap)
    requires Rect(table, nSamples) && g < |table| && s < nSamples
    requires SamplesDone(sampleStats, table, nSamples, g, s, mode)
    requires sm == Contribution(sampleStats[s], table[g][s], mode)
    ensures SamplesDone(sampleStats[s := sm], table, nSamples, g, s + 1, mode)
  {
  }

  /** A finished gene row moves on to the next gene. */
  lemma GenesNext(geneStats: seq<CountMap>, table: seq<seq<CountMap>>, nSamples: nat, g: nat, mode: MultiMode)
    requires Rect(table, nSamples) && g < |table|
    requires GenesDone(geneStats, table, nSamples, g, nSamples, mode)
    ensures GenesDone(geneStats, table, nSamples, g + 1, 0, mode)
  {
  }

  /** A finished gene row has moved every sample on by one gene. */
  lemma SamplesNext(sampleStats: seq<CountMap>, table: seq<seq<CountMap>>, nSamples: nat, g: nat, mode: MultiMode)
    requires Rect(table, nSamples) && g < |table|
    requires SamplesDone(sampleStats, table, nSamples, g, nSamples, mode)
    ensures |sampleStats| == nSamples
    ensures forall s | 0 <= s < nSamples :: sampleStats[s] == ColMargin(table, nSamples, s, g + 1, mode)
  {
  }

  // ---------------------------------------------------------------- sums

  /** A total of positive counts is positive unless there are no keys. */
  lemma {:induction false} TotalPositive(keys: seq<string>, m: CountMap)
    requires forall i | 0 <= i < |keys| :: Get(m, keys[i]) > 0.0
    ensures Total(keys, m) >= 0.0
    ensures keys != [] ==> Total(keys, m) > 0.0
  {
    if keys != [] {
      TotalPositive(keys[..|keys| - 1], m);
    }
  }

  /** Taking out the key at j takes its count out of the total. */
  lemma {:induction false} TotalRemoveAt(keys: seq<string>, j: nat, m: CountMap)
    requires j < |keys|
    ensures Total(keys, m) == Total(keys[..j] + keys[j + 1..], m) + Get(m, keys[j])
  {
    var n := |keys|;
    if j < n - 1 {
      var init := keys[..n - 1];
      TotalRemoveAt(init, j, m);
      var rest := init[..j] + init[j + 1..];
      assert keys[..j] + keys[j + 1..] == rest + [keys[n - 1]];
      assert (rest + [keys[n - 1]])[..|rest|] == rest;
    } else {
      assert keys[..j] + keys[j + 1..] == keys[..n - 1];
    }
  }

  /** The total does not depend on the order of the keys. */
  lemma {:induction false} TotalPermutation(a: seq<string>, b: seq<string>, m: CountMap)
    requires |a| == |b| && NoDups(a) && NoDups(b) && forall x :: x in a <==> x in b
    ensures Total(a, m) == Total(b, m)
    decreases |a|
  {
    if a != [] {
      var x := a[|a| - 1];
      var a0 := a[..|a| - 1];
      assert x in b;
      var j :| 0 <= j < |b| && b[j] == x;
      var b0 := b[..j] + b[j + 1..];
      TotalRemoveAt(b, j, m);
      forall y ensures y in a0 <==> y in b0 {
        assert y in a <==> y in a0 || y == x;
        assert y in b <==> y in b0 || y == x;
        assert x !in a0;
        assert x !in b0 by {
          forall i | 0 <= i < |b0| ensures b0[i] != x {
            if i < j { assert b0[i] == b[i]; } else { assert b0[i] == b[i + 1]; }
          }
        }
      }
      assert NoDups(b0) by {
        forall i, k | 0 <= i < k < |b0| ensures b0[i] != b0[k] {
          var i' := if i < j then i else i + 1;
          var k' := if k < j then k else k + 1;
          assert b0[i] == b[i'] && b0[k] == b[k'];
        }
      }
      TotalPermutation(a0, b0, m);
    }
  }

  /** The events of a map list its counts, so they add up to its sum. */
  lemma EventsTotal(cell: CountMap)
    requires WellFormed(cell)
    ensures SumEvents(Events(cell), |Events(cell)|) == SumCounts(cell)
  {
    var ev := Events(cell);
    var names := SortStrings(cell.keys);
    SortedKeys(cell.keys);
    EntriesTotal(ev, names, cell, |ev|);
    assert names[..|ev|] == names;
    TotalPermutation(names, cell.keys, cell);
  }

  /** Entries that pair names with their counts add up, for the first n,
      to the total of the first n names. */
  lemma {:induction false} EntriesTotal(ev: seq<(string, real)>, names: seq<string>, cell: CountMap, n: nat)
    requires n <= |ev| == |names| && forall i | 0 <= i < |ev| :: ev[i] == (names[i], Get(cell, names[i]))
    ensures SumEvents(ev, n) == Total(names[..n], cell)
  {
    if n > 0 {
      EntriesTotal(ev, names, cell, n - 1);
      assert names[..n][..n - 1] == names[..n - 1];
    } else {
      assert names[..0] == [];
    }
  }

  /** The total of the shares of the first k entries. */
  function ShareTotal(ev: seq<(string, real)>, k: nat, mode: MultiMode, sum: real): real
    requires k <= |ev| && sum > 0.0
  {
    if k == 0 then 0.0 else ShareTotal(ev, k - 1, mode, sum) + Share(ev[k - 1].1, mode, |ev|, sum)
  }

  /** Adding the shares of the first k entries keeps the map well formed
      and adds their total to its sum. */
  lemma {:induction false} AddEventsSum(m: CountMap, ev: seq<(string, real)>, k: nat, mode: MultiMode, sum: real)
    requires WellFormed(m) && k <= |ev| && sum > 0.0
    ensures WellFormed(AddEvents(m, ev, k, mode, sum))
    ensures SumCounts(AddEvents(m, ev, k, mode, sum)) == SumCounts(m) + ShareTotal(ev, k, mode, sum)
  {
    if k > 0 {
      AddEventsSum(m, ev, k - 1, mode, sum);
      var m0 := AddEvents(m, ev, k - 1, mode, sum);
      var f := Share(ev[k - 1].1, mode, |ev|, sum);
      AddedSpec(m0, ev[k - 1].0, f);
      SumCountsAdded(m0, ev[k - 1].0, f);
    }
  }

  /** k equal shares make k / n; k fractions make the first k counts over
      the sum. */
  lemma {:induction false} ShareTotalValue(ev: seq<(string, real)>, k: nat, mode: MultiMode, sum: real)
    requires 0 < |ev| && k <= |ev| && sum > 0.0
    ensures ShareTotal(ev, k, mode, sum) == if mode == EqualBar then k as real / |ev| as real else SumEvents(ev, k) / sum
  {
    if k > 0 {
      ShareTotalValue(ev, k - 1, mode, sum);
      if mode == EqualBar {
        DivAdd((k - 1) as real, 1.0, |ev| as real);
      } else {
        DivAdd(SumEvents(ev, k - 1), ev[k - 1].1, sum);
      }
    } else {
      assert 0.0 / |ev| as real == 0.0;
    }
  }

  /** A positive number divided by itself is 1. */
  lemma DivSelf(d: real)
    requires d > 0.0
    ensures d / d == 1.0
  {
  }

  /** Division distributes over a sum. */
  lemma DivAdd(a: real, b: real, d: real)
    requires d > 0.0
    ensures a / d + b / d == (a + b) / d
  {
  }

  /** One cell adds exactly 1 to the sum of a margin when it has events,
      in every mode, and nothing otherwise; the margin stays well formed. */
  lemma ContributionSum(m: CountMap, cell: CountMap, mode: MultiMode)
    requires WellFormed(m) && WellFormed(cell) && Positive(cell)
    ensures WellFormed(Contribution(m, cell, mode))
    ensures SumCounts(Contribution(m, cell, mode)) == SumCounts(m) + if cell.keys == [] then 0.0 else 1.0
  {
    if mode == Multi && |cell.keys| > 1 {
      AddedSpec(m, MULTI_MUTATION, 1.0);
      SumCountsAdded(m, MULTI_MUTATION, 1.0);
    } else if cell.keys != [] {
      TotalPositive(cell.keys, cell);
      var ev := Events(cell);
      var sum := SumCounts(cell);
      assert Contribution(m, cell, mode) == AddEvents(m, ev, |ev|, mode, sum);
      AddEventsSum(m, ev, |ev|, mode, sum);
      ShareTotalValue(ev, |ev|, mode, sum);
      if mode == EqualBar {
        DivSelf(|ev| as real);
      } else {
        EventsTotal(cell);
        DivSelf(sum);
      }
    }
  }

  /** A margin is well formed and adds up to the number of cells with
      events among those it has seen. */
  lemma {:induction false} RowMarginSum(table: seq<seq<CountMap>>, nSamples: nat, g: nat, k: nat, mode: MultiMode)
    requires Rect(table, nSamples) && g < |table| && k <= nSamples
    requires forall s | 0 <= s < nSamples :: WellFormed(table[g][s])
    ensures WellFormed(RowMargin(table, nSamples, g, k, mode))
    ensures SumCounts(RowMargin(table, nSamples, g, k, mode)) == CountNonEmpty(table[g], k) as real
  {
    if k > 0 {
      RowMarginSum(table, nSamples, g, k - 1, mode);
      ContributionSum(RowMargin(table, nSamples, g, k - 1, mode), table[g][k - 1], mode);
    }
  }

  /** The same for the statistics of a sample. */
  lemma {:induction false} ColMarginSum(table: seq<seq<CountMap>>, nSamples: nat, s: nat, k: nat, mode: MultiMode)
    requires Rect(table, nSamples) && s < nSamples && k <= |table|
    requires forall g | 0 <= g < |table| :: WellFormed(table[g][s])
    ensures WellFormed(ColMargin(table, nSamples, s, k, mode))
    ensures SumCounts(ColMargin(table, nSamples, s, k, mode)) == CountNonEmpty(Column(table, s), k) as real
  {
    if k > 0 {
      ColMarginSum(table, nSamples, s, k - 1, mode);
      ContributionSum(ColMargin(table, nSamples, s, k - 1, mode), table[k - 1][s], mode);
    }
  }

  /** The number of the first k maps that have events. */
  function CountNonEmpty(cells: seq<CountMap>, k: nat): (c: nat)
    requires k <= |cells|
    ensures c <= k
  {
    if k == 0 then 0 else CountNonEmpty(cells, k - 1) + if cells[k - 1].keys != [] then 1 else 0
  }

  /** Some of the first k maps has events exactly when the count is
      positive. */
  lemma {:induction false} CountNonEmptyPositive(cells: seq<CountMap>, k: nat)
    requires k <= |cells|
    ensures CountNonEmpty(cells, k) > 0 <==> exists i | 0 <= i < k :: cells[i].keys != []
  {
    if k > 0 {
      CountNonEmptyPositive(cells, k - 1);
    }
  }

  /** Column s of a table. */
  function Column(table: seq<seq<CountMap>>, s: nat): (c: seq<CountMap>)
    requires forall g | 0 <= g < |table| :: s < |table[g]|
    ensures |c| == |table| && forall g | 0 <= g < |table| :: c[g] == table[g][s]
  {
    seq(|table|, g requires 0 <= g < |table| => table[g][s])
  }

  /** After all genes, a sample's statistics sum to a positive number
      exactly when some gene has an event in that sample (the test of
      `removeEmpty`). */
  lemma SampleSumPositive(table: seq<seq<CountMap>>, nSamples: nat, s: nat, mode: MultiMode)
    requires Rect(table, nSamples) && s < nSamples
    requires forall g | 0 <= g < |table| :: WellFormed(table[g][s])
    ensures SumCounts(ColMargin(table, nSamples, s, |table|, mode)) > 0.0 <==>
            exists g | 0 <= g < |table| :: table[g][s].keys != []
  {
    ColMarginSum(table, nSamples, s, |table|, mode);
    CountNonEmptyPositive(Column(table, s), |table|);
  }
}
