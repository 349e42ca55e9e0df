/** `OncoplotMutationFrame` of
    src/components/pages/modules/oncoplot/oncoplot-utils.ts: a table of cell
    statistics, one row per gene and one column per sample, with statistics
    per gene and per sample, seen through a gene order and a sample order.
    The order setters build new frames; the receiver is a value and never
    changes. */
module OncoplotFrame {
  import opened Wrappers
  import opened Seqs
  import opened EventCounts

  /** `OncoCellStats`: the gene and the sample a count map belongs to (the
      margins use the gene or the sample name for both). */
  datatype CellStats = CellStats(gene: string, sample: string, counts: CountMap)

  datatype MutationFrame = MutationFrame(data: seq<seq<CellStats>>, geneStats: seq<CellStats>,
                                         sampleStats: seq<CellStats>, geneOrder: seq<int>, sampleOrder: seq<int>)

  /** The constructor: an empty order stands for the natural order of the
      gene (sample) statistics. */
  function NewFrame(data: seq<seq<CellStats>>, geneStats: seq<CellStats>, sampleStats: seq<CellStats>,
                    geneOrder: seq<int>, sampleOrder: seq<int>): MutationFrame
  {
    MutationFrame(data, geneStats, sampleStats,
                  if |geneOrder| > 0 then geneOrder else Range(0, |geneStats|),
                  if |sampleOrder| > 0 then sampleOrder else Range(0, |sampleStats|))
  }

  /** `shape`: the lengths of the two orders. */
  function Shape(f: MutationFrame): (nat, nat) {
    (|f.geneOrder|, |f.sampleOrder|)
  }

  /** `data(gene, sample)`: the cell at the ordered position. None where the
      source reads past an order or the table (it then throws or yields
      `undefined`). */
  function Data(f: MutationFrame, gene: int, sample: int): (r: Option<CellStats>)
    ensures r.Some? <==> 0 <= gene < |f.geneOrder| && 0 <= sample < |f.sampleOrder| &&
                         0 <= f.geneOrder[gene] < |f.data| &&
                         0 <= f.sampleOrder[sample] < |f.data[f.geneOrder[gene]]|
  {
    if 0 <= gene < |f.geneOrder| && 0 <= sample < |f.sampleOrder| then
      var g, s := f.geneOrder[gene], f.sampleOrder[sample];
      if 0 <= g < |f.data| && 0 <= s < |f.data[g]| then Some(f.data[g][s]) else None
    else None
  }

  /** `geneStats`: the gene statistics in gene order (None past the list). */
  function GeneStats(f: MutationFrame): (r: seq<Option<CellStats>>)
    ensures |r| == |f.geneOrder|
  {
    seq(|f.geneOrder|, g requires 0 <= g < |f.geneOrder| =>
      var i := f.geneOrder[g];
      if 0 <= i < |f.geneStats| then Some(f.geneStats[i]) else None)
  }

  /** `sampleStats`: the sample statistics in sample order. */
  function SampleStats(f: MutationFrame): (r: seq<Option<CellStats>>)
    ensures |r| == |f.sampleOrder|
  {
    seq(|f.sampleOrder|, s requires 0 <= s < |f.sampleOrder| =>
      var i := f.sampleOrder[s];
      if 0 <= i < |f.sampleStats| then Some(f.sampleStats[i]) else None)
  }

  /** `setGeneOrder(idx)`. */
  function SetGeneOrder(f: MutationFrame, idx: seq<int>): MutationFrame {
    NewFrame(f.data, f.geneStats, f.sampleStats, idx, f.sampleOrder)
  }

  /** `setSampleOrder(idx)`. */
  function SetSampleOrder(f: MutationFrame, idx: seq<int>): MutationFrame {
    NewFrame(f.data, f.geneStats, f.sampleStats, f.geneOrder, idx)
  }

  /** `resetGeneOrder()`. */
  function ResetGeneOrder(f: MutationFrame): MutationFrame {
    SetGeneOrder(f, Range(0, |f.geneStats|))
  }

  /** `resetSampleOrder()` as written: the order it sets counts the genes,
      not the samples. */
  function ResetSampleOrder(f: MutationFrame): MutationFrame {
    SetSampleOrder(f, Range(0, |f.geneStats|))
  }

  /** The sample order `resetSampleOrder` is meant to restore: every sample,
      in its original position. */
  function ResetSampleOrderIntended(f: MutationFrame): MutationFrame {
    SetSampleOrder(f, Range(0, |f.sampleStats|))
  }

  /** The last position of a statistic named `name` (the `Map` built from
      the names keeps the last one), or -1. */
  function LastNamed(stats: seq<CellStats>, name: string, byGene: bool): (r: int)
    ensures -1 <= r < |stats|
    ensures r >= 0 ==> (if byGene then stats[r].gene else stats[r].sample) == name
    ensures forall i | r < i < |stats| :: (if byGene then stats[i].gene else stats[i].sample) != name
  {
    if stats == [] then -1
    else if (if byGene then stats[|stats| - 1].gene else stats[|stats| - 1].sample) == name then |stats| - 1
    else LastNamed(stats[..|stats| - 1], name, byGene)
  }

  /** The positions of the named statistics, in the order of `names`,
      skipping unknown names. */
  function NamedPositions(stats: seq<CellStats>, names: seq<string>, byGene: bool): (r: seq<int>)
    ensures |r| <= |names|
    ensures forall i | 0 <= i < |r| :: 0 <= r[i] < |stats|
  {
    if names == [] then []
    else
      var init := NamedPositions(stats, names[..|names| - 1], byGene);
      var p := LastNamed(stats, names[|names| - 1], byGene);
      if p >= 0 then init + [p] else init
  }

  /** `setGenes(genes)`: the known genes, in the order given. */
  function SetGenes(f: MutationFrame, genes: seq<string>): MutationFrame {
    SetGeneOrder(f, NamedPositions(f.geneStats, genes, true))
  }

  /** `setSamples(samples)`: the known samples, in the order given. */
  function SetSamples(f: MutationFrame, samples: seq<string>): MutationFrame {
    SetSampleOrder(f, NamedPositions(f.sampleStats, samples, false))
  }

  // ---------------------------------------------------------------- lemmas

  /** Every table is rows of equal length. */
  predicate Rectangular(data: seq<seq<CellStats>>, columns: nat) {
    forall g | 0 <= g < |data| :: |data[g]| == columns
  }

  /** A new frame without orders shows the whole table as it is. */
  lemma NewFrameSpec(data: seq<seq<CellStats>>, geneStats: seq<CellStats>, sampleStats: seq<CellStats>)
    requires |data| == |geneStats| && Rectangular(data, |sampleStats|)
    ensures var f := NewFrame(data, geneStats, sampleStats, [], []);
            Shape(f) == (|geneStats|, |sampleStats|) &&
            forall g, s | 0 <= g < |geneStats| && 0 <= s < |sampleStats| :: Data(f, g, s) == Some(data[g][s])
  {
    var f := NewFrame(data, geneStats, sampleStats, [], []);
    forall g, s | 0 <= g < |geneStats| && 0 <= s < |sampleStats| ensures Data(f, g, s) == Some(data[g][s]) {
      assert f.geneOrder[g] == g && f.sampleOrder[s] == s;
    }
  }

  /** Orders that are permutations show every cell of the table exactly at
      one position. */
  lemma PermutedView(f: MutationFrame, g0: nat, s0: nat)
    requires |f.data| == |f.geneStats| && Rectangular(f.data, |f.sampleStats|)
    requires IsPermutation(f.geneOrder, |f.geneStats|) && IsPermutation(f.sampleOrder, |f.sampleStats|)
    requires g0 < |f.geneStats| && s0 < |f.sampleStats|
    ensures exists g, s | 0 <= g < |f.geneOrder| && 0 <= s < |f.sampleOrder| :: Data(f, g, s) == Some(f.data[g0][s0])
    ensures forall g, s | 0 <= g < |f.geneOrder| && 0 <= s < |f.sampleOrder| ::
              f.geneOrder[g] == g0 && f.sampleOrder[s] == s0 <==> (g, s) == (Position(f.geneOrder, g0), Position(f.sampleOrder, s0))
  {
    PermutationOnto(f.geneOrder, |f.geneStats|, g0);
    PermutationOnto(f.sampleOrder, |f.sampleStats|, s0);
    var g, s := Position(f.geneOrder, g0), Position(f.sampleOrder, s0);
    assert Data(f, g, s) == Some(f.data[g0][s0]);
  }

  /** The first position of x in p, or |p|. */
  function Position(p: seq<int>, x: int): (k: nat)
    ensures k <= |p|
    ensures k < |p| ==> p[k] == x
    ensures forall i | 0 <= i < k :: p[i] != x
  {
    if p == [] then 0 else if p[0] == x then 0 else Position(p[1..], x) + 1
  }

  /** A permutation of 0..n-1 holds every number below n at exactly one
      position. */
  lemma PermutationOnto(p: seq<int>, n: nat, x: nat)
    requires IsPermutation(p, n) && x < n
    ensures Position(p, x) < n
    ensures forall i | 0 <= i < n && p[i] == x :: i == Position(p, x)
  {
    if x !in p {
      var r := seq(n, i requires 0 <= i < n => if p[i] > x then p[i] - 1 else p[i]);
      assert NoDups(r);
      Pigeonhole(r, n - 1);
    }
  }

  /** Distinct values below k are at most k. */
  lemma {:induction false} Pigeonhole(p: seq<int>, k: nat)
    requires NoDups(p)
    requires forall i | 0 <= i < |p| :: 0 <= p[i] < k
    ensures |p| <= k
    decreases k
  {
    if |p| > k {
      var v := p[0];
      assert 0 <= v < k;
      var last := |p| - 1;
      var q := seq(last, i requires 0 <= i < last => if p[i] == k - 1 then p[last] else p[i]);
      forall i, j | 0 <= i < j < |q| ensures q[i] != q[j] {
        assert p[i] != p[j] && p[i] != p[last] && p[j] != p[last];
      }
      forall i | 0 <= i < |q| ensures 0 <= q[i] < k - 1 {
        assert p[i] != p[last];
      }
      Pigeonhole(q, k - 1);
    }
  }

  /** What `NewFrame` establishes: an order is empty only when there is
      nothing to order. */
  predicate HasOrders(f: MutationFrame) {
    (f.geneOrder != [] || f.geneStats == []) && (f.sampleOrder != [] || f.sampleStats == [])
  }

  /** Every frame built by the constructor has its orders. */
  lemma NewFrameHasOrders(data: seq<seq<CellStats>>, geneStats: seq<CellStats>, sampleStats: seq<CellStats>,
                          geneOrder: seq<int>, sampleOrder: seq<int>)
    ensures HasOrders(NewFrame(data, geneStats, sampleStats, geneOrder, sampleOrder))
  {
  }

  /** The order setters touch nothing but their own order, the last
      setting wins, and the two setters commute. */
  lemma SettersSpec(f: MutationFrame, a: seq<int>, b: seq<int>)
    requires HasOrders(f) && |a| > 0 && |b| > 0
    ensures var r := SetGeneOrder(f, a);
            r.data == f.data && r.geneStats == f.geneStats && r.sampleStats == f.sampleStats &&
            r.geneOrder == a && r.sampleOrder == f.sampleOrder && Shape(r) == (|a|, Shape(f).1)
    ensures var r := SetSampleOrder(f, b);
            r.data == f.data && r.geneStats == f.geneStats && r.sampleStats == f.sampleStats &&
            r.geneOrder == f.geneOrder && r.sampleOrder == b && Shape(r) == (Shape(f).0, |b|)
    ensures SetGeneOrder(SetGeneOrder(f, a), b) == SetGeneOrder(f, b)
    ensures SetGeneOrder(SetSampleOrder(f, b), a) == SetSampleOrder(SetGeneOrder(f, a), b)
  {
  }

  /** An empty order, or one that names no known gene, brings back every
      gene in its original position. */
  lemma EmptyOrderResets(f: MutationFrame, genes: seq<string>)
    requires forall i | 0 <= i < |genes| :: LastNamed(f.geneStats, genes[i], true) < 0
    ensures SetGeneOrder(f, []).geneOrder == Range(0, |f.geneStats|)
    ensures SetGenes(f, genes) == ResetGeneOrder(f)
  {
    NoneNamed(f.geneStats, genes);
  }

  lemma {:induction false} NoneNamed(stats: seq<CellStats>, names: seq<string>)
    requires forall i | 0 <= i < |names| :: LastNamed(stats, names[i], true) < 0
    ensures NamedPositions(stats, names, true) == []
  {
    if names != [] {
      NoneNamed(stats, names[..|names| - 1]);
    }
  }

  /** `setGenes` shows exactly the requested genes that the frame knows, in
      the order requested. */
  lemma {:induction false} SetGenesSpec(stats: seq<CellStats>, genes: seq<string>)
    ensures var r := NamedPositions(stats, genes, true);
            (forall i | 0 <= i < |r| :: stats[r[i]].gene in genes) &&
            (forall i | 0 <= i < |genes| && (exists k | 0 <= k < |stats| :: stats[k].gene == genes[i]) ::
               exists j | 0 <= j < |r| :: stats[r[j]].gene == genes[i])
  {
    if genes != [] {
      var init := genes[..|genes| - 1];
      SetGenesSpec(stats, init);
      var name := genes[|genes| - 1];
      var r := NamedPositions(stats, genes, true);
      var p := LastNamed(stats, name, true);
      forall i | 0 <= i < |genes| && (exists k | 0 <= k < |stats| :: stats[k].gene == genes[i])
        ensures exists j | 0 <= j < |r| :: stats[r[j]].gene == genes[i]
      {
        if i < |init| {
          assert genes[i] == init[i];
          var j :| 0 <= j < |NamedPositions(stats, init, true)| && stats[NamedPositions(stats, init, true)[j]].gene == init[i];
          assert r[j] == NamedPositions(stats, init, true)[j];
        } else {
          var k :| 0 <= k < |stats| && stats[k].gene == genes[i];
          assert p >= k;
          assert r[|r| - 1] == p;
        }
      }
      forall i | 0 <= i < |r| ensures stats[r[i]].gene in genes {
        if i < |NamedPositions(stats, init, true)| {
          assert r[i] == NamedPositions(stats, init, true)[i];
          assert stats[r[i]].gene in init;
        }
      }
    }
  }

  /** `resetSampleOrder` as written shows as many samples as there are
      genes: with one gene and two samples only the first sample is left,
      where the intended reset shows both. */
  lemma ResetSampleOrderDropsSamples(c: CellStats)
    ensures var f := MutationFrame([[c, c]], [c], [c, c], [0], [1, 0]);
            Shape(ResetSampleOrder(f)) == (1, 1) && Shape(ResetSampleOrderIntended(f)) == (1, 2)
  {
  }

  /** The intended reset shows every sample in its original position. */
  lemma ResetSampleOrderIntendedSpec(f: MutationFrame)
    requires HasOrders(f) && |f.sampleStats| > 0
    ensures var r := ResetSampleOrderIntended(f);
            Shape(r) == (Shape(f).0, |f.sampleStats|) &&
            forall s | 0 <= s < |f.sampleStats| :: SampleStats(r)[s] == Some(f.sampleStats[s])
  {
  }
}
