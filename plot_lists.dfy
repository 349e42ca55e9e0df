/** The lists of open plots of the oncoplot and lollipop modules
    (src/components/pages/modules/oncoplot/plots-context.tsx and
    src/components/pages/modules/lollipop/plots-context.tsx). Both reducers
    are the same but for the default name prefix and what a plot holds,
    which is the type parameter P here. */
module PlotLists {
  import opened Wrappers
  import opened Strs

  /** `IPlot`: an id, a name and what the plot shows. */
  datatype Plot<P> = Plot(id: string, name: string, data: P)

  /** `IPlotProps`: id and name may be left out. */
  datatype PlotProps<P> = PlotProps(id: Option<string>, name: Option<string>, data: P)

  /** `PlotAction`; `Unknown` stands for any other action type. */
  datatype PlotAction<P> = AddPlot(plot: PlotProps<P>) | SetPlot(plot: PlotProps<P>)
                         | RemovePlot(id: string) | ClearPlots | Unknown

  /** `${prefix} ${count + 1}`. */
  function DefaultName(prefix: string, count: nat): string {
    prefix + " " + NatStr(count + 1)
  }

  /** The plot an `add` or `set` makes; `freshId` is the id `nanoid()`
      would draw and `count` the number of plots open. */
  function MakePlot<P>(props: PlotProps<P>, prefix: string, count: nat, freshId: string): Plot<P> {
    Plot(props.id.GetOr(freshId), props.name.GetOr(DefaultName(prefix, count)), props.data)
  }

  /** `plots.filter(plot => plot.id != id)`. */
  function WithoutId<P>(plots: seq<Plot<P>>, id: string): (r: seq<Plot<P>>)
    ensures |r| <= |plots|
  {
    if plots == [] then []
    else
      var last := plots[|plots| - 1];
      WithoutId(plots[..|plots| - 1], id) + (if last.id != id then [last] else [])
  }

  /** Exactly the plots with another id stay. */
  lemma {:induction false} WithoutIdSpec<P>(plots: seq<Plot<P>>, id: string)
    ensures var r := WithoutId(plots, id);
            (forall i | 0 <= i < |r| :: r[i] in plots && r[i].id != id) &&
            (forall i | 0 <= i < |plots| && plots[i].id != id :: plots[i] in r)
  {
    if plots != [] {
      var init := plots[..|plots| - 1];
      WithoutIdSpec(init, id);
      assert plots == init + [plots[|plots| - 1]];
    }
  }

  /** The others keep their order: filtering a concatenation filters each
      part. */
  lemma {:induction false} WithoutIdAppend<P>(a: seq<Plot<P>>, b: seq<Plot<P>>, id: string)
    ensures WithoutId(a + b, id) == WithoutId(a, id) + WithoutId(b, id)
    decreases |b|
  {
    if b == [] {
      assert a + b == a;
    } else {
      var init := b[..|b| - 1];
      WithoutIdAppend(a, init, id);
      assert (a + b)[..|a + b| - 1] == a + init;
      assert (a + b)[|a + b| - 1] == b[|b| - 1];
    }
  }

  /** Removing twice removes nothing more. */
  lemma {:induction false} WithoutIdIdempotent<P>(plots: seq<Plot<P>>, id: string)
    ensures WithoutId(WithoutId(plots, id), id) == WithoutId(plots, id)
  {
    if plots != [] {
      var init, last := plots[..|plots| - 1], plots[|plots| - 1];
      WithoutIdIdempotent(init, id);
      if last.id != id {
        var once := WithoutId(init, id);
        assert WithoutId(plots, id) == once + [last];
        assert (once + [last])[..|once + [last]| - 1] == once;
        assert (once + [last])[|once + [last]| - 1] == last;
        assert WithoutId(once + [last], id) == WithoutId(once, id) + [last];
      } else {
        var once := WithoutId(init, id);
        assert WithoutId(plots, id) == once + [];
        assert once + [] == once;
      }
    }
  }

  /** `plotsReducer` with the default name prefix given. */
  function PlotsReducer<P>(plots: seq<Plot<P>>, action: PlotAction<P>, prefix: string, freshId: string)
    : (r: seq<Plot<P>>)
    ensures action.AddPlot? ==>
              |r| == |plots| + 1 && r[..|plots|] == plots &&
              r[|plots|] == MakePlot(action.plot, prefix, |plots|, freshId)
    ensures action.SetPlot? ==> r == [MakePlot(action.plot, prefix, |plots|, freshId)]
    ensures action.RemovePlot? ==>
              (forall i | 0 <= i < |r| :: r[i] in plots && r[i].id != action.id) &&
              (forall i | 0 <= i < |plots| && plots[i].id != action.id :: plots[i] in r)
    ensures action.ClearPlots? ==> r == []
    ensures action.Unknown? ==> r == plots
  {
    match action
    case AddPlot(props) => plots + [MakePlot(props, prefix, |plots|, freshId)]
    case SetPlot(props) => [MakePlot(props, prefix, |plots|, freshId)]
    case RemovePlot(id) =>
      WithoutIdSpec(plots, id);
      WithoutId(plots, id)
    case ClearPlots => []
    case Unknown => plots
  }

  /** A plot added without a name is called "<prefix> n" with n the new
      number of plots; a plot added without an id gets the fresh one. */
  lemma AddDefaults<P>(plots: seq<Plot<P>>, data: P, prefix: string, freshId: string)
    ensures var r := PlotsReducer(plots, AddPlot(PlotProps(None, None, data)), prefix, freshId);
            r[|r| - 1] == Plot(freshId, prefix + " " + NatStr(|r|), data)
  {
  }

  /** The oncoplot list: default names "Oncoplot n". */
  function OncoplotPlotsReducer<P>(plots: seq<Plot<P>>, action: PlotAction<P>, freshId: string)
    : (r: seq<Plot<P>>)
    ensures action.AddPlot? ==>
              |r| == |plots| + 1 && (action.plot.name.None? ==> r[|plots|].name == "Oncoplot " + NatStr(|r|))
  {
    PlotsReducer(plots, action, "Oncoplot", freshId)
  }

  /** The lollipop list: default names "Lollipop n". */
  function LollipopPlotsReducer<P>(plots: seq<Plot<P>>, action: PlotAction<P>, freshId: string)
    : (r: seq<Plot<P>>)
    ensures action.AddPlot? ==>
              |r| == |plots| + 1 && (action.plot.name.None? ==> r[|plots|].name == "Lollipop " + NatStr(|r|))
  {
    PlotsReducer(plots, action, "Lollipop", freshId)
  }
}
