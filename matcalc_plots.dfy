/** The plots opened from the matrix calculator
    (src/components/pages/modules/matcalc/plots-context.tsx): each plot is
    numbered by a counter that `add` advances. What a plot draws (a
    cluster frame) is the type parameter C. */
module MatcalcPlots {
  import opened Strs

  datatype PlotStyle = Heatmap | DotPlot | VolcanoPlot

  function StyleName(s: PlotStyle): string {
    match s
    case Heatmap => "Heatmap"
    case DotPlot => "Dot Plot"
    case VolcanoPlot => "Volcano Plot"
  }

  /** `IPlot`. */
  datatype Plot<C> = Plot(id: string, index: int, name: string, cf: C, style: PlotStyle)

  /** `IPlotsState`: the counter and the open plots. */
  datatype PlotsState<C> = PlotsState(index: int, plots: seq<Plot<C>>)

  /** `DEFAULT_PROPS`: the counter starts at 1. */
  function InitialState<C>(): PlotsState<C> {
    PlotsState(1, [])
  }

  /** `PlotAction`; `Unknown` stands for any other action type. */
  datatype PlotAction<C> = AddPlot(cf: C, style: PlotStyle) | SetPlot(cf: C, style: PlotStyle)
                         | RemovePlot(id: string) | ClearPlots | Unknown

  /** `plots.filter(plot => plot.id != id)`. */
  function Removed<C>(plots: seq<Plot<C>>, id: string): (r: seq<Plot<C>>)
    ensures |r| <= |plots|
    ensures forall i | 0 <= i < |r| :: r[i] in plots && r[i].id != id
    ensures forall i | 0 <= i < |plots| && plots[i].id != id :: plots[i] in r
  {
    if plots == [] then []
    else
      var last := plots[|plots| - 1];
      var init := Removed(plots[..|plots| - 1], id);
      assert forall i | 0 <= i < |plots| - 1 :: plots[i] == plots[..|plots| - 1][i];
      init + (if last.id != id then [last] else [])
  }

  /** `plotsReducer`; `freshId` is the id `nanoid()` would draw. `add`
      numbers the new plot with the counter and advances it; `set` leaves
      one plot named "<style> 1", stamped with the old counter, and puts
      the counter back to 1. */
  function PlotsReducer<C>(state: PlotsState<C>, action: PlotAction<C>, freshId: string): (r: PlotsState<C>)
    ensures action.AddPlot? ==>
              r.index == state.index + 1 && |r.plots| == |state.plots| + 1 &&
              r.plots[..|state.plots|] == state.plots &&
              r.plots[|state.plots|] ==
                Plot(freshId, state.index, StyleName(action.style) + " " + IntStr(state.index), action.cf, action.style)
    ensures action.SetPlot? ==>
              r.index == 1 &&
              r.plots == [Plot(freshId, state.index, StyleName(action.style) + " 1", action.cf, action.style)]
    ensures action.RemovePlot? ==>
              r.index == state.index &&
              (forall i | 0 <= i < |r.plots| :: r.plots[i] in state.plots && r.plots[i].id != action.id) &&
              (forall i | 0 <= i < |state.plots| && state.plots[i].id != action.id :: state.plots[i] in r.plots)
    ensures action.ClearPlots? ==> r == PlotsState(state.index, [])
    ensures action.Unknown? ==> r == state
  {
    match action
    case AddPlot(cf, style) =>
      var plot := Plot(freshId, state.index, StyleName(style) + " " + IntStr(state.index), cf, style);
      PlotsState(state.index + 1, state.plots + [plot])
    case SetPlot(cf, style) =>
      PlotsState(1, [Plot(freshId, state.index, StyleName(style) + " 1", cf, style)])
    case RemovePlot(id) => state.(plots := Removed(state.plots, id))
    case ClearPlots => state.(plots := [])
    case Unknown => state
  }

  /** The counter is above the index of every open plot. */
  predicate CounterAbove<C>(state: PlotsState<C>) {
    forall i | 0 <= i < |state.plots| :: state.plots[i].index < state.index
  }

  /** `add`, `remove`, `clear` and unknown actions keep the counter above
      every plot index. */
  lemma CounterAboveKept<C>(state: PlotsState<C>, action: PlotAction<C>, freshId: string)
    requires CounterAbove(state) && !action.SetPlot?
    ensures CounterAbove(PlotsReducer(state, action, freshId))
  {
    var r := PlotsReducer(state, action, freshId);
    if action.AddPlot? {
      forall i | 0 <= i < |r.plots| ensures r.plots[i].index < r.index {
        if i < |state.plots| {
          assert r.plots[i] == r.plots[..|state.plots|][i];
        }
      }
    } else if action.RemovePlot? {
      forall i | 0 <= i < |r.plots| ensures r.plots[i].index < r.index {
        var j :| 0 <= j < |state.plots| && state.plots[j] == r.plots[i];
      }
    }
  }

  /** `set` can leave the counter at or below the index it stamps: from a
      counter of 2, the plot gets index 2 and the counter becomes 1. */
  lemma SetLowersCounter<C>(cf: C, freshId: string)
    ensures var r := PlotsReducer(PlotsState(2, []), SetPlot(cf, Heatmap), freshId);
            !CounterAbove(r) && r.plots[0].index == 2 && r.index == 1
  {
  }

  /** The state after dispatching the actions in order. */
  function Run<C>(state: PlotsState<C>, actions: seq<PlotAction<C>>, ids: seq<string>): PlotsState<C>
    requires |ids| == |actions|
    decreases |actions|
  {
    if actions == [] then state
    else Run(PlotsReducer(state, actions[0], ids[0]), actions[1..], ids[1..])
  }

  /** Along any run without `set`, the counter stays above every plot
      index (the initial state, with no plots, starts the invariant). */
  lemma {:induction false} RunCounterAbove<C>(state: PlotsState<C>, actions: seq<PlotAction<C>>, ids: seq<string>)
    requires |ids| == |actions| && CounterAbove(state)
    requires forall k | 0 <= k < |actions| :: !actions[k].SetPlot?
    ensures CounterAbove(Run(state, actions, ids))
    decreases |actions|
  {
    if actions != [] {
      CounterAboveKept(state, actions[0], ids[0]);
      RunCounterAbove(PlotsReducer(state, actions[0], ids[0]), actions[1..], ids[1..]);
    }
  }
}
