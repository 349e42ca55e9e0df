/** The oncoplot being edited
    (src/components/pages/modules/oncoplot/plot-context.tsx): the mutation
    frame, the clinical tracks and the display settings. What a frame, a
    track and the display settings hold are the type parameters M, T and D. */
module OncoplotPlot {

  /** `IPlotState`. */
  datatype PlotState<M, T, D> = PlotState(mutationFrame: M, clinicalTracks: seq<T>, displayProps: D)

  /** `PlotAction`; `Unknown` stands for any other action type. */
  datatype PlotAction<T, D> = SetClinical(clinicalTracks: seq<T>) | SetDisplay(displayProps: D) | Unknown

  /** `plotReducer`: each action replaces its own part of the state. */
  function PlotReducer<M, T, D>(state: PlotState<M, T, D>, action: PlotAction<T, D>): (r: PlotState<M, T, D>)
    ensures r.mutationFrame == state.mutationFrame
    ensures r.clinicalTracks == if action.SetClinical? then action.clinicalTracks else state.clinicalTracks
    ensures r.displayProps == if action.SetDisplay? then action.displayProps else state.displayProps
  {
    match action
    case SetClinical(tracks) => state.(clinicalTracks := tracks)
    case SetDisplay(displayProps) => state.(displayProps := displayProps)
    case Unknown => state
  }

  /** The state after dispatching the actions in order. */
  function Run<M, T, D>(state: PlotState<M, T, D>, actions: seq<PlotAction<T, D>>): PlotState<M, T, D>
    decreases |actions|
  {
    if actions == [] then state else Run(PlotReducer(state, actions[0]), actions[1..])
  }

  /** Along any run the mutation frame never changes, and a run without
      `clinical` actions keeps the tracks. */
  lemma {:induction false} RunSpec<M, T, D>(state: PlotState<M, T, D>, actions: seq<PlotAction<T, D>>)
    ensures var r := Run(state, actions);
            r.mutationFrame == state.mutationFrame &&
            ((forall k | 0 <= k < |actions| :: !actions[k].SetClinical?) ==> r.clinicalTracks == state.clinicalTracks)
    decreases |actions|
  {
    if actions != [] {
      RunSpec(PlotReducer(state, actions[0]), actions[1..]);
      if forall k | 0 <= k < |actions| :: !actions[k].SetClinical? {
        assert forall k | 0 <= k < |actions[1..]| :: actions[1..][k] == actions[k + 1];
      }
    }
  }

  /** Setting a part twice keeps the second value. */
  lemma SetTwice<M, T, D>(state: PlotState<M, T, D>, a: seq<T>, b: seq<T>)
    ensures PlotReducer(PlotReducer(state, SetClinical(a)), SetClinical(b)) == PlotReducer(state, SetClinical(b))
  {
  }
}
