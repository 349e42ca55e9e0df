/** The lollipop plot being edited
    (src/components/pages/modules/lollipop/plot-context.tsx): the protein,
    the per-residue statistics, the features, the labels and the display
    settings. What a statistic, a feature, a label and the display
    settings hold are the type parameters S, F, L and D. */
module LollipopPlot {
  import opened Proteins

  /** `ILollipopDataFrame`. */
  datatype LollipopFrame<S, F, L, D> = LollipopFrame(protein: Protein, aaStats: seq<S>, features: seq<F>,
                                                     labels: seq<L>, displayProps: D)

  /** `PlotAction`; `Unknown` stands for any other action type. */
  datatype PlotAction<F, L, D> = SetFeatures(features: seq<F>) | SetLabels(labels: seq<L>)
                               | SetDisplay(displayProps: D) | Unknown

  /** `plotReducer`: each action replaces its own part of the frame. */
  function PlotReducer<S, F, L, D>(df: LollipopFrame<S, F, L, D>, action: PlotAction<F, L, D>)
    : (r: LollipopFrame<S, F, L, D>)
    ensures r.protein == df.protein && r.aaStats == df.aaStats
    ensures r.features == if action.SetFeatures? then action.features else df.features
    ensures r.labels == if action.SetLabels? then action.labels else df.labels
    ensures r.displayProps == if action.SetDisplay? then action.displayProps else df.displayProps
  {
    match action
    case SetFeatures(features) => df.(features := features)
    case SetLabels(labels) => df.(labels := labels)
    case SetDisplay(displayProps) => df.(displayProps := displayProps)
    case Unknown => df
  }

  /** The frame after dispatching the actions in order. */
  function Run<S, F, L, D>(df: LollipopFrame<S, F, L, D>, actions: seq<PlotAction<F, L, D>>)
    : LollipopFrame<S, F, L, D>
    decreases |actions|
  {
    if actions == [] then df else Run(PlotReducer(df, actions[0]), actions[1..])
  }

  /** The features the last `features` action of the run gave, or `current`
      when there is none. */
  function LastFeatures<F, L, D>(current: seq<F>, actions: seq<PlotAction<F, L, D>>): seq<F>
    decreases |actions|
  {
    if actions == [] then current
    else if actions[|actions| - 1].SetFeatures? then actions[|actions| - 1].features
    else LastFeatures(current, actions[..|actions| - 1])
  }

  /** Running two runs one after the other is running their concatenation. */
  lemma {:induction false} RunAppend<S, F, L, D>(df: LollipopFrame<S, F, L, D>,
                                                   a: seq<PlotAction<F, L, D>>, b: seq<PlotAction<F, L, D>>)
    ensures Run(df, a + b) == Run(Run(df, a), b)
    decreases |a|
  {
    if a != [] {
      assert (a + b)[1..] == a[1..] + b;
      RunAppend(PlotReducer(df, a[0]), a[1..], b);
    } else {
      assert a + b == b;
    }
  }

  /** Along any run the protein and the statistics never change, and the
      features are those of the last `features` action. */
  lemma {:induction false} RunSpec<S, F, L, D>(df: LollipopFrame<S, F, L, D>, actions: seq<PlotAction<F, L, D>>)
    ensures var r := Run(df, actions);
            r.protein == df.protein && r.aaStats == df.aaStats &&
            r.features == LastFeatures(df.features, actions)
    decreases |actions|
  {
    if actions != [] {
      var init := actions[..|actions| - 1];
      var last := actions[|actions| - 1];
      RunSpec(df, init);
      assert actions == init + [last];
      RunAppend(df, init, [last]);
      assert Run(Run(df, init), [last]) == PlotReducer(Run(df, init), last);
    }
  }

  /** Actions on different parts commute. */
  lemma Commute<S, F, L, D>(df: LollipopFrame<S, F, L, D>, a: PlotAction<F, L, D>, b: PlotAction<F, L, D>)
    requires a.SetFeatures? && b.SetLabels?
    ensures PlotReducer(PlotReducer(df, a), b) == PlotReducer(PlotReducer(df, b), a)
  {
  }
}
