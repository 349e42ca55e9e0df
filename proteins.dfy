/** The protein chosen for the lollipop plot
    (src/components/pages/modules/lollipop/protein-context.tsx): the last
    protein search with its results, and the selected protein. Reading a
    result past the end gives `undefined`, which is `None` here. */
module Proteins {
  import opened Wrappers

  /** `IProtein`; `sequence` is the field `seq`. */
  datatype Protein = Protein(gene: string, name: string, accession: string, sequence: string,
                             sample: string, organism: string, taxonId: int)

  /** `DEFAULT_PROTEIN`. */
  const DefaultProtein := Protein("", "", "", "", "", "", -1)

  /** A search: its text and the proteins found. */
  datatype Search = Search(text: string, results: seq<Protein>)

  /** `IProteinState`; `protein` is `None` where the source holds `undefined`. */
  datatype ProteinState = ProteinState(search: Search, protein: Option<Protein>)

  /** `DEFAULT_PROPS`. */
  const DefaultState := ProteinState(Search("", []), Some(DefaultProtein))

  /** `ProteinAction`; `Unknown` stands for any other action type. */
  datatype ProteinAction = SetSearch(search: Search, at: Option<int>) | Selected(index: int)
                         | Update(protein: Protein) | Clear | Unknown

  /** `results[index]`: `undefined` outside the list. */
  function ResultAt(results: seq<Protein>, index: int): (r: Option<Protein>)
    ensures r.Some? <==> 0 <= index < |results|
    ensures r.Some? ==> r.value in results
  {
    if 0 <= index < |results| then Some(results[index]) else None
  }

  /** `proteinReducer`. */
  function ProteinReducer(state: ProteinState, action: ProteinAction): (r: ProteinState)
    ensures action.SetSearch? ==>
              r.search == action.search && r.protein == ResultAt(action.search.results, action.at.GetOr(0))
    ensures action.Selected? ==>
              r.search == state.search && r.protein == ResultAt(state.search.results, action.index)
    ensures action.Update? ==> r == state.(protein := Some(action.protein))
    ensures action.Clear? ==> r == DefaultState
    ensures action.Unknown? ==> r == state
  {
    match action
    case SetSearch(search, index) => ProteinState(search, ResultAt(search.results, index.GetOr(0)))
    case Selected(index) => state.(protein := ResultAt(state.search.results, index))
    case Update(protein) => state.(protein := Some(protein))
    case Clear => DefaultState
    case Unknown => state
  }

  /** The state after dispatching the actions in order. */
  function Run(state: ProteinState, actions: seq<ProteinAction>): ProteinState
    decreases |actions|
  {
    if actions == [] then state else Run(ProteinReducer(state, actions[0]), actions[1..])
  }

  /** Only `set` and `clear` change the search. */
  predicate KeepsSearch(action: ProteinAction) {
    !action.SetSearch? && !action.Clear?
  }

  /** Selecting the result the last `set` chose changes nothing. */
  lemma SelectAfterSet(state: ProteinState, search: Search, index: int)
    ensures var s := ProteinReducer(state, SetSearch(search, Some(index)));
            ProteinReducer(s, Selected(index)) == s
  {
  }

  /** Along any run of `selected`, `update` and unknown actions the search
      is unchanged, and the protein is the one before the run, `undefined`
      (a selection past the end), one of the search results, or a protein
      some `update` of the run gave. */
  lemma {:induction false} RunKeepsSearch(state: ProteinState, actions: seq<ProteinAction>)
    requires forall k | 0 <= k < |actions| :: KeepsSearch(actions[k])
    ensures var r := Run(state, actions);
            r.search == state.search &&
            (r.protein == state.protein || r.protein.None? ||
             r.protein.value in state.search.results || Update(r.protein.value) in actions)
    decreases |actions|
  {
    if actions != [] {
      var next := ProteinReducer(state, actions[0]);
      RunKeepsSearch(next, actions[1..]);
      var r := Run(state, actions);
      if r.protein.Some? && Update(r.protein.value) in actions[1..] {
        assert actions == [actions[0]] + actions[1..];
      }
    }
  }
}
