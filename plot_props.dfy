/** The per-plot display properties of the matrix calculator
    (src/components/pages/modules/matcalc/plot-props-context.tsx): a Map
    from plot id to properties. `update` writes into the Map the state
    holds and returns a copy of the state sharing that Map; the other
    actions build a new Map. The properties are the type parameter P. */
module PlotProps {

  /** The Map object: its entries change in place. */
  class PropsMap<P> {
    var entries: map<string, P>

    constructor (entries: map<string, P>)
      ensures this.entries == entries
    {
      this.entries := entries;
    }

    /** `Map.set`. */
    method Set(id: string, p: P)
      modifies this
      ensures entries == old(entries)[id := p]
    {
      entries := entries[id := p];
    }
  }

  /** `IPlotPropsState`: a reference to the Map. */
  datatype PlotPropsState<P> = PlotPropsState(props: PropsMap<P>)

  /** `PlotPropsAction`; `Unknown` stands for any other action type. */
  datatype PlotPropsAction<P> = AddProps(props: seq<(string, P)>) | SetProps(props: seq<(string, P)>)
                              | UpdateProps(id: string, p: P) | RemoveProps(id: string)
                              | ClearProps | Unknown

  /** `new Map(entries)`: a later entry for an id replaces an earlier one. */
  function FromEntries<P>(es: seq<(string, P)>): (r: map<string, P>)
    ensures forall i | 0 <= i < |es| :: es[i].0 in r
    ensures forall id | id in r :: exists i | 0 <= i < |es| :: es[i] == (id, r[id])
  {
    if es == [] then map[]
    else
      var init, last := es[..|es| - 1], es[|es| - 1];
      var m := FromEntries(init);
      assert forall i | 0 <= i < |init| :: init[i] == es[i];
      m[last.0 := last.1]
  }

  /** The value kept for an id is the one of its last entry. */
  lemma {:induction false} FromEntriesLast<P>(es: seq<(string, P)>, i: nat)
    requires i < |es| && forall j | i < j < |es| :: es[j].0 != es[i].0
    ensures FromEntries(es)[es[i].0] == es[i].1
  {
    if i < |es| - 1 {
      var init := es[..|es| - 1];
      assert init[i] == es[i];
      FromEntriesLast(init, i);
    }
  }

  /** `props.filter(plot => !state.props.has(plot.id))`. */
  function Fresh<P>(m: map<string, P>, es: seq<(string, P)>): (r: seq<(string, P)>)
    ensures forall i | 0 <= i < |r| :: r[i] in es && r[i].0 !in m
    ensures forall i | 0 <= i < |es| && es[i].0 !in m :: es[i] in r
  {
    if es == [] then []
    else
      var init, last := es[..|es| - 1], es[|es| - 1];
      assert forall i | 0 <= i < |init| :: init[i] == es[i];
      Fresh(m, init) + (if last.0 !in m then [last] else [])
  }

  /** `add`: the old entries, then the action's entries for ids not
      already present. */
  function Added<P>(m: map<string, P>, es: seq<(string, P)>): map<string, P> {
    m + FromEntries(Fresh(m, es))
  }

  /** `add` leaves every existing entry as it was, and adds an entry for
      exactly the action's ids that were absent, with a value the action
      gave for that id. */
  lemma AddedSpec<P>(m: map<string, P>, es: seq<(string, P)>)
    ensures var r := Added(m, es);
            (forall id | id in m :: id in r && r[id] == m[id]) &&
            (forall i | 0 <= i < |es| :: es[i].0 in r) &&
            (forall id | id in r && id !in m :: exists i | 0 <= i < |es| :: es[i] == (id, r[id]))
  {
    var f := Fresh(m, es);
    var n := FromEntries(f);
    forall id | id in n ensures id !in m {
      var i :| 0 <= i < |f| && f[i] == (id, n[id]);
    }
  }

  /** `set`: a new Map holding only the action's entries for ids absent
      from the current Map. */
  function SetFrom<P>(m: map<string, P>, es: seq<(string, P)>): (r: map<string, P>)
    ensures forall id | id in r :: id !in m && exists i | 0 <= i < |es| :: es[i] == (id, r[id])
    ensures forall i | 0 <= i < |es| && es[i].0 !in m :: es[i].0 in r
  {
    var f := Fresh(m, es);
    var r := FromEntries(f);
    forall id | id in r ensures id !in m && exists i | 0 <= i < |es| :: es[i] == (id, r[id]) {
      var i :| 0 <= i < |f| && f[i] == (id, r[id]);
    }
    forall i | 0 <= i < |es| && es[i].0 !in m ensures es[i].0 in r {
      var j :| 0 <= j < |f| && f[j] == es[i];
    }
    r
  }

  /** `plotPropsReducer`. `update` changes the Map the state holds, so the
      state passed in sees the change too; every other action leaves that
      Map alone and returns a state with a new Map. */
  method PlotPropsReducer<P>(state: PlotPropsState<P>, action: PlotPropsAction<P>)
    returns (r: PlotPropsState<P>)
    modifies state.props
    ensures action.UpdateProps? ==>
              r.props == state.props && r.props.entries == old(state.props.entries)[action.id := action.p]
    ensures !action.UpdateProps? ==> state.props.entries == old(state.props.entries)
    ensures action.AddProps? ==> fresh(r.props) && r.props.entries == Added(old(state.props.entries), action.props)
    ensures action.SetProps? ==> fresh(r.props) && r.props.entries == SetFrom(old(state.props.entries), action.props)
    ensures action.RemoveProps? ==> fresh(r.props) && r.props.entries == old(state.props.entries) - {action.id}
    ensures action.ClearProps? ==> fresh(r.props) && r.props.entries == map[]
    ensures action.Unknown? ==> r == state
  {
    match action {
      case AddProps(es) =>
        var m := new PropsMap(Added(state.props.entries, es));
        r := PlotPropsState(m);
      case SetProps(es) =>
        var m := new PropsMap(SetFrom(state.props.entries, es));
        r := PlotPropsState(m);
      case RemoveProps(id) =>
        var m := new PropsMap(state.props.entries - {id});
        r := PlotPropsState(m);
      case UpdateProps(id, p) =>
        state.props.Set(id, p);
        r := PlotPropsState(state.props);
      case ClearProps =>
        var m := new PropsMap(map[]);
        r := PlotPropsState(m);
      case Unknown =>
        r := state;
    }
  }
}
