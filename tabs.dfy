/** Tab selection of src/components/tab-provider.tsx: a tab is named by its
    id when it has one and by its name otherwise, and a value picks the
    first tab whose id or name contains it. Icons, content and callbacks
    of a tab are not modelled. */
module Tabs {
  import opened Wrappers
  import opened Strs

  /** `ITab`: the id is optional. */
  datatype Tab = Tab(id: Option<string>, name: string)

  /** `ISelectedTab`. */
  datatype SelectedTab = SelectedTab(index: nat, tab: Tab)

  /** `getTabId(tab)`: the id, else the name, else "" for no tab. */
  function TabId(tab: Option<Tab>): (r: string)
    ensures tab.None? ==> r == ""
    ensures tab.Some? && tab.value.id.Some? ==> r == tab.value.id.value
    ensures tab.Some? && tab.value.id.None? ==> r == tab.value.name
  {
    match tab
    case None => ""
    case Some(t) => t.id.GetOr(t.name)
  }

  /** The test of the loop: the id or the name contains the value. */
  predicate Matches(tab: Tab, value: string) {
    Contains(TabId(Some(tab)), value) || Contains(tab.name, value)
  }

  /** The first tab at or after k that matches, or -1. */
  function FirstMatch(tabs: seq<Tab>, value: string, k: nat): (r: int)
    requires k <= |tabs|
    ensures r == -1 || (k <= r < |tabs| && Matches(tabs[r], value))
    ensures forall j | k <= j < |tabs| && (r == -1 || j < r) :: !Matches(tabs[j], value)
    decreases |tabs| - k
  {
    if k == |tabs| then -1
    else if Matches(tabs[k], value) then k
    else FirstMatch(tabs, value, k + 1)
  }

  /** The index `getTabFromValue` selects: 0 without a value (`undefined`
      or ""), else the first matching tab, else 0. */
  function SelectedIndex(value: Option<string>, tabs: seq<Tab>): (r: nat)
    requires |tabs| > 0
    ensures r < |tabs|
    ensures value.None? || value.value == "" ==> r == 0
    ensures value.Some? && value.value != "" && r > 0 ==>
              Matches(tabs[r], value.value) && forall j | 0 <= j < r :: !Matches(tabs[j], value.value)
    ensures value.Some? && value.value != "" && (exists j | 0 <= j < |tabs| :: Matches(tabs[j], value.value)) ==>
              Matches(tabs[r], value.value)
  {
    if value.None? || value.value == "" then 0
    else
      var i := FirstMatch(tabs, value.value, 0);
      if i < 0 then 0 else i
  }

  /** `getTabFromValue`: `undefined` exactly when there are no tabs; else
      the selected index with its tab. */
  method GetTabFromValue(value: Option<string>, tabs: seq<Tab>) returns (r: Option<SelectedTab>)
    ensures r.None? <==> tabs == []
    ensures r.Some? ==> r.value.index < |tabs| && r.value.tab == tabs[r.value.index]
    ensures r.Some? ==> r.value.index == SelectedIndex(value, tabs)
  {
    if |tabs| == 0 {
      return None;
    }
    var selected := SelectedTab(0, tabs[0]);
    if value.None? || value.value == "" {
      return Some(selected);
    }
    var v := value.value;
    for ti := 0 to |tabs|
      invariant forall j | 0 <= j < ti :: !Matches(tabs[j], v)
    {
      var tab := tabs[ti];
      if Contains(TabId(Some(tab)), v) || Contains(tab.name, v) {
        selected := SelectedTab(ti, tab);
        assert FirstMatch(tabs, v, 0) == ti by {
          FirstMatchAt(tabs, v, ti);
        }
        return Some(selected);
      }
    }
    assert FirstMatch(tabs, v, 0) == -1;
    return Some(selected);
  }

  /** The first match is at i when i matches and nothing before it does. */
  lemma FirstMatchAt(tabs: seq<Tab>, value: string, i: nat)
    requires i < |tabs| && Matches(tabs[i], value)
    requires forall j | 0 <= j < i :: !Matches(tabs[j], value)
    ensures FirstMatch(tabs, value, 0) == i
  {
  }

  /** Selecting by a tab's own id picks that tab or an earlier one whose id
      or name also contains it: the tab is always reachable by its id when
      no earlier tab shadows it. */
  lemma SelectById(tabs: seq<Tab>, i: nat)
    requires i < |tabs| && TabId(Some(tabs[i])) != ""
    ensures var v := TabId(Some(tabs[i]));
            var r := SelectedIndex(Some(v), tabs);
            r <= i && Matches(tabs[r], v) &&
            ((forall j | 0 <= j < i :: !Matches(tabs[j], v)) ==> r == i)
  {
    var v := TabId(Some(tabs[i]));
    assert v <= v;
    assert Matches(tabs[i], v);
  }
}
