/** The constants, cell labels and legend order of the oncoplot
    (src/components/pages/modules/oncoplot/oncoplot-utils.ts). */
module OncoplotEvents {
  import opened Seqs
  import opened Strs
  import opened StrOrder
  import opened EventCounts

  /** The label of a cell or margin with more than one kind of event. */
  const MULTI_MUTATION: string := "Multi"

  /** The colours handed out in turn to categories without one. */
  const COLOR_PALETTE: seq<string> := ["#000080", "#4682B4", "#87CEEB", "#FFE4B5", "#FFA500", "#FF4500"]

  const NO_ALTERATION_COLOR: string := "#eeeeee"
  const NO_ALTERATIONS_TEXT: string := "No Alterations"
  const OTHER_MUTATION: string := "OTHER"

  /** The largest power of two the sample score uses: numbers are doubles,
      so 2^64 would lose the low bits. */
  const MAX_MEMO_POWER: nat := 50

  /** How a cell or margin with several kinds of event is drawn. */
  datatype MultiMode = Single | StackedBar | EqualBar | Multi

  /** The legend colour of each known event. */
  const DEFAULT_COLOR_MAP: map<string, string> :=
    map["SNP" := "#85C1E9", "INS" := "#EC7063", "DEL" := "#F5B041", "TRUNC" := "#000000",
        "MISSENSE" := "#32CD32", "OTHER" := "#DA70D6", "CNA" := "#0000ff", "EXP" := "#ff0000",
        "Multi" := "#000000"]

  /** `oncoProps.aliases[event] ?? event`. */
  function Alias(aliases: map<string, string>, event: string): string {
    if event in aliases then aliases[event] else event
  }

  /** `getEventLabel`: "" for a cell without events, the multi label when
      several kinds of event are drawn as one, else the (aliased) most
      frequent event. */
  function GetEventLabel(stats: CountMap, aliases: map<string, string>, mode: MultiMode): string {
    if |stats.keys| == 0 then ""
    else if mode != Single && |stats.keys| > 1 then MULTI_MUTATION
    else Alias(aliases, MaxEvent(stats).0)
  }

  /** A cell has no label exactly when it has no event (provided no
      aliased event is ""); one kind of event labels the cell with that
      event; several kinds are "Multi" unless drawn one by one. */
  lemma GetEventLabelSpec(stats: CountMap, aliases: map<string, string>, mode: MultiMode)
    ensures (forall i | 0 <= i < |stats.keys| :: Alias(aliases, stats.keys[i]) != "") ==>
              (GetEventLabel(stats, aliases, mode) == "" <==> stats.keys == [])
    ensures |stats.keys| == 1 ==> GetEventLabel(stats, aliases, mode) == Alias(aliases, stats.keys[0])
    ensures mode != Single && |stats.keys| > 1 ==> GetEventLabel(stats, aliases, mode) == MULTI_MUTATION
  {
    if stats.keys != [] {
      var k := FirstMax(KeyCounts(stats));
      assert MaxEvent(stats).0 == stats.keys[k];
    }
  }

  /** Drawn one by one, a cell is labelled with the first inserted of its
      most frequent events. */
  lemma GetEventLabelMax(stats: CountMap, aliases: map<string, string>)
    requires |stats.keys| > 0
    ensures exists k | 0 <= k < |stats.keys| ::
              GetEventLabel(stats, aliases, Single) == Alias(aliases, stats.keys[k]) &&
              (forall i | 0 <= i < |stats.keys| :: Get(stats, stats.keys[i]) <= Get(stats, stats.keys[k])) &&
              (forall i | 0 <= i < k :: Get(stats, stats.keys[i]) < Get(stats, stats.keys[k]))
  {
    var cs := KeyCounts(stats);
    FirstMaxSpec(cs);
    var k := FirstMax(cs);
    forall i | 0 <= i < |stats.keys| ensures Get(stats, stats.keys[i]) <= Get(stats, stats.keys[k]) {
      assert cs[i] <= cs[k];
    }
    forall i | 0 <= i < k ensures Get(stats, stats.keys[i]) < Get(stats, stats.keys[k]) {
      assert cs[i] < cs[k];
    }
    assert GetEventLabel(stats, aliases, Single) == Alias(aliases, stats.keys[k]);
  }

  /** The elements of s whose membership of xs is `keep`, in the order of s. */
  function FilterIn(s: seq<string>, xs: seq<string>, keep: bool): (r: seq<string>)
    ensures forall x :: x in r <==> x in s && (x in xs) == keep
    ensures NoDups(s) ==> NoDups(r)
    ensures SortedBy(s, Id) ==> SortedBy(r, Id)
    ensures |r| <= |s|
  {
    if s == [] then []
    else
      var init := s[..|s| - 1];
      var x := s[|s| - 1];
      var r0 := FilterIn(init, xs, keep);
      assert forall y :: y in s <==> y in init || y == x;
      assert NoDups(s) ==> x !in init;
      assert SortedBy(s, Id) ==> SortedBy(init, Id) && forall y | y in init :: LexLe(y, x);
      if (x in xs) == keep then r0 + [x] else r0
  }

  /** `orderEvents(events, oncoProps)`: the events named in the plot order,
      in that order, then the remaining events in sorted order. */
  function OrderEvents(events: seq<string>, plotorder: seq<string>): seq<string> {
    var ordered := FilterIn(plotorder, events, true);
    ordered + FilterIn(SortStrings(events), ordered, false)
  }

  /** The legend lists every event and nothing else, each once (given a
      plot order without repeats), the known ones first in the plot order,
      the others sorted. */
  lemma OrderEventsSpec(events: seq<string>, plotorder: seq<string>)
    requires NoDups(events)
    ensures var r := OrderEvents(events, plotorder);
            var ordered := FilterIn(plotorder, events, true);
            (forall x :: x in r <==> x in events) &&
            (NoDups(plotorder) ==> NoDups(r)) &&
            r[..|ordered|] == ordered && (forall x | x in ordered :: x in plotorder) &&
            (forall x | x in r[|ordered|..] :: x !in plotorder) &&
            SortedBy(r[|ordered|..], Id)
  {
    var ordered := FilterIn(plotorder, events, true);
    var rest := FilterIn(SortStrings(events), ordered, false);
    var r := ordered + rest;
    SortedKeys(events);
    assert r[..|ordered|] == ordered && r[|ordered|..] == rest;
    if NoDups(plotorder) {
      forall i, j | 0 <= i < j < |r| ensures r[i] != r[j] {
        if i < |ordered| <= j {
          assert r[j] in rest;
          assert r[i] in ordered;
        } else if |ordered| <= i {
          assert r[i] == rest[i - |ordered|] && r[j] == rest[j - |ordered|];
        }
      }
    }
  }

  /** A legend order that names none of the events sorts them. */
  lemma OrderEventsUnknown(events: seq<string>, plotorder: seq<string>)
    requires NoDups(events)
    requires forall x | x in plotorder :: x !in events
    ensures OrderEvents(events, plotorder) == SortStrings(events)
  {
    FilterNone(plotorder, events, true);
    SortedKeys(events);
    FilterAll(SortStrings(events), [], false);
  }

  /** Filtering out nothing keeps everything. */
  lemma {:induction false} FilterAll(s: seq<string>, xs: seq<string>, keep: bool)
    requires forall x | x in s :: (x in xs) == keep
    ensures FilterIn(s, xs, keep) == s
  {
    if s != [] {
      var init := s[..|s| - 1];
      assert s == init + [s[|s| - 1]];
      FilterAll(init, xs, keep);
    }
  }

  /** Filtering depends only on the members of the list filtered against. */
  lemma {:induction false} FilterSameMembers(s: seq<string>, xs: seq<string>, ys: seq<string>, keep: bool)
    requires forall x :: x in xs <==> x in ys
    ensures FilterIn(s, xs, keep) == FilterIn(s, ys, keep)
  {
    if s != [] {
      FilterSameMembers(s[..|s| - 1], xs, ys, keep);
    }
  }

  /** Keeping nothing leaves nothing. */
  lemma {:induction false} FilterNone(s: seq<string>, xs: seq<string>, keep: bool)
    requires forall x | x in s :: (x in xs) != keep
    ensures FilterIn(s, xs, keep) == []
  {
    if s != [] {
      FilterNone(s[..|s| - 1], xs, keep);
    }
  }

  /** The colour of every legend entry: the default colour of the event, or
      the colour of "OTHER" for an event without one. */
  function LegendColors(legend: seq<string>): (r: map<string, string>)
    ensures forall e :: e in r <==> e in legend
    ensures forall e | e in r :: r[e] == if e in DEFAULT_COLOR_MAP then DEFAULT_COLOR_MAP[e] else "#DA70D6"
  {
    map e | e in legend :: if e in DEFAULT_COLOR_MAP then DEFAULT_COLOR_MAP[e] else DEFAULT_COLOR_MAP[OTHER_MUTATION]
  }
}
