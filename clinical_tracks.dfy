/** `ClinicalDataTrack` and `makeClinicalTracks`
    (src/components/pages/modules/oncoplot/clinical-utils.ts): one track per
    column of a clinical table after the first (the samples), set up from
    the column header, filled from the column's cells, and given a colour
    per category. */
module ClinicalTracks {
  import opened Wrappers
  import opened Seqs
  import opened Strs
  import opened Cell
  import opened BaseFrames
  import DataFrames
  import opened EventCounts
  import opened OncoplotEvents
  import opened ClinicalHeaders
  import opened ClinicalSamples

  // ------------------------------------------------------------ the class

  /** A track: its name, type and declared categories, and `_samples`. */
  class ClinicalDataTrack {
    const name: string
    const kind: ClinicalDataType
    const declared: seq<string>
    var samples: Samples

    ghost predicate Valid()
      reads this
    {
      SamplesOk(samples)
    }

    constructor(name: string, categories: seq<string>, kind: ClinicalDataType)
      ensures this.name == name && declared == categories && this.kind == kind
      ensures samples == NoSamples && Valid()
    {
      this.name := name;
      this.declared := categories;
      this.kind := kind;
      samples := NoSamples;
    }

    /** `getEvents(sample)`: the sample's counts, stored first as an empty
        map when the sample is new. */
    method GetEvents(sample: string) returns (m: CountMap)
      requires Valid()
      modifies this
      ensures Valid() && samples == WithSample(old(samples), sample)
      ensures m == CountsOf(old(samples), sample) && m == samples.maps[sample]
    {
      WithSampleSpec(samples, sample);
      if sample !in samples.maps {
        samples := Samples(samples.keys + [sample], samples.maps[sample := Empty]);
      }
      m := samples.maps[sample];
    }

    /** `set(sample, event, count)`. */
    method Set(sample: string, event: string, count: real)
      requires Valid()
      modifies this
      ensures Valid() && samples == SetCount(old(samples), sample, event, count)
    {
      SetCountSpec(samples, sample, event, count);
      var m := GetEvents(sample);
      samples := Samples(samples.keys, samples.maps[sample := Added(m, event, count)]);
    }

    /** `getClinicalData(sample)`. */
    method GetClinicalData(sample: string) returns (r: seq<(string, Number)>)
      requires Valid()
      modifies this
      ensures Valid() && samples == WithSample(old(samples), sample)
      ensures r == ClinicalData(kind, declared, CountsOf(old(samples), sample))
    {
      var m := GetEvents(sample);
      match kind
      case NumberTrack =>
        r := [("counts", Finite(SumCounts(m)))];
      case DistTrack =>
        r := NormCountDist(m, declared);
      case _ =>
        var e := MaxEvent(m);
        r := [(e.0, Finite(e.1))];
    }
  }

  // ------------------------------------------------------------ loading

  /** `Number(v)` of a cell; `p.number` converts text. */
  function ToNumber(v: Cell, p: Parsers): Number {
    match v
    case Num(n) => n
    case Str(s) => p.number(s)
    case Bool(b) => Finite(if b then 1.0 else 0.0)
    case Date(t) => Finite(t as real)
    case Null => Finite(0.0)
  }

  /** `NUMERICAL_DIST_REGEX` (`^\d+([\/\|]\d+)*$`) on the pieces of a cell:
      every piece is a non-empty run of digits. */
  predicate NumericalDist(tokens: seq<string>) {
    forall k | 0 <= k < |tokens| :: |tokens[k]| > 0 && forall i | 0 <= i < |tokens[k]| :: IsDigit(tokens[k][i])
  }

  /** The pieces with "0" pushed until there are at least n. */
  function Padded(tokens: seq<string>, n: nat): (r: seq<string>)
    ensures |r| >= n && |r| >= |tokens| && r[..|tokens|] == tokens
    ensures forall k | |tokens| <= k < |r| :: r[k] == "0"
  {
    if |tokens| >= n then tokens else tokens + seq(n - |tokens|, _ => "0")
  }

  /** `Number(x)` of a run of digits. */
  function DistValues(tokens: seq<string>): (r: seq<real>)
    ensures |r| == |tokens|
  {
    seq(|tokens|, k requires 0 <= k < |tokens| => DigitsValue(tokens[k]) as real)
  }

  /** The state after `set(sample, cats[k], values[k])` for k below n. */
  function SetValues(d: Samples, sample: string, cats: seq<string>, values: seq<real>, n: nat): Samples
    requires n <= |cats| <= |values|
  {
    if n == 0 then d else SetCount(SetValues(d, sample, cats, values, n - 1), sample, cats[n - 1], values[n - 1])
  }

  /** The state after the first n pieces: each counts 1 when no categories
      were set up or it is one of them. */
  function SetTokens(d: Samples, sample: string, tokens: seq<string>, allowed: seq<string>, n: nat): Samples
    requires n <= |tokens|
  {
    if n == 0 then d
    else
      var e := SetTokens(d, sample, tokens, allowed, n - 1);
      if |allowed| == 0 || tokens[n - 1] in allowed then SetCount(e, sample, tokens[n - 1], 1.0) else e
  }

  /** What loading one row needs to know of the track: its name, type and
      declared categories, whether its header says `multi=t`, and the
      categories set up before loading. */
  datatype TrackInfo = TrackInfo(name: string, kind: ClinicalDataType, declared: seq<string>, multi: bool,
                                 allowed: seq<string>)

  /** Loading the cell v of a row for sample: a numeric track records the
      number of a cell that is a number under the track's name; a
      distribution track records the digits of a cell such as `3/0/1` as
      the counts of its categories (or one "Multi" when `multi=t` and there
      are several), and otherwise counts each piece once. */
  function LoadCell(info: TrackInfo, d: Samples, sample: string, v: Cell, p: Parsers, fmt: Formats): Samples {
    if info.kind != DistTrack then
      var n := ToNumber(v, p);
      if n.NaN? then d else SetCount(d, sample, info.name, n.v)
    else
      var tokens := SplitBars(ToText(v, fmt));
      if NumericalDist(tokens) then
        var cats := Categories(info.declared, d);
        var values := DistValues(Padded(tokens, |cats|));
        if info.multi && |values| > 1 then SetCount(d, sample, MULTI_MUTATION, 1.0)
        else SetValues(d, sample, cats, values, |cats|)
      else SetTokens(d, sample, tokens, info.allowed, |tokens|)
  }

  /** The state after the first n rows; `cells` is the track's column and
      `names` the sample column. */
  function LoadRows(info: TrackInfo, d: Samples, cells: seq<Cell>, names: seq<Cell>, n: nat, p: Parsers, fmt: Formats): Samples
    requires n <= |cells| == |names|
  {
    if n == 0 then d
    else LoadCell(info, LoadRows(info, d, cells, names, n - 1, p, fmt), ToText(names[n - 1], fmt), cells[n - 1], p, fmt)
  }

  /** Sets the counts of the categories of a row. */
  method SetCategoryValues(track: ClinicalDataTrack, sample: string, cats: seq<string>, values: seq<real>)
    requires track.Valid() && |cats| <= |values|
    modifies track
    ensures track.Valid() && track.samples == SetValues(old(track.samples), sample, cats, values, |cats|)
  {
    ghost var d := track.samples;
    for k := 0 to |cats|
      invariant track.Valid() && track.samples == SetValues(d, sample, cats, values, k)
    {
      track.Set(sample, cats[k], values[k]);
    }
  }

  /** Counts the pieces of a row. */
  method SetTokenEvents(track: ClinicalDataTrack, sample: string, tokens: seq<string>, allowed: seq<string>)
    requires track.Valid()
    modifies track
    ensures track.Valid() && track.samples == SetTokens(old(track.samples), sample, tokens, allowed, |tokens|)
  {
    ghost var d := track.samples;
    for k := 0 to |tokens|
      invariant track.Valid() && track.samples == SetTokens(d, sample, tokens, allowed, k)
    {
      if |allowed| == 0 || tokens[k] in allowed {
        track.Set(sample, tokens[k], 1.0);
      }
    }
  }

  /** Loads the cell of one row. */
  method LoadCellInto(track: ClinicalDataTrack, info: TrackInfo, sample: string, v: Cell, p: Parsers, fmt: Formats)
    requires track.Valid() && info.name == track.name && info.kind == track.kind && info.declared == track.declared
    modifies track
    ensures track.Valid() && track.samples == LoadCell(info, old(track.samples), sample, v, p, fmt)
  {
    if track.kind != DistTrack {
      var n := ToNumber(v, p);
      if !n.NaN? {
        track.Set(sample, track.name, n.v);
      }
    } else {
      var tokens := SplitBars(ToText(v, fmt));
      if NumericalDist(tokens) {
        var cats := Categories(track.declared, track.samples);
        var values := DistValues(Padded(tokens, |cats|));
        if info.multi && |values| > 1 {
          track.Set(sample, MULTI_MUTATION, 1.0);
        } else {
          SetCategoryValues(track, sample, cats, values);
        }
      } else {
        SetTokenEvents(track, sample, tokens, info.allowed);
      }
    }
  }

  /** Loads every row of the table into a track. */
  method LoadTrack(track: ClinicalDataTrack, info: TrackInfo, cells: seq<Cell>, names: seq<Cell>, p: Parsers, fmt: Formats)
    requires track.Valid() && info.name == track.name && info.kind == track.kind && info.declared == track.declared
    requires |cells| == |names|
    modifies track
    ensures track.Valid() && track.samples == LoadRows(info, old(track.samples), cells, names, |cells|, p, fmt)
  {
    ghost var d := track.samples;
    for row := 0 to |cells|
      invariant track.Valid() && track.samples == LoadRows(info, d, cells, names, row, p, fmt)
    {
      LoadCellInto(track, info, ToText(names[row], fmt), cells[row], p, fmt);
    }
  }

  // ------------------------------------------------------------ colours

  /** The `categories.forEach` that gives every category without a colour
      the palette colour of its position. */
  function AssignColors(colors: map<string, string>, cats: seq<string>): map<string, string> {
    if cats == [] then colors
    else
      var m := AssignColors(colors, cats[..|cats| - 1]);
      var ci := |cats| - 1;
      if cats[ci] in m then m else m[cats[ci] := COLOR_PALETTE[ci % |COLOR_PALETTE|]]
  }

  /** Afterwards every category has a colour, a colour set before is kept,
      and nothing else gains a colour. */
  lemma {:induction false} AssignColorsKeys(colors: map<string, string>, cats: seq<string>)
    ensures var r := AssignColors(colors, cats);
            (forall e :: e in r <==> e in colors || e in cats) &&
            (forall e | e in colors :: r[e] == colors[e])
  {
    if cats != [] {
      AssignColorsKeys(colors, cats[..|cats| - 1]);
      assert forall e :: e in cats <==> e in cats[..|cats| - 1] || e == cats[|cats| - 1];
    }
  }

  /** The first occurrence of a category that had no colour gets the
      palette colour of its position. */
  lemma {:induction false} AssignColorsPalette(colors: map<string, string>, cats: seq<string>, ci: nat)
    requires ci < |cats| && cats[ci] !in colors
    requires forall j | 0 <= j < ci :: cats[j] != cats[ci]
    ensures cats[ci] in AssignColors(colors, cats)
    ensures AssignColors(colors, cats)[cats[ci]] == COLOR_PALETTE[ci % 6]
  {
    var init := cats[..|cats| - 1];
    AssignColorsKeys(colors, init);
    if ci < |init| {
      AssignColorsPalette(colors, init, ci);
    } else {
      assert cats[ci] !in init;
    }
  }

  /** The colour loop of `makeClinicalTracks`. */
  method ColorCategories(colors: map<string, string>, cats: seq<string>) returns (cm: map<string, string>)
    ensures cm == AssignColors(colors, cats)
  {
    cm := colors;
    for ci := 0 to |cats|
      invariant cm == AssignColors(colors, cats[..ci])
    {
      assert cats[..ci + 1][..ci] == cats[..ci];
      if cats[ci] !in cm {
        cm := cm[cats[ci] := COLOR_PALETTE[ci % |COLOR_PALETTE|]];
      }
    }
    assert cats[..|cats|] == cats;
  }

  // ------------------------------------------------------------ the tracks

  /** `IClinicalTrackProps`. */
  datatype TrackProps = TrackProps(show: bool, colorMap: map<string, string>)

  /** `header => …`: the header callback with `COLOR_REGEX.test` as
      isColor. */
  function HeaderParser(isColor: string -> bool): string -> Header {
    h => ParseHeader(h, isColor)
  }

  /** The headers of the tracks: every column name after the first,
      parsed. */
  function Headers(hs: seq<string>, parse: string -> Header): (r: seq<Header>)
    ensures |r| == if |hs| > 0 then |hs| - 1 else 0
  {
    if |hs| <= 1 then [] else Headers(hs[..|hs| - 1], parse) + [parse(hs[|hs| - 1])]
  }

  /** Track k is set up from column k + 1. */
  lemma {:induction false} HeadersSpec(hs: seq<string>, parse: string -> Header, k: nat)
    requires k + 1 < |hs|
    ensures Headers(hs, parse)[k] == parse(hs[k + 1])
  {
    if k + 2 < |hs| {
      HeadersSpec(hs[..|hs| - 1], parse, k);
    }
  }

  /** What loading needs to know of a track. */
  function InfoOf(h: Header): TrackInfo {
    TrackInfo(h.name, h.kind, h.events, h.multi, Categories(h.events, NoSamples))
  }

  /** The samples of the track with header h, column ti + 1, once the table
      is loaded. */
  function Loaded(f: Frame, h: Header, ti: nat, fmt: Formats, p: Parsers): Samples {
    LoadRows(InfoOf(h), NoSamples, DataFrames.Column(f.data, ti + 1), DataFrames.Column(f.data, 0), |f.data|, p, fmt)
  }

  /** The colour map of a track at the end: a distribution track colours
      its categories. */
  function TrackColors(h: Header, d: Samples): map<string, string> {
    if h.kind == DistTrack then AssignColors(h.colorMap, Categories(h.events, d)) else h.colorMap
  }

  /** A track set up from header h. */
  ghost predicate SetUpFrom(t: ClinicalDataTrack, h: Header)
    reads t
  {
    t.name == h.name && t.kind == h.kind && t.declared == h.events && t.Valid()
  }

  /** One new empty track per header, and its colour map. */
  method CreateTracks(heads: seq<Header>) returns (tracks: seq<ClinicalDataTrack>, colors: seq<map<string, string>>)
    ensures |tracks| == |colors| == |heads|
    ensures forall a, b | 0 <= a < b < |tracks| :: tracks[a] != tracks[b]
    ensures forall ti | 0 <= ti < |tracks| :: fresh(tracks[ti])
    ensures forall ti | 0 <= ti < |tracks| ::
              SetUpFrom(tracks[ti], heads[ti]) && tracks[ti].samples == NoSamples && colors[ti] == heads[ti].colorMap
  {
    tracks, colors := [], [];
    for ti := 0 to |heads|
      invariant |tracks| == |colors| == ti
      invariant forall a, b | 0 <= a < b < ti :: tracks[a] != tracks[b]
      invariant forall k | 0 <= k < ti :: fresh(tracks[k])
      invariant forall k | 0 <= k < ti ::
                  SetUpFrom(tracks[k], heads[k]) && tracks[k].samples == NoSamples && colors[k] == heads[k].colorMap
    {
      var h := heads[ti];
      var t := new ClinicalDataTrack(h.name, h.events, h.kind);
      tracks, colors := tracks + [t], colors + [h.colorMap];
    }
  }

  /** Loads every track from its column. */
  method LoadTracks(tracks: seq<ClinicalDataTrack>, heads: seq<Header>, f: Frame, fmt: Formats, p: Parsers)
    requires |tracks| == |heads|
    requires forall a, b | 0 <= a < b < |tracks| :: tracks[a] != tracks[b]
    requires forall ti | 0 <= ti < |tracks| :: SetUpFrom(tracks[ti], heads[ti]) && tracks[ti].samples == NoSamples
    modifies set t | t in tracks
    ensures forall ti | 0 <= ti < |tracks| ::
              SetUpFrom(tracks[ti], heads[ti]) && tracks[ti].samples == Loaded(f, heads[ti], ti, fmt, p)
  {
    for ti := 0 to |tracks|
      invariant forall k | 0 <= k < |tracks| :: SetUpFrom(tracks[k], heads[k])
      invariant forall k | 0 <= k < ti :: tracks[k].samples == Loaded(f, heads[k], k, fmt, p)
      invariant forall k | ti <= k < |tracks| :: tracks[k].samples == NoSamples
    {
      var t := tracks[ti];
      assert forall k | 0 <= k < |tracks| && k != ti :: tracks[k] != t;
      LoadColumn(t, heads[ti], f, ti, fmt, p);
    }
  }

  /** Loads a new track from column ti + 1. */
  method LoadColumn(t: ClinicalDataTrack, h: Header, f: Frame, ti: nat, fmt: Formats, p: Parsers)
    requires SetUpFrom(t, h) && t.samples == NoSamples
    modifies t
    ensures SetUpFrom(t, h) && t.samples == Loaded(f, h, ti, fmt, p)
  {
    CategoriesOfNone(t.declared);
    LoadTrack(t, InfoOf(h), DataFrames.Column(f.data, ti + 1), DataFrames.Column(f.data, 0), p, fmt);
  }

  /** `makeClinicalTracks(df)`: nothing without a table; otherwise one
      track and one props entry per column after the first, each set up
      from the column's header, filled from its cells and, for a
      distribution track, with a colour for every category. `isColor` is
      `COLOR_REGEX.test`. */
  method MakeClinicalTracks(df: Option<Frame>, fmt: Formats, p: Parsers, isColor: string -> bool)
      returns (tracks: seq<ClinicalDataTrack>, props: seq<TrackProps>)
    ensures |tracks| == |props|
    ensures df.None? ==> tracks == [] && props == []
    ensures df.Some? ==>
              var heads := Headers(ColNames(df.value, fmt), HeaderParser(isColor));
              |tracks| == |heads| &&
              forall ti | 0 <= ti < |tracks| ::
                SetUpFrom(tracks[ti], heads[ti]) && tracks[ti].samples == Loaded(df.value, heads[ti], ti, fmt, p) &&
                props[ti] == TrackProps(true, TrackColors(heads[ti], tracks[ti].samples))
    ensures forall a, b | 0 <= a < b < |tracks| :: tracks[a] != tracks[b]
  {
    if df.None? {
      return [], [];
    }
    var f := df.value;
    var heads := Headers(ColNames(f, fmt), HeaderParser(isColor));
    var colors;
    tracks, colors := CreateTracks(heads);
    LoadTracks(tracks, heads, f, fmt, p);
    props := ColorTracks(tracks, heads, colors);
  }

  /** The props of every track: shown, with its colour map, in which a
      distribution track colours its categories. */
  method ColorTracks(tracks: seq<ClinicalDataTrack>, heads: seq<Header>, colors: seq<map<string, string>>)
      returns (props: seq<TrackProps>)
    requires |tracks| == |heads| == |colors|
    requires forall ti | 0 <= ti < |tracks| :: SetUpFrom(tracks[ti], heads[ti]) && colors[ti] == heads[ti].colorMap
    ensures |props| == |tracks|
    ensures forall ti | 0 <= ti < |tracks| :: props[ti] == TrackProps(true, TrackColors(heads[ti], tracks[ti].samples))
  {
    props := [];
    for ti := 0 to |tracks|
      invariant |props| == ti
      invariant forall k | 0 <= k < ti :: props[k] == TrackProps(true, TrackColors(heads[k], tracks[k].samples))
    {
      var t := tracks[ti];
      var cm := colors[ti];
      if t.kind == DistTrack {
        cm := ColorCategories(cm, Categories(t.declared, t.samples));
      }
      props := props + [TrackProps(true, cm)];
    }
  }
}
