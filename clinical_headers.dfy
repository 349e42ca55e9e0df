/** The column headers of a clinical table
    (src/components/pages/modules/oncoplot/clinical-utils.ts): a header such
    as `Stage (I:#ff0000/II/III)` or `Age (number)` names a track, gives its
    type, the categories it declares and their colours. */
module ClinicalHeaders {
  import opened Wrappers
  import opened Strs

  /** `ClinicalDataType`. */
  datatype ClinicalDataType = NumberTrack | LogNumberTrack | Log2NumberTrack | DistTrack

  /** The colour a named track starts with (medium sea green). */
  const MEDIUM_SEA_GREEN: string := "#3cb371"

  // ------------------------------------------------------------ the pattern

  predicate IsParen(c: char) { c == '(' || c == ')' }

  /** The characters `.` does not match in a JavaScript pattern. */
  predicate IsLineEnd(c: char) {
    c == '\n' || c == '\r' || c == '\U{2028}' || c == '\U{2029}'
  }

  /** The length of the run of characters other than parentheses that the
      header starts with. */
  function NameEnd(h: string): (k: nat)
    ensures k <= |h|
    ensures forall i | 0 <= i < k :: !IsParen(h[i])
    ensures k < |h| ==> IsParen(h[k])
  {
    if h == [] || IsParen(h[0]) then 0 else 1 + NameEnd(h[1..])
  }

  /** The length of the first line of s. */
  function LineEnd(s: string): (k: nat)
    ensures k <= |s|
    ensures forall i | 0 <= i < k :: !IsLineEnd(s[i])
    ensures k < |s| ==> IsLineEnd(s[k])
  {
    if s == [] || IsLineEnd(s[0]) then 0 else 1 + LineEnd(s[1..])
  }

  /** `s.lastIndexOf(c)`, -1 when absent. */
  function LastIndex(s: string, c: char): (r: int)
    ensures -1 <= r < |s|
    ensures r >= 0 ==> s[r] == c
    ensures forall i | r < i < |s| :: s[i] != c
  {
    if s == [] then -1
    else if s[|s| - 1] == c then |s| - 1
    else LastIndex(s[..|s| - 1], c)
  }

  /** The two groups of a match of `^([^\(\)]+)(?:\((.+)\))?`. */
  datatype HeaderMatch = HeaderMatch(name: string, params: Option<string>)

  /** The text between the '(' rest starts with and the last ')' on the
      same line, when there is at least one character between them. */
  function Params(rest: string): Option<string> {
    if rest == [] || rest[0] != '(' then None
    else
      var line := rest[1..][..LineEnd(rest[1..])];
      var q := LastIndex(line, ')');
      if q >= 1 then Some(line[..q]) else None
  }

  /** `header.match(/^([^\(\)]+)(?:\((.+)\))?/)`. */
  function MatchHeader(h: string): Option<HeaderMatch> {
    var k := NameEnd(h);
    if k == 0 then None else Some(HeaderMatch(h[..k], Params(h[k..])))
  }

  /** A header matches unless it is empty or starts with a parenthesis, and
      the name is then the longest prefix without parentheses. */
  lemma MatchHeaderSpec(h: string)
    ensures MatchHeader(h).Some? <==> h != [] && !IsParen(h[0])
    ensures MatchHeader(h).Some? ==>
              var m := MatchHeader(h).value;
              |m.name| > 0 && m.name == h[..NameEnd(h)] && m.params == Params(h[NameEnd(h)..])
  {
  }

  /** The parameters are the non-empty text of one line between the '('
      the rest starts with and the last ')' of that line; there are some
      whenever that line has a ')' after at least one character. */
  lemma ParamsSpec(rest: string)
    ensures Params(rest).Some? ==>
              var p := Params(rest).value;
              |p| > 0 && |p| + 2 <= |rest| && rest[0] == '(' && rest[1..|p| + 1] == p &&
              rest[|p| + 1] == ')' && (forall i | 0 <= i < |p| :: !IsLineEnd(p[i])) &&
              (forall i | |p| + 1 < i <= LineEnd(rest[1..]) :: rest[i] != ')')
    ensures (rest != [] && rest[0] == '(' &&
             exists q | 2 <= q <= LineEnd(rest[1..]) :: rest[q] == ')') ==> Params(rest).Some?
  {
    if rest != [] && rest[0] == '(' {
      var line := rest[1..][..LineEnd(rest[1..])];
      var q := LastIndex(line, ')');
      if q >= 1 {
        assert line[..q] == rest[1..q + 1];
        assert rest[q + 1] == line[q];
        forall i | q + 1 < i <= LineEnd(rest[1..]) ensures rest[i] != ')' {
          assert rest[i] == line[i - 1];
        }
      }
      if exists j | 2 <= j <= LineEnd(rest[1..]) :: rest[j] == ')' {
        var j :| 2 <= j <= LineEnd(rest[1..]) && rest[j] == ')';
        assert line[j - 1] == ')';
      }
    }
  }

  // ------------------------------------------------------------ parameters

  /** The event of a `name:colour` item: the text before the first ':'. */
  function ItemName(item: string): string {
    Split(item, ':')[0]
  }

  /** The item names a second part that is a colour. */
  predicate HasColor(item: string, isColor: string -> bool) {
    var t := Split(item, ':');
    |t| > 1 && isColor(t[1])
  }

  /** The second part of an item. */
  function ItemColor(item: string): string
    requires |Split(item, ':')| > 1
  {
    Split(item, ':')[1]
  }

  /** `s.split(/[\/\|]/)`. */
  function SplitBars(s: string): (r: seq<string>)
    ensures |r| >= 1
  {
    Split(ReplaceChar(s, '|', '/'), '/')
  }

  /** No piece of `split(/[\/\|]/)` holds either separator. */
  lemma SplitBarsPieces(s: string)
    ensures forall k | 0 <= k < |SplitBars(s)| :: '/' !in SplitBars(s)[k] && '|' !in SplitBars(s)[k]
  {
    var t := ReplaceChar(s, '|', '/');
    SplitNoSeparator(t, '/');
    assert '|' !in t;
    JoinSplit(t, '/');
    forall k | 0 <= k < |SplitBars(s)| ensures '|' !in SplitBars(s)[k] {
      PieceWithout(t, '/', '|', k);
    }
  }

  /** A character absent from a string is absent from each of its pieces. */
  lemma {:induction false} PieceWithout(s: string, c: char, d: char, k: nat)
    requires d !in s && k < |Split(s, c)|
    ensures d !in Split(s, c)[k]
    decreases |s|
  {
    var i := IndexOf(s, c);
    if i >= 0 {
      if k > 0 {
        PieceWithout(s[i + 1..], c, d, k - 1);
      }
    }
  }

  /** The type a parameter names: `number`, `lognumber` and `log2number`
      are numeric, anything else a distribution. */
  function TypeOf(t: string): (r: ClinicalDataType)
    ensures r != LogNumberTrack
  {
    if t == "number" then NumberTrack
    else if t == "lognumber" || t == "log2number" then Log2NumberTrack
    else DistTrack
  }

  /** The `forEach` over the declared categories: each item adds its name
      to the events and, when it names a colour, sets the name's colour. */
  function DeclaredEvents(ids: seq<string>, colors: map<string, string>, isColor: string -> bool): (r: (seq<string>, map<string, string>))
    ensures |r.0| == |ids|
  {
    if ids == [] then ([], colors)
    else
      var p := DeclaredEvents(ids[..|ids| - 1], colors, isColor);
      var id := ids[|ids| - 1];
      (p.0 + [ItemName(id)], if HasColor(id, isColor) then p.1[ItemName(id) := ItemColor(id)] else p.1)
  }

  /** The position of the last item that gives e a colour, -1 when none
      does. */
  function LastColored(ids: seq<string>, e: string, isColor: string -> bool): (i: int)
    ensures -1 <= i < |ids|
    ensures i >= 0 ==> HasColor(ids[i], isColor) && ItemName(ids[i]) == e
    ensures forall j | i < j < |ids| :: !(HasColor(ids[j], isColor) && ItemName(ids[j]) == e)
  {
    if ids == [] then -1
    else if HasColor(ids[|ids| - 1], isColor) && ItemName(ids[|ids| - 1]) == e then |ids| - 1
    else LastColored(ids[..|ids| - 1], e, isColor)
  }

  /** The events are the item names, in order. */
  lemma {:induction false} DeclaredNames(ids: seq<string>, colors: map<string, string>, isColor: string -> bool)
    ensures forall i | 0 <= i < |ids| :: DeclaredEvents(ids, colors, isColor).0[i] == ItemName(ids[i])
  {
    if ids != [] {
      DeclaredNames(ids[..|ids| - 1], colors, isColor);
    }
  }

  /** An event has a colour exactly when it had one or some item gives it
      one, and then the last such item decides it. */
  lemma {:induction false} DeclaredColors(ids: seq<string>, colors: map<string, string>, isColor: string -> bool)
    ensures var r := DeclaredEvents(ids, colors, isColor);
            forall e :: (e in r.1 <==> e in colors || LastColored(ids, e, isColor) >= 0) &&
                        (e in r.1 ==> var i := LastColored(ids, e, isColor);
                                      r.1[e] == if i >= 0 then ItemColor(ids[i]) else colors[e])
  {
    if ids != [] {
      var init := ids[..|ids| - 1];
      DeclaredColors(init, colors, isColor);
      forall i | 0 <= i < |init| ensures ids[i] == init[i] { }
    }
  }

  /** An event with a colour keeps having one. */
  lemma {:induction false} DeclaredKeeps(ids: seq<string>, colors: map<string, string>, isColor: string -> bool, e: string)
    requires e in colors
    ensures e in DeclaredEvents(ids, colors, isColor).1
  {
    if ids != [] {
      DeclaredKeeps(ids[..|ids| - 1], colors, isColor, e);
    }
  }

  // ------------------------------------------------------------ headers

  /** What a header sets up: the track name, its type, its declared
      categories (`events`), its colour map and whether it says
      `multi=t`. */
  datatype Header = Header(name: string, kind: ClinicalDataType, events: seq<string>, colorMap: map<string, string>,
                           multi: bool)

  /** `header.toLowerCase().includes("multi=t")`. */
  predicate IsMulti(h: string) {
    Contains(Lower(h), "multi=t")
  }

  /** The body of the `colNames.slice(1).map(header => …)` callback.
      `isColor` is `COLOR_REGEX.test`. */
  function ParseHeader(h: string, isColor: string -> bool): Header {
    match MatchHeader(h)
    case None => Header("", DistTrack, [], map[], IsMulti(h))
    case Some(m) => FromMatch(m, IsMulti(h), isColor)
  }

  /** The first parameter, `matcher[2].split(",")[0]`. */
  function FirstParam(m: HeaderMatch): Option<string> {
    if m.params.Some? then Some(Split(m.params.value, ',')[0]) else None
  }

  /** The callback once the header matched: the trimmed name with its
      colour, the type named by the first parameter, and the declared
      categories of a distribution track that is not `multi=t`. */
  function FromMatch(m: HeaderMatch, multi: bool, isColor: string -> bool): Header {
    var name := Trim(m.name);
    var fp := FirstParam(m);
    var color := if fp.Some? && HasColor(fp.value, isColor) then ItemColor(fp.value) else MEDIUM_SEA_GREEN;
    var kind := if fp.Some? then TypeOf(ItemName(fp.value)) else DistTrack;
    var colors := map[name := color];
    if kind == DistTrack && fp.Some? && !multi then
      var d := DeclaredEvents(SplitBars(fp.value), colors, isColor);
      Header(name, kind, d.0, d.1, multi)
    else Header(name, kind, [], colors, multi)
  }

  /** A matched header names the track by the trimmed name, which has a
      colour. */
  lemma FromMatchName(m: HeaderMatch, multi: bool, isColor: string -> bool)
    ensures var r := FromMatch(m, multi, isColor);
            r.name == Trim(m.name) && r.name in r.colorMap && r.multi == multi
  {
    var fp := FirstParam(m);
    var name := Trim(m.name);
    if fp.Some? && TypeOf(ItemName(fp.value)) == DistTrack && !multi {
      var color := if HasColor(fp.value, isColor) then ItemColor(fp.value) else MEDIUM_SEA_GREEN;
      var d := DeclaredEvents(SplitBars(fp.value), map[name := color], isColor);
      DeclaredKeeps(SplitBars(fp.value), map[name := color], isColor, name);
      assert FromMatch(m, multi, isColor) == Header(name, DistTrack, d.0, d.1, multi);
    }
  }

  /** The type is the one the first parameter names, a distribution
      without parameters. */
  lemma FromMatchKind(m: HeaderMatch, multi: bool, isColor: string -> bool)
    ensures FromMatch(m, multi, isColor).kind ==
              if FirstParam(m).Some? then TypeOf(ItemName(FirstParam(m).value)) else DistTrack
  {
  }

  /** Only a distribution track that is not `multi=t` declares categories,
      one per item of the first parameter, named by the item. */
  lemma FromMatchEvents(m: HeaderMatch, multi: bool, isColor: string -> bool)
    ensures var r := FromMatch(m, multi, isColor);
            (r.events != [] ==> r.kind == DistTrack && !multi && FirstParam(m).Some?) &&
            (r.kind == DistTrack && !multi && FirstParam(m).Some? ==>
               var items := SplitBars(FirstParam(m).value);
               |r.events| == |items| && forall i | 0 <= i < |items| :: r.events[i] == ItemName(items[i]))
  {
    var fp := FirstParam(m);
    if fp.Some? {
      var color := if HasColor(fp.value, isColor) then ItemColor(fp.value) else MEDIUM_SEA_GREEN;
      DeclaredNames(SplitBars(fp.value), map[Trim(m.name) := color], isColor);
    }
  }

  /** A header that does not match gives an unnamed distribution track with
      no colours. */
  lemma ParseHeaderUnmatched(h: string, isColor: string -> bool)
    requires h == [] || IsParen(h[0])
    ensures ParseHeader(h, isColor) == Header("", DistTrack, [], map[], IsMulti(h))
  {
    MatchHeaderSpec(h);
  }
}
