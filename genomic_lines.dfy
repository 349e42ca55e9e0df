/** The line-oriented location readers of src/modules/genomic/genomic.ts:
    the `isChr` and `isLocation` tests, `parseLoc` and `parseLocations`. */
module GenomicLines {
  import opened Wrappers
  import opened Strs
  import opened ChrNames
  import opened Genomic

  // ------------------------------------------------------------ isChr / isLocation

  /** "chr" and one character that `.` matches start at position i. */
  predicate ChrAt(s: string, i: nat) {
    i + 3 < |s| && s[i..i + 3] == "chr" && LineChar(s[i + 3])
  }

  /** `isChr`: the pattern `chr.+` occurs somewhere in the text. */
  predicate IsChr(s: string) {
    exists i :: 0 <= i < |s| && ChrAt(s, i)
  }

  /** The text starts with `(\d+)-(\d+)`. */
  predicate DigitsDashDigits(t: string) {
    var k1 := DigitPrefix(t);
    k1 >= 1 && k1 < |t| && t[k1] == '-' && DigitPrefix(t[k1 + 1..]) >= 1
  }

  /** `(chr.+):(\d+)-(\d+)` matches with "chr" at i and the ':' at j. */
  predicate ColonLocationAt(s: string, i: nat, j: nat) {
    ChrAt(s, i) && i + 3 < j < |s| && s[j] == ':' &&
    (forall k :: i + 3 <= k < j ==> LineChar(s[k])) &&
    DigitsDashDigits(s[j + 1..])
  }

  /** `isLocation`: the pattern `(chr.+):(\d+)-(\d+)` occurs somewhere. */
  predicate IsLocation(s: string) {
    exists i, j :: 0 <= i < j < |s| && ColonLocationAt(s, i, j)
  }

  /** Every text that passes `isLocation` also passes `isChr`. */
  lemma IsLocationIsChr(s: string)
    ensures IsLocation(s) ==> IsChr(s)
  {
    if IsLocation(s) {
      var i, j :| 0 <= i < j < |s| && ColonLocationAt(s, i, j);
      assert ChrAt(s, i);
    }
  }

  /** The numbers after the ':' of "chr:a-b". */
  lemma DigitsDash(a: string, b: string)
    requires |a| >= 1 && forall k :: 0 <= k < |a| ==> IsDigit(a[k])
    requires |b| >= 1 && forall k :: 0 <= k < |b| ==> IsDigit(b[k])
    ensures DigitsDashDigits(a + "-" + b)
  {
    var t := a + "-" + b;
    assert t == a + ("-" + b);
    DigitPrefixThen(a, "-" + b);
    assert t[|a| + 1..] == b;
    DigitPrefixAll(b);
  }

  /** "chr:a-b" passes `isLocation` when a and b are digits. */
  lemma DigitsIsLocation(chr: string, a: string, b: string)
    requires PlainChr(chr)
    requires |a| >= 1 && forall k :: 0 <= k < |a| ==> IsDigit(a[k])
    requires |b| >= 1 && forall k :: 0 <= k < |b| ==> IsDigit(b[k])
    ensures IsLocation(chr + ":" + a + "-" + b)
  {
    var s := chr + ":" + a + "-" + b;
    var n := |chr|;
    DigitsDash(a, b);
    assert s[n + 1..] == a + "-" + b;
    assert s[0..3] == chr[0..3];
    assert forall k :: 3 <= k < n ==> s[k] == chr[k];
    assert ColonLocationAt(s, 0, n);
  }

  // ------------------------------------------------------------ parseLoc

  /** `s.replace(":", "-")` with a string pattern: only the first
      occurrence is replaced. */
  function ReplaceFirst(s: string, from: char, to: char): (r: string)
    ensures |r| == |s|
    ensures from !in s ==> r == s
  {
    var i := IndexOf(s, from);
    if i < 0 then s else s[..i] + [to] + s[i + 1..]
  }

  /** The '-'-separated pieces `parseLoc` reads. */
  function LocTokens(loc: string): (r: seq<string>)
    ensures |r| >= 1
  {
    Split(ReplaceFirst(Trim(loc), ':', '-'), '-')
  }

  /** `parseLoc`: the trimmed text with its first ':' read as a '-' must
      split on '-' into at least three pieces, the first holding `chr.+`
      and the next two integers (commas ignored); None otherwise. */
  function ParseLoc(loc: string): (r: Option<GenomicLocation>)
    ensures r.Some? ==> Formatted(r.value) && |LocTokens(loc)| >= 3 && IsChr(LocTokens(loc)[0])
  {
    LocationOfTokens(LocTokens(loc))
  }

  /** The location the pieces of `parseLoc` describe, if any. */
  function LocationOfTokens(tokens: seq<string>): (r: Option<GenomicLocation>)
    ensures r.Some? ==> Formatted(r.value) && |tokens| >= 3 && IsChr(tokens[0])
  {
    if |tokens| < 3 || !IsChr(tokens[0]) then None
    else
      match ParseInt(RemoveChar(tokens[1], ','))
      case None => None
      case Some(start) =>
        match ParseInt(RemoveChar(tokens[2], ','))
        case None => None
        case Some(end) => Some(NewLocation(ChrName(tokens[0]), start, end))
  }

  /** A text with no white space at either end is its own trim. */
  lemma TrimPlain(s: string)
    requires |s| > 0 && !IsSpace(s[0]) && !IsSpace(s[|s| - 1])
    ensures Trim(s) == s
  {
    NoLeadingSpace(s);
  }

  /** The pieces of "chr:x-y": the name, x and y. */
  lemma TokensOf(chr: string, x: string, y: string)
    requires PlainChr(chr)
    requires '-' !in x && ':' !in x && '-' !in y
    requires |y| > 0 && !IsSpace(y[|y| - 1])
    ensures LocTokens(chr + ":" + x + "-" + y) == [chr, x, y]
  {
    var rest := x + "-" + y;
    var s := chr + ":" + x + "-" + y;
    assert s == chr + [':'] + rest;
    assert s[0] == chr[0] == 'c';
    assert s[|s| - 1] == y[|y| - 1];
    TrimPlain(s);
    IndexOfAfter(chr, ':', rest);
    assert s[..|chr|] == chr;
    assert s[|chr| + 1..] == rest;
    DashedSplit(chr, x, y);
  }

  /** Splitting "chr-x-y" on '-'. */
  lemma DashedSplit(chr: string, x: string, y: string)
    requires '-' !in chr && '-' !in x && '-' !in y
    ensures Split(chr + "-" + (x + "-" + y), '-') == [chr, x, y]
  {
    assert Split(x + "-" + y, '-') == [x, y] by {
      assert Split(y, '-') == [y];
      assert x + "-" + y == x + ['-'] + y;
      SplitJoinStep(x, '-', y, [y]);
    }
    assert chr + "-" + (x + "-" + y) == chr + ['-'] + (x + "-" + y);
    SplitJoinStep(chr, '-', x + "-" + y, [x, y]);
  }

  /** The name of a round-trippable location passes `isChr`. */
  lemma PlainChrIsChr(chr: string)
    requires PlainChr(chr)
    ensures IsChr(chr)
  {
    assert chr[0..3] == "chr";
    assert ChrAt(chr, 0);
  }

  /** `parseLoc` of "chr:a-b" for digits a and b. */
  lemma ParseLocDigits(chr: string, a: string, b: string)
    requires PlainChr(chr)
    requires |a| >= 1 && forall k :: 0 <= k < |a| ==> IsDigit(a[k])
    requires |b| >= 1 && forall k :: 0 <= k < |b| ==> IsDigit(b[k])
    ensures ParseLoc(chr + ":" + a + "-" + b) == Some(GenomicLocation(chr, DigitsValue(a), DigitsValue(b)))
  {
    assert IsDigit(b[|b| - 1]);
    TokensOf(chr, a, b);
    DigitsTokens(chr, a, b);
  }

  /** The pieces [chr, a, b] give the location chr:a-b. */
  lemma DigitsTokens(chr: string, a: string, b: string)
    requires PlainChr(chr)
    requires |a| >= 1 && forall k :: 0 <= k < |a| ==> IsDigit(a[k])
    requires |b| >= 1 && forall k :: 0 <= k < |b| ==> IsDigit(b[k])
    ensures LocationOfTokens([chr, a, b]) == Some(GenomicLocation(chr, DigitsValue(a), DigitsValue(b)))
  {
    PlainChrIsChr(chr);
    ParseDigitsNoComma(a);
    ParseDigitsNoComma(b);
  }

  /** Digits hold no ',' to remove and parse as their value. */
  lemma ParseDigitsNoComma(a: string)
    requires |a| >= 1 && forall k :: 0 <= k < |a| ==> IsDigit(a[k])
    ensures ParseInt(RemoveChar(a, ',')) == Some(DigitsValue(a) as int)
  {
    assert RemoveChar(a, ',') == a;
    ParseIntDigits(a);
  }

  /** `parseLoc` reads back what `locStr` prints, for a name without '-',
      ',', ':' or line break and coordinates that are not negative. */
  lemma ParseLocRoundTrip(l: GenomicLocation)
    requires PlainChr(l.chr) && l.start >= 0 && l.end >= 0
    ensures ParseLoc(LocStr(l)) == Some(l)
  {
    PrintedNumber(l.start);
    PrintedNumber(l.end);
    ParseLocDigits(l.chr, IntStr(l.start), IntStr(l.end));
  }

  /** A text with neither '-' nor ':' has one piece, so `parseLoc` gives
      None. */
  lemma ParseLocNoSeparator(loc: string)
    requires '-' !in loc && ':' !in loc
    ensures ParseLoc(loc) == None
  {
    var t := Trim(loc);
    TrimAbsent(loc, '-');
    TrimAbsent(loc, ':');
    assert LocTokens(loc) == [t];
  }

  /** Trimming adds no character. */
  lemma TrimAbsent(s: string, c: char)
    requires c !in s
    ensures c !in Trim(s)
  {
    var t0 := TrimStart(s);
    assert t0 == s[|s| - |t0|..];
    var t := TrimEnd(t0);
    assert t == t0[..|t|];
  }

  /** With no digit between the ':' and the '-', the start is `NaN` and
      `parseLoc` gives None. */
  lemma ParseLocNaNStart(chr: string, x: string, b: string)
    requires PlainChr(chr)
    requires forall k :: 0 <= k < |x| ==> !IsDigit(x[k]) && x[k] != '-' && x[k] != ':' && x[k] != ','
    requires |b| >= 1 && forall k :: 0 <= k < |b| ==> IsDigit(b[k])
    ensures ParseLoc(chr + ":" + x + "-" + b) == None
  {
    assert IsDigit(b[|b| - 1]);
    TokensOf(chr, x, b);
    assert RemoveChar(x, ',') == x;
    NoDigitsNaN(x);
  }

  /** `parseInt` of a text without digits is `NaN`. */
  lemma NoDigitsNaN(x: string)
    requires forall k :: 0 <= k < |x| ==> !IsDigit(x[k])
    ensures ParseInt(x) == None
  {
    var t := TrimStart(x);
    assert forall k :: 0 <= k < |t| ==> t[k] == x[|x| - |t| + k];
    if |t| > 0 && (t[0] == '-' || t[0] == '+') {
      assert |t[1..]| > 0 ==> !IsDigit(t[1..][0]);
    } else {
      assert |t| > 0 ==> !IsDigit(t[0]);
    }
  }

  // ------------------------------------------------------------ parseLocations

  /** What one line contributes to `parseLocations`: a location, nothing
      (a line that is neither form), or the exception the line raises. */
  function LineLocation(line: string): (r: Result<Option<GenomicLocation>, string>)
    ensures r.Success? && r.value.Some? ==> Formatted(r.value.value)
  {
    LineOfTokens(Split(Trim(line), '\t'))
  }

  /** `parseLocations` on the tab-separated pieces of one line. */
  function LineOfTokens(tokens: seq<string>): (r: Result<Option<GenomicLocation>, string>)
    requires |tokens| >= 1
    ensures r.Success? && r.value.Some? ==> Formatted(r.value.value)
  {
    if IsLocation(tokens[0]) then
      match ParseLocation(tokens[0], 0, 0)
      case Failure(e) => Failure(e)
      case Success(l) => Success(Some(l))
    else if IsChr(tokens[0]) then
      if |tokens| < 3 then Failure("TypeError")
      else
        match (ParseInt(RemoveChar(tokens[1], ',')), ParseInt(RemoveChar(tokens[2], ',')))
        case (Some(start), Some(end)) => Success(Some(NewLocation(ChrName(tokens[0]), start, end)))
        case _ => Failure("NaN")
    else Success(None)
  }

  /** `parseLocations` over the first lines: the locations in line order,
      or the first exception. */
  function ParsedLocations(lines: seq<string>): (r: Result<seq<GenomicLocation>, string>)
    ensures r.Success? ==> |r.value| <= |lines|
  {
    if lines == [] then Success([])
    else
      match ParsedLocations(lines[..|lines| - 1])
      case Failure(e) => Failure(e)
      case Success(ls) =>
        match LineLocation(lines[|lines| - 1])
        case Failure(e) => Failure(e)
        case Success(None) => Success(ls)
        case Success(Some(l)) => Success(ls + [l])
  }

  /** `parseLocations`: reads each line in turn, pushing the locations it
      finds; the first line that throws ends the call. */
  method ParseLocations(lines: seq<string>) returns (r: Result<seq<GenomicLocation>, string>)
    ensures r == ParsedLocations(lines)
  {
    var ret: seq<GenomicLocation> := [];
    var i := 0;
    while i < |lines|
      invariant 0 <= i <= |lines|
      invariant ParsedLocations(lines[..i]) == Success(ret)
      decreases |lines| - i
    {
      assert lines[..i + 1][..i] == lines[..i];
      var found := LineLocation(lines[i]);
      if found.Failure? {
        PrefixFailure(lines, i + 1);
        return Failure(found.error);
      }
      if found.value.Some? {
        ret := ret + [found.value.value];
      }
      i := i + 1;
    }
    assert lines[..i] == lines;
    return Success(ret);
  }

  /** Once a prefix throws, the whole list throws the same. */
  lemma {:induction false} PrefixFailure(lines: seq<string>, n: nat)
    requires n <= |lines| && ParsedLocations(lines[..n]).Failure?
    ensures ParsedLocations(lines) == ParsedLocations(lines[..n])
    decreases |lines| - n
  {
    if n == |lines| {
      assert lines[..n] == lines;
    } else {
      assert lines[..n + 1][..n] == lines[..n];
      PrefixFailure(lines, n + 1);
    }
  }

  /** Every location `parseLocations` returns went through the constructor. */
  lemma {:induction false} ParsedLocationsFormatted(lines: seq<string>)
    ensures ParsedLocations(lines).Success? ==>
              forall k :: 0 <= k < |ParsedLocations(lines).value| ==> Formatted(ParsedLocations(lines).value[k])
  {
    if lines != [] {
      ParsedLocationsFormatted(lines[..|lines| - 1]);
    }
  }

  /** "chr:a-b" on its own line is read by the first branch. */
  lemma DigitsLine(chr: string, a: string, b: string)
    requires PlainChr(chr) && '\t' !in chr
    requires |a| >= 1 && forall k :: 0 <= k < |a| ==> IsDigit(a[k])
    requires |b| >= 1 && forall k :: 0 <= k < |b| ==> IsDigit(b[k])
    ensures var s := chr + ":" + a + "-" + b;
            Trim(s) == s && Split(s, '\t') == [s] && IsLocation(s)
  {
    var s := chr + ":" + a + "-" + b;
    assert s[0] == chr[0] == 'c';
    assert s[|s| - 1] == b[|b| - 1];
    TrimPlain(s);
    assert forall k :: 0 <= k < |s| ==> s[k] != '\t' by {
      forall k | 0 <= k < |s| ensures s[k] != '\t' {
        if k < |chr| {
          assert s[k] == chr[k];
        } else if k > |chr| + |a| + 1 {
          assert s[k] == b[k - |chr| - |a| - 2];
        } else if |chr| < k < |chr| + |a| + 1 {
          assert s[k] == a[k - |chr| - 1];
        }
      }
    }
    assert Split(s, '\t') == [s];
    DigitsIsLocation(chr, a, b);
  }

  /** A location printed on its own line is read back by the first branch. */
  lemma PrintedLine(l: GenomicLocation)
    requires Printable(l)
    ensures LineLocation(LocStr(l)) == Success(Some(l))
  {
    PrintedNumber(l.start);
    PrintedNumber(l.end);
    ParseLocationRoundTrip(l, 0, 0);
    assert GenomicLocation(l.chr, l.start - 0, l.end + 0) == l;
    DigitsLineLocation(LocStr(l), l.chr, IntStr(l.start), IntStr(l.end), l);
  }

  /** The line "chr:a-b" gives what `parseLocation` reads from it. */
  lemma DigitsLineLocation(s: string, chr: string, a: string, b: string, l: GenomicLocation)
    requires PlainChr(chr) && '\t' !in chr
    requires |a| >= 1 && forall k :: 0 <= k < |a| ==> IsDigit(a[k])
    requires |b| >= 1 && forall k :: 0 <= k < |b| ==> IsDigit(b[k])
    requires s == chr + ":" + a + "-" + b && ParseLocation(s, 0, 0) == Success(l)
    ensures LineLocation(s) == Success(Some(l))
  {
    DigitsLine(chr, a, b);
    LocationLine(s, l);
  }

  /** A line that is one location text gives that location. */
  lemma LocationLine(s: string, l: GenomicLocation)
    requires IsLocation(s) && ParseLocation(s, 0, 0) == Success(l)
    ensures LineOfTokens([s]) == Success(Some(l))
  {
  }

  /** A location whose printed line reads back unchanged. */
  predicate Printable(l: GenomicLocation) {
    PlainChr(l.chr) && '\t' !in l.chr && l.start >= 0 && l.end >= 0
  }

  /** The locations printed one per line. */
  function PrintedLines(ls: seq<GenomicLocation>): (r: seq<string>)
    ensures |r| == |ls|
  {
    if ls == [] then [] else PrintedLines(ls[..|ls| - 1]) + [LocStr(ls[|ls| - 1])]
  }

  /** Printing locations one per line and reading the lines back gives the
      locations, in order. */
  lemma {:induction false} ParsedLocationsRoundTrip(ls: seq<GenomicLocation>)
    requires forall k :: 0 <= k < |ls| ==> Printable(ls[k])
    ensures ParsedLocations(PrintedLines(ls)) == Success(ls)
  {
    if ls != [] {
      var p, l := ls[..|ls| - 1], ls[|ls| - 1];
      assert ls == p + [l];
      assert forall k :: 0 <= k < |p| ==> Printable(p[k]) by {
        forall k | 0 <= k < |p| ensures Printable(p[k]) {
          assert p[k] == ls[k];
        }
      }
      ParsedLocationsRoundTrip(p);
      assert Printable(l);
      PrintedLine(l);
      var lines := PrintedLines(ls);
      assert lines[..|lines| - 1] == PrintedLines(p);
      ParsedSnoc(lines, p, l);
    }
  }

  /** One more line that holds a location adds it at the end. */
  lemma ParsedSnoc(lines: seq<string>, p: seq<GenomicLocation>, l: GenomicLocation)
    requires |lines| > 0 && ParsedLocations(lines[..|lines| - 1]) == Success(p)
    requires LineLocation(lines[|lines| - 1]) == Success(Some(l))
    ensures ParsedLocations(lines) == Success(p + [l])
  {
  }
}
