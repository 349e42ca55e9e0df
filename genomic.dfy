/** Genomic intervals (src/modules/genomic/genomic.ts): the location record,
    its "chr:start-end" text, the two parsers, interval intersection, and
    the bin index that finds overlapping locations. */
module Genomic {
  import opened Wrappers
  import opened Strs
  import opened Seqs
  import opened ChrNames

  // ------------------------------------------------------------ locations

  /** `GenomicLocation`: a chromosome name and integer coordinates. */
  datatype GenomicLocation = GenomicLocation(chr: string, start: int, end: int)

  /** `new GenomicLocation(chr, start, end)`: the name goes through
      `formatChr`, so it always starts with "chr". */
  function NewLocation(chr: ChrArg, start: int, end: int): (r: GenomicLocation)
    ensures "chr" <= r.chr && r.start == start && r.end == end
    ensures "chr" <= ChrText(chr) ==> r.chr == ChrText(chr)
  {
    GenomicLocation(FormatChr(chr), start, end)
  }

  /** A location as the constructor leaves it. */
  predicate Formatted(l: GenomicLocation) {
    "chr" <= l.chr
  }

  /** `loc`, `toString()` and `locStr`: "chr:start-end". */
  function LocStr(l: GenomicLocation): string {
    l.chr + ":" + IntStr(l.start) + "-" + IntStr(l.end)
  }

  /** `locWidth`: the number of bases of the closed interval. */
  function LocWidth(l: GenomicLocation): int {
    l.end - l.start + 1
  }

  /** `locWithin`: same chromosome, and the closed intervals meet. */
  predicate LocWithin(l1: GenomicLocation, l2: GenomicLocation) {
    l1.chr == l2.chr && l1.end >= l2.start && l1.start <= l2.end
  }

  /** `overlaps`: the intersection of two locations, None when either is
      missing, the chromosomes differ or the intervals are disjoint. */
  function Overlaps(loc1: Option<GenomicLocation>, loc2: Option<GenomicLocation>): (r: Option<GenomicLocation>)
    ensures r.Some? ==> loc1.Some? && loc2.Some? && loc1.value.chr == loc2.value.chr
  {
    if loc1.None? || loc2.None? then None
    else
      var l1, l2 := loc1.value, loc2.value;
      if l1.chr != l2.chr then None
      else
        var maxStart := Max(l1.start, l2.start);
        var minEnd := Min(l1.end, l2.end);
        if minEnd < maxStart then None
        else Some(NewLocation(ChrName(l1.chr), maxStart, minEnd))
  }

  function Max(a: int, b: int): int { if a >= b then a else b }
  function Min(a: int, b: int): int { if a <= b then a else b }

  /** The intersection lies within both locations and is not inverted; it
      exists exactly when the chromosomes agree and the intervals share a
      base. */
  lemma OverlapsWithin(l1: GenomicLocation, l2: GenomicLocation)
    requires Formatted(l1)
    ensures var r := Overlaps(Some(l1), Some(l2));
      (r.Some? <==> l1.chr == l2.chr && l1.start <= l2.end && l2.start <= l1.end &&
                    l1.start <= l1.end && l2.start <= l2.end) &&
      (r.Some? ==> r.value.chr == l1.chr &&
                   l1.start <= r.value.start <= r.value.end <= l1.end &&
                   l2.start <= r.value.start <= r.value.end <= l2.end)
  {
  }

  /** The intersection does not depend on the order of its arguments. */
  lemma OverlapsSymmetric(l1: GenomicLocation, l2: GenomicLocation)
    requires Formatted(l1) && Formatted(l2)
    ensures Overlaps(Some(l1), Some(l2)) == Overlaps(Some(l2), Some(l1))
  {
  }

  /** For locations that are not inverted, `locWithin` holds exactly when
      `overlaps` finds an intersection, and the intersection is no wider
      than either location. */
  lemma OverlapsIffWithin(l1: GenomicLocation, l2: GenomicLocation)
    requires Formatted(l1) && l1.start <= l1.end && l2.start <= l2.end
    ensures LocWithin(l1, l2) <==> Overlaps(Some(l1), Some(l2)).Some?
    ensures LocWithin(l1, l2) ==>
              var w := LocWidth(Overlaps(Some(l1), Some(l2)).value);
              1 <= w <= LocWidth(l1) && w <= LocWidth(l2)
  {
  }

  /** A missing argument gives no intersection. */
  lemma OverlapsMissing(l: Option<GenomicLocation>)
    ensures Overlaps(None, l) == None && Overlaps(l, None) == None
  {
  }

  // ------------------------------------------------------------ parseLocation

  /** A character that the regular-expression `.` matches: anything but a
      line terminator. */
  predicate LineChar(c: char) {
    c != '\n' && c != '\r' && c != '\U{2028}' && c != '\U{2029}'
  }

  /** The number of characters at the start of s that `.` matches. */
  function LineRun(s: string): (r: nat)
    ensures r <= |s|
  {
    if |s| > 0 && LineChar(s[0]) then 1 + LineRun(s[1..]) else 0
  }

  /** The run is exactly the leading characters `.` matches. */
  lemma {:induction false} LineRunSpec(s: string)
    ensures forall k :: 0 <= k < LineRun(s) ==> LineChar(s[k])
    ensures LineRun(s) < |s| ==> !LineChar(s[LineRun(s)])
  {
    if |s| > 0 && LineChar(s[0]) {
      LineRunSpec(s[1..]);
    }
  }

  /** Whether t starts with `-(\d+)-(\d+)`. */
  predicate Nums(t: string) {
    |t| > 0 && t[0] == '-' &&
    var k1 := DigitPrefix(t[1..]);
    k1 >= 1 && 1 + k1 < |t| && t[1 + k1] == '-' && DigitPrefix(t[2 + k1..]) >= 1
  }

  /** Whether `-(\d+)-(\d+)` matches at position j of s. */
  predicate NumsAt(s: string, j: int) {
    0 <= j < |s| && Nums(s[j..])
  }

  /** The last position in [lo, hi) where NumsAt holds, or -1: the greedy
      `.+` before it takes as much as it can. */
  function LastNumsAt(s: string, lo: int, hi: int): (r: int)
    ensures r == -1 || (lo <= r < hi && r < |s|)
    decreases hi - lo
  {
    if hi <= lo then -1
    else if NumsAt(s, hi - 1) then hi - 1
    else LastNumsAt(s, lo, hi - 1)
  }

  /** LastNumsAt finds a place where the numbers match, and none later. */
  lemma {:induction false} LastNumsAtSpec(s: string, lo: int, hi: int)
    ensures var r := LastNumsAt(s, lo, hi);
            (r == -1 || NumsAt(s, r)) &&
            forall j :: lo <= j < hi && r < j ==> !NumsAt(s, j)
    decreases hi - lo
  {
    if hi > lo && !NumsAt(s, hi - 1) {
      LastNumsAtSpec(s, lo, hi - 1);
    }
  }

  /** The leftmost match of `(chr.+)-(\d+)-(\d+)` at or after i: where
      "chr" starts and where the `-` after the greedy group is. */
  function MatchLoc(s: string, i: nat): (r: Option<(nat, nat)>)
    ensures r.Some? ==> i <= r.value.0 && r.value.0 + 4 <= r.value.1 < |s|
    decreases |s| - i
  {
    if i + 3 >= |s| then None
    else
      var j := if "chr" <= s[i..] then LastNumsAt(s, i + 4, i + 4 + LineRun(s[i + 3..])) else -1;
      if j >= 0 then Some((i, j as nat)) else MatchLoc(s, i + 1)
  }

  /** The text `parseLocation` matches: commas dropped, ':' made '-'
      (both replacements in one pass). */
  function Cleaned(location: string): (r: string)
    ensures |r| <= |location|
  {
    if |location| == 0 then ""
    else
      var c := location[0];
      (if c == ',' then "" else if c == ':' then "-" else [c]) + Cleaned(location[1..])
  }

  /** The one pass is the two replacements, one after the other. */
  lemma {:induction false} CleanedReplaces(location: string)
    ensures Cleaned(location) == ReplaceChar(RemoveChar(location, ','), ':', '-')
  {
    if |location| > 0 {
      var c := location[0];
      var pre: string := if c == ',' then "" else [c];
      var rest := RemoveChar(location[1..], ',');
      CleanedReplaces(location[1..]);
      assert RemoveChar(location, ',') == pre + rest;
      ReplaceCharAppend(pre, rest, ':', '-');
      assert ReplaceChar(pre, ':', '-') == (if c == ',' then "" else if c == ':' then "-" else [c]);
    }
  }

  /** Replacing in two pieces is replacing in the whole. */
  lemma ReplaceCharAppend(x: string, y: string, from: char, to: char)
    ensures ReplaceChar(x + y, from, to) == ReplaceChar(x, from, to) + ReplaceChar(y, from, to)
  {
  }

  /** The cleaned text has no ',' and no ':'. */
  lemma {:induction false} CleanedPunctuation(location: string)
    ensures ',' !in Cleaned(location) && ':' !in Cleaned(location)
  {
    if |location| > 0 {
      CleanedPunctuation(location[1..]);
    }
  }

  /** Cleaning works piece by piece. */
  lemma {:induction false} CleanedAppend(x: string, y: string)
    ensures Cleaned(x + y) == Cleaned(x) + Cleaned(y)
  {
    if |x| > 0 {
      assert (x + y)[1..] == x[1..] + y;
      CleanedAppend(x[1..], y);
    } else {
      assert x + y == y;
    }
  }

  /** A text with no ',' or ':' is already clean. */
  lemma {:induction false} CleanedPlain(x: string)
    requires forall k :: 0 <= k < |x| ==> x[k] != ',' && x[k] != ':'
    ensures Cleaned(x) == x
  {
    if |x| > 0 {
      CleanedPlain(x[1..]);
    }
  }

  /** The pattern applied to a cleaned text: it picks the name and the two
      numbers; the start moves left by the 5' padding and the end right by
      the 3' padding. */
  function MatchedLocation(s: string, padding5p: int, padding3p: int): (r: Result<GenomicLocation, string>)
    ensures r.Failure? <==> MatchLoc(s, 0).None?
    ensures r.Failure? ==> r.error == "invalid location"
    ensures r.Success? ==> Formatted(r.value)
  {
    match MatchLoc(s, 0)
    case None => Failure("invalid location")
    case Some((i, j)) => Success(LocationAt(s, i, j, padding5p, padding3p))
  }

  /** The value of the digits at the start of t. */
  function LeadingNumber(t: string): nat {
    DigitPrefixSpec(t);
    DigitsValue(t[..DigitPrefix(t)])
  }

  /** The location read from a match of the pattern that starts at i and
      whose name ends at j: the name, then the number after the '-' at j,
      then the number after the '-' that follows it. */
  function LocationAt(s: string, i: nat, j: nat, padding5p: int, padding3p: int): (r: GenomicLocation)
    requires i <= j < |s|
    ensures Formatted(r)
    ensures "chr" <= s[i..j] ==> r.chr == s[i..j]
  {
    var k1 := DigitPrefix(s[j + 1..]);
    var second := Min(j + 2 + k1, |s|);
    NewLocation(ChrName(s[i..j]), LeadingNumber(s[j + 1..]) - padding5p,
                LeadingNumber(s[second..]) + padding3p)
  }

  /** `parseLocation`; no match throws "invalid location". */
  function ParseLocation(location: string, padding5p: int, padding3p: int): (r: Result<GenomicLocation, string>)
    ensures r.Failure? <==> MatchLoc(Cleaned(location), 0).None?
    ensures r.Failure? ==> r.error == "invalid location"
    ensures r.Success? ==> Formatted(r.value)
  {
    MatchedLocation(Cleaned(location), padding5p, padding3p)
  }

  /** A name that survives the round trip through its text. */
  predicate PlainChr(chr: string) {
    "chr" <= chr && |chr| >= 4 &&
    forall k :: 0 <= k < |chr| ==> chr[k] != '-' && chr[k] != ',' && chr[k] != ':' && LineChar(chr[k])
  }

  /** The printed text "chr:a-b" with commas dropped and ':' made '-'. */
  lemma DashedText(chr: string, a: string, b: string)
    requires PlainChr(chr)
    requires forall k :: 0 <= k < |a| ==> IsDigit(a[k])
    requires forall k :: 0 <= k < |b| ==> IsDigit(b[k])
    ensures Cleaned(chr + ":" + a + "-" + b) == chr + "-" + a + "-" + b
  {
    CleanedAppend(chr + ":" + a + "-", b);
    CleanedAppend(chr + ":" + a, "-");
    CleanedAppend(chr + ":", a);
    CleanedAppend(chr, ":");
    CleanedPlain(chr);
    CleanedPlain(a);
    CleanedPlain(b);
    assert Cleaned("-") == "-";
    assert Cleaned(":") == "-";
  }

  /** The digits of a number stop at the character after them. */
  lemma DigitPrefixThen(d: string, rest: string)
    requires forall k :: 0 <= k < |d| ==> IsDigit(d[k])
    requires |rest| > 0 && !IsDigit(rest[0])
    ensures DigitPrefix(d + rest) == |d|
    decreases |d|
  {
    if |d| > 0 {
      assert (d + rest)[1..] == d[1..] + rest;
      DigitPrefixThen(d[1..], rest);
    }
  }

  /** A run of characters `.` matches is taken whole. */
  lemma {:induction false} LineRunAll(t: string)
    requires forall k :: 0 <= k < |t| ==> LineChar(t[k])
    ensures LineRun(t) == |t|
  {
    if |t| > 0 {
      LineRunAll(t[1..]);
    }
  }

  /** The last place the numbers match is n. */
  lemma {:induction false} LastNumsAtIs(s: string, lo: int, hi: int, n: int)
    requires lo <= n < hi && NumsAt(s, n)
    requires forall j :: n < j < hi ==> !NumsAt(s, j)
    ensures LastNumsAt(s, lo, hi) == n
    decreases hi - lo
  {
    if hi - 1 != n {
      LastNumsAtIs(s, lo, hi - 1, n);
    }
  }

  /** A prefix of x is a prefix of x + y. */
  lemma PrefixExtends(p: string, x: string, y: string)
    requires p <= x
    ensures p <= x + y
  {
    assert (x + y)[..|p|] == x[..|p|];
  }

  /** The match starts at 0 when s starts with "chr" and the last place the
      numbers match is n. */
  lemma MatchAtStart(s: string, n: nat)
    requires "chr" <= s && 4 <= n < |s| && NumsAt(s, n)
    requires forall j :: n < j ==> !NumsAt(s, j)
    requires LineRun(s[3..]) == |s| - 3
    ensures MatchLoc(s, 0) == Some((0, n))
  {
    assert s[0..] == s;
    LastNumsAtIs(s, 4, |s| + 1, n);
  }

  /** The digits at the start of t end at m. */
  lemma {:induction false} DigitRun(t: string, m: nat)
    requires m < |t| && !IsDigit(t[m])
    requires forall k :: 0 <= k < m ==> IsDigit(t[k])
    ensures DigitPrefix(t) == m
  {
    if m > 0 {
      DigitRun(t[1..], m - 1);
    }
  }

  /** The shape of a cleaned location text: a name of n characters that
      starts with "chr" and has no '-' or line break, then '-', ka digits,
      '-' and kb digits. */
  predicate DashedShape(s: string, n: int, ka: int, kb: int) {
    4 <= n && ka >= 1 && kb >= 1 && |s| == n + 2 + ka + kb && "chr" <= s &&
    s[n] == '-' && s[n + 1 + ka] == '-' &&
    (forall k :: 0 <= k < n ==> s[k] != '-' && LineChar(s[k])) &&
    (forall k :: n < k < n + 1 + ka ==> IsDigit(s[k])) &&
    (forall k :: n + 1 + ka < k < |s| ==> IsDigit(s[k]))
  }

  /** In that shape the numbers follow the name... */
  lemma ShapeNums(s: string, n: int, ka: int, kb: int)
    requires DashedShape(s, n, ka, kb)
    ensures NumsAt(s, n)
    ensures DigitPrefix(s[n + 1..]) == ka && DigitPrefix(s[n + 2 + ka..]) == kb
  {
    DigitRun(s[n + 1..], ka);
    DigitPrefixAll(s[n + 2 + ka..]);
    assert s[n..][1..] == s[n + 1..];
    assert s[n..][2 + ka..] == s[n + 2 + ka..];
  }

  /** ... and nowhere after it. */
  lemma ShapeNoNumsAfter(s: string, n: int, ka: int, kb: int)
    requires DashedShape(s, n, ka, kb)
    ensures forall j :: n < j ==> !NumsAt(s, j)
  {
    forall j | n < j < |s| ensures !NumsAt(s, j) {
      if j == n + 1 + ka {
        DigitPrefixAll(s[j + 1..]);
        assert s[j..][1..] == s[j + 1..];
      } else {
        assert s[j..][0] == s[j];
      }
    }
  }

  /** Every character after "chr" is one `.` matches. */
  lemma ShapeLine(s: string, n: int, ka: int, kb: int)
    requires DashedShape(s, n, ka, kb)
    ensures LineRun(s[3..]) == |s| - 3
  {
    forall k | 0 <= k < |s| - 3 ensures LineChar(s[3..][k]) {
      assert s[3..][k] == s[k + 3];
    }
    LineRunAll(s[3..]);
  }

  /** Where the pattern matches in a text of that shape. */
  lemma MatchShape(s: string, n: int, ka: int, kb: int)
    requires DashedShape(s, n, ka, kb)
    ensures MatchLoc(s, 0) == Some((0, n))
  {
    ShapeNums(s, n, ka, kb);
    ShapeNoNumsAfter(s, n, ka, kb);
    ShapeLine(s, n, ka, kb);
    MatchAtStart(s, n);
  }

  /** "chr-a-b" has that shape. */
  lemma DashedShapeOf(chr: string, a: string, b: string)
    requires PlainChr(chr)
    requires |a| >= 1 && forall k :: 0 <= k < |a| ==> IsDigit(a[k])
    requires |b| >= 1 && forall k :: 0 <= k < |b| ==> IsDigit(b[k])
    ensures DashedShape(chr + "-" + a + "-" + b, |chr|, |a|, |b|)
  {
    var s := chr + "-" + a + "-" + b;
    DashedPrefix(chr, a, b);
    forall k | |chr| < k < |chr| + 1 + |a| ensures IsDigit(s[k]) {
      assert s[k] == a[k - |chr| - 1];
    }
    forall k | |chr| + 1 + |a| < k < |s| ensures IsDigit(s[k]) {
      assert s[k] == b[k - |chr| - 2 - |a|];
    }
    forall k | 0 <= k < |chr| ensures s[k] != '-' && LineChar(s[k]) {
      assert s[k] == chr[k];
    }
  }

  /** "chr-a-b" starts with "chr". */
  lemma DashedPrefix(chr: string, a: string, b: string)
    requires "chr" <= chr
    ensures "chr" <= chr + "-" + a + "-" + b
  {
    PrefixExtends("chr", chr, "-");
    PrefixExtends("chr", chr + "-", a);
    PrefixExtends("chr", chr + "-" + a, "-");
    PrefixExtends("chr", chr + "-" + a + "-", b);
  }

  /** In "chr-a-b" the pattern matches at the start, with the name ending
      where the name ends. */
  lemma MatchOfDashed(s: string, chr: string, a: string, b: string)
    requires PlainChr(chr)
    requires |a| >= 1 && forall k :: 0 <= k < |a| ==> IsDigit(a[k])
    requires |b| >= 1 && forall k :: 0 <= k < |b| ==> IsDigit(b[k])
    requires s == chr + "-" + a + "-" + b
    ensures MatchLoc(s, 0) == Some((0, |chr|))
  {
    DashedShapeOf(chr, a, b);
    MatchShape(s, |chr|, |a|, |b|);
  }

  /** The leading number of digits d followed by a non-digit is the value
      of d. */
  lemma LeadingThen(d: string, rest: string)
    requires forall k :: 0 <= k < |d| ==> IsDigit(d[k])
    requires |rest| > 0 && !IsDigit(rest[0])
    ensures DigitPrefix(d + rest) == |d| && LeadingNumber(d + rest) == DigitsValue(d)
  {
    DigitPrefixThen(d, rest);
    assert (d + rest)[..|d|] == d;
  }

  /** The leading number of a text of digits is its value. */
  lemma LeadingNumberAll(t: string, d: string)
    requires t == d && forall k :: 0 <= k < |d| ==> IsDigit(d[k])
    ensures LeadingNumber(t) == DigitsValue(d)
  {
    DigitPrefixAll(t);
    assert t[..|t|] == t;
  }

  /** The pieces of "chr-a-b" after the name and after the first number. */
  lemma DashedPieces(s: string, chr: string, a: string, b: string)
    requires s == chr + "-" + a + "-" + b
    ensures |chr| + 2 + |a| <= |s| && s[..|chr|] == chr
    ensures s[|chr| + 1..] == a + ("-" + b) && s[|chr| + 2 + |a|..] == b
  {
  }

  /** LocationAt when the first number has k digits, with the values of the
      two numbers given. */
  lemma LocationAtValues(s: string, n: nat, k: nat, va: nat, vb: nat, padding5p: int, padding3p: int)
    requires n + 2 + k <= |s| && DigitPrefix(s[n + 1..]) == k
    requires "chr" <= s[..n]
    requires LeadingNumber(s[n + 1..]) == va && LeadingNumber(s[n + 2 + k..]) == vb
    ensures LocationAt(s, 0, n, padding5p, padding3p) == GenomicLocation(s[..n], va - padding5p, vb + padding3p)
  {
    assert s[0..n] == s[..n];
  }

  /** What is read at the match in "chr-a-b": the name and the values of
      the two digit runs, moved by the paddings. */
  lemma LocationOfDashed(s: string, chr: string, a: string, b: string, padding5p: int, padding3p: int)
    requires "chr" <= chr
    requires |a| >= 1 && forall k :: 0 <= k < |a| ==> IsDigit(a[k])
    requires |b| >= 1 && forall k :: 0 <= k < |b| ==> IsDigit(b[k])
    requires s == chr + "-" + a + "-" + b
    ensures LocationAt(s, 0, |chr|, padding5p, padding3p) ==
            GenomicLocation(chr, DigitsValue(a) - padding5p, DigitsValue(b) + padding3p)
  {
    DashedPieces(s, chr, a, b);
    LeadingThen(a, "-" + b);
    LeadingNumberAll(b, b);
    LocationAtValues(s, |chr|, |a|, DigitsValue(a), DigitsValue(b), padding5p, padding3p);
  }

  /** Printing a location and parsing the text gives the location back,
      moved by the paddings, when its name has no '-', ',', ':' or line
      break, has something after "chr", and the coordinates are not
      negative. */
  lemma ParseLocationRoundTrip(l: GenomicLocation, padding5p: int, padding3p: int)
    requires PlainChr(l.chr) && l.start >= 0 && l.end >= 0
    ensures ParseLocation(LocStr(l), padding5p, padding3p) ==
            Success(GenomicLocation(l.chr, l.start - padding5p, l.end + padding3p))
  {
    PrintedNumber(l.start);
    PrintedNumber(l.end);
    ParseOfPrinted(LocStr(l), l.chr, IntStr(l.start), IntStr(l.end), padding5p, padding3p);
  }

  /** A coordinate that is not negative prints as digits whose value it is. */
  lemma PrintedNumber(n: int)
    requires n >= 0
    ensures |IntStr(n)| >= 1 && forall k :: 0 <= k < |IntStr(n)| ==> IsDigit(IntStr(n)[k])
    ensures DigitsValue(IntStr(n)) == n
  {
    NatStrValue(n);
    NatStrDigits(n);
  }

  /** Parsing the printed text "chr:a-b". */
  lemma ParseOfPrinted(location: string, chr: string, a: string, b: string, padding5p: int, padding3p: int)
    requires PlainChr(chr)
    requires |a| >= 1 && forall k :: 0 <= k < |a| ==> IsDigit(a[k])
    requires |b| >= 1 && forall k :: 0 <= k < |b| ==> IsDigit(b[k])
    requires location == chr + ":" + a + "-" + b
    ensures ParseLocation(location, padding5p, padding3p) ==
            Success(GenomicLocation(chr, DigitsValue(a) - padding5p, DigitsValue(b) + padding3p))
  {
    DashedText(chr, a, b);
    ParseOfDashed(location, chr, a, b, padding5p, padding3p);
  }

  /** Parsing a text that cleans to "chr-a-b". */
  lemma ParseOfDashed(location: string, chr: string, a: string, b: string, padding5p: int, padding3p: int)
    requires PlainChr(chr)
    requires |a| >= 1 && forall k :: 0 <= k < |a| ==> IsDigit(a[k])
    requires |b| >= 1 && forall k :: 0 <= k < |b| ==> IsDigit(b[k])
    requires Cleaned(location) == chr + "-" + a + "-" + b
    ensures ParseLocation(location, padding5p, padding3p) ==
            Success(GenomicLocation(chr, DigitsValue(a) - padding5p, DigitsValue(b) + padding3p))
  {
    var s := Cleaned(location);
    MatchOfDashed(s, chr, a, b);
    LocationOfDashed(s, chr, a, b, padding5p, padding3p);
  }
}
