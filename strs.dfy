/** JavaScript string operations used throughout the application, written
    out on `seq<char>`: `toLowerCase` (ASCII letters), `includes`,
    `startsWith`, `indexOf`, `split` on one character, `join`,
    `replaceAll` on a literal pattern, `trim`, decimal printing and
    `parseInt`. */
module Strs {
  import opened Wrappers

  /** `NA` of the text library: the text of a missing value. */
  const NA: string := "NA"

  // ---------------------------------------------------------------- case

  function LowerChar(c: char): char {
    if 'A' <= c <= 'Z' then (c as int - 'A' as int + 'a' as int) as char else c
  }

  /** `toLowerCase`, restricted to the ASCII letters. */
  function Lower(s: string): (r: string)
    ensures |r| == |s|
    ensures forall i :: 0 <= i < |s| ==> r[i] == LowerChar(s[i])
  {
    seq(|s|, i requires 0 <= i < |s| => LowerChar(s[i]))
  }

  predicate IsLowerCase(s: string) {
    forall i :: 0 <= i < |s| ==> !('A' <= s[i] <= 'Z')
  }

  /** Lowering a string with no capital in it leaves it as it is. */
  lemma LowerOfLowerCase(s: string)
    requires IsLowerCase(s)
    ensures Lower(s) == s
  {
  }

  lemma LowerIsLowerCase(s: string)
    ensures IsLowerCase(Lower(s))
    ensures Lower(Lower(s)) == Lower(s)
  {
  }

  // ---------------------------------------------------------------- search

  /** `s.includes(sub)`. */
  predicate Contains(s: string, sub: string)
    decreases |s|
  {
    sub <= s || (|s| > 0 && Contains(s[1..], sub))
  }

  /** `s.indexOf(c)`, -1 when absent. */
  function IndexOf(s: string, c: char): (r: int)
    ensures -1 <= r < |s|
    ensures r == -1 <==> c !in s
    ensures r >= 0 ==> s[r] == c && c !in s[..r]
  {
    if |s| == 0 then -1
    else if s[0] == c then 0
    else
      var k := IndexOf(s[1..], c);
      assert c !in s[1..] ==> c !in s by {
        if c !in s[1..] {
          forall i | 0 <= i < |s| ensures s[i] != c {
            if i > 0 { assert s[i] == s[1..][i - 1]; }
          }
        }
      }
      if k == -1 then -1
      else
        assert s[..k + 1] == [s[0]] + s[1..][..k];
        k + 1
  }

  // ---------------------------------------------------------------- split / join

  /** `s.split(c)` for a one-character separator: never empty. */
  function Split(s: string, c: char): (r: seq<string>)
    ensures |r| >= 1
    decreases |s|
  {
    var i := IndexOf(s, c);
    if i < 0 then [s] else [s[..i]] + Split(s[i + 1..], c)
  }

  /** No piece holds the separator. */
  lemma {:induction false} SplitNoSeparator(s: string, c: char)
    ensures forall k :: 0 <= k < |Split(s, c)| ==> c !in Split(s, c)[k]
    decreases |s|
  {
    var i := IndexOf(s, c);
    if i >= 0 {
      SplitNoSeparator(s[i + 1..], c);
      var r, rest := Split(s, c), Split(s[i + 1..], c);
      assert r == [s[..i]] + rest;
      forall k | 1 <= k < |r| ensures c !in r[k] {
        assert r[k] == rest[k - 1];
      }
    }
  }

  /** Splitting a string that neither starts with the separator nor holds
      two separators in a row gives no empty piece, except perhaps the
      last. */
  lemma {:induction false} SplitPiecesNonEmpty(s: string, c: char)
    requires |s| > 0 ==> s[0] != c
    requires forall i :: 0 <= i < |s| - 1 && s[i] == c ==> s[i + 1] != c
    ensures forall k :: 0 <= k < |Split(s, c)| - 1 ==> |Split(s, c)[k]| > 0
    decreases |s|
  {
    var i := IndexOf(s, c);
    if i >= 0 {
      var t := s[i + 1..];
      forall j | 0 <= j < |t| - 1 && t[j] == c ensures t[j + 1] != c {
        assert s[i + 1 + j] == c;
      }
      if |t| > 0 {
        assert s[i + 1] != c;
      }
      SplitPiecesNonEmpty(t, c);
      assert i > 0;
      var r, rest := Split(s, c), Split(t, c);
      assert r == [s[..i]] + rest;
      forall k | 1 <= k < |r| - 1 ensures |r[k]| > 0 {
        assert r[k] == rest[k - 1];
      }
    }
  }

  /** The first piece runs up to the first separator, or is the whole
      string when there is none. */
  lemma SplitFirst(s: string, c: char)
    ensures var i := IndexOf(s, c);
            Split(s, c)[0] == (if i < 0 then s else s[..i]) && c !in Split(s, c)[0] &&
            (i >= 0 ==> s[i] == c)
  {
  }

  /** The second piece is the first piece of what follows the first
      separator. */
  lemma SplitSecond(s: string, c: char)
    requires c in s
    ensures |Split(s, c)| >= 2 && Split(s, c)[1] == Split(s[IndexOf(s, c) + 1..], c)[0]
  {
  }

  /** `parts.join(sep)`. */
  function Join(parts: seq<string>, sep: string): string {
    if |parts| == 0 then ""
    else if |parts| == 1 then parts[0]
    else parts[0] + sep + Join(parts[1..], sep)
  }

  /** Joining a piece in front of at least one other. */
  lemma JoinCons(p: string, rest: seq<string>, sep: string)
    requires |rest| >= 1
    ensures Join([p] + rest, sep) == p + sep + Join(rest, sep)
  {
    assert ([p] + rest)[1..] == rest;
  }

  lemma {:induction false} JoinSplit(s: string, c: char)
    ensures Join(Split(s, c), [c]) == s
    decreases |s|
  {
    var i := IndexOf(s, c);
    if i >= 0 {
      JoinSplit(s[i + 1..], c);
      SplitAt(s, c, i, s[..i], s[i + 1..]);
    }
  }

  /** One step of `Split` and `Join` at the first separator, at i. */
  lemma SplitAt(s: string, c: char, i: int, p: string, t: string)
    requires 0 <= i == IndexOf(s, c) && p == s[..i] && t == s[i + 1..]
    requires Join(Split(t, c), [c]) == t
    ensures Join(Split(s, c), [c]) == s
  {
    assert Split(s, c) == [p] + Split(t, c);
    JoinCons(p, Split(t, c), [c]);
    assert s[i] == c;
    assert s == p + [c] + t;
  }

  lemma IndexOfAfter(p: string, c: char, rest: string)
    requires c !in p
    ensures IndexOf(p + [c] + rest, c) == |p|
  {
    var s := p + [c] + rest;
    var i := IndexOf(s, c);
    assert s[|p|] == c;
  }

  lemma {:induction false} SplitJoin(parts: seq<string>, c: char)
    requires |parts| >= 1
    requires forall k :: 0 <= k < |parts| ==> c !in parts[k]
    ensures Split(Join(parts, [c]), c) == parts
    decreases |parts|
  {
    if |parts| > 1 {
      var p, tail := parts[0], parts[1..];
      SplitJoin(tail, c);
      JoinCons(p, tail, [c]);
      assert parts == [p] + tail;
      SplitJoinStep(p, c, Join(tail, [c]), tail);
    }
  }

  /** Splitting a first piece off `p + c + rest`. */
  lemma SplitJoinStep(p: string, c: char, rest: string, tail: seq<string>)
    requires c !in p && Split(rest, c) == tail
    ensures Split(p + [c] + rest, c) == [p] + tail
  {
    var s := p + [c] + rest;
    IndexOfAfter(p, c, rest);
    assert s[..|p|] == p;
    assert s[|p| + 1..] == rest;
  }

  /** The first position at which `sep` occurs in `s`, -1 when it does not. */
  function IndexOfStr(s: string, sep: string): (r: int)
    requires |sep| > 0
    ensures r == -1 || 0 <= r <= |s| - |sep|
    ensures r >= 0 ==> sep <= s[r..]
    decreases |s|
  {
    if |s| < |sep| then -1
    else if sep <= s then 0
    else
      var k := IndexOfStr(s[1..], sep);
      if k < 0 then -1 else
        assert s[k + 1..] == s[1..][k..];
        k + 1
  }

  /** `s.split(sep)` for any separator: the empty separator splits into
      single characters, a one-character separator is `Split`, a longer one
      splits at its left-most non-overlapping occurrences. */
  function SplitOn(s: string, sep: string): (r: seq<string>)
    ensures |sep| > 0 ==> |r| >= 1
    ensures |sep| == 1 ==> r == Split(s, sep[0])
    ensures |sep| == 0 ==> |r| == |s|
    decreases |s|
  {
    if |sep| == 0 then seq(|s|, i requires 0 <= i < |s| => [s[i]])
    else if |sep| == 1 then Split(s, sep[0])
    else
      var i := IndexOfStr(s, sep);
      if i < 0 then [s] else [s[..i]] + SplitOn(s[i + |sep|..], sep)
  }

  // ---------------------------------------------------------------- replace

  /** `s.replaceAll(pat, rep)` for a literal, non-empty pattern: matches are
      found left to right and do not overlap. */
  function ReplaceAll(s: string, pat: string, rep: string): string
    requires |pat| > 0
    decreases |s|
  {
    if |s| < |pat| then s
    else if pat <= s then rep + ReplaceAll(s[|pat|..], pat, rep)
    else [s[0]] + ReplaceAll(s[1..], pat, rep)
  }

  lemma {:induction false} ReplaceAllRemovesChar(s: string, c: char, rep: string)
    requires c !in rep
    ensures c !in ReplaceAll(s, [c], rep)
    decreases |s|
  {
    if |s| >= 1 {
      ReplaceAllRemovesChar(s[1..], c, rep);
    }
  }

  /** A pattern whose first character does not occur is never replaced. */
  lemma {:induction false} ReplaceAllAbsent(s: string, pat: string, rep: string)
    requires |pat| > 0 && pat[0] !in s
    ensures ReplaceAll(s, pat, rep) == s
    decreases |s|
  {
    if |s| >= |pat| {
      assert s[0] != pat[0];
      ReplaceAllAbsent(s[1..], pat, rep);
      assert s == [s[0]] + s[1..];
    }
  }

  /** A pattern one of whose characters does not occur is never replaced. */
  lemma {:induction false} ReplaceAllMissing(s: string, pat: string, rep: string, k: nat)
    requires k < |pat| && pat[k] !in s
    ensures ReplaceAll(s, pat, rep) == s
    decreases |s|
  {
    if |s| >= |pat| {
      assert s[k] != pat[k];
      assert !(pat <= s);
      ReplaceAllMissing(s[1..], pat, rep, k);
      assert s == [s[0]] + s[1..];
    }
  }

  /** Text without the pattern's first character is passed over unchanged. */
  lemma {:induction false} ReplaceAllPast(x: string, y: string, pat: string, rep: string)
    requires |pat| > 0 && pat[0] !in x
    ensures ReplaceAll(x + y, pat, rep) == x + ReplaceAll(y, pat, rep)
    decreases |x|
  {
    if |x| == 0 {
      assert x + y == y;
    } else {
      var t := x[1..] + y;
      assert x + y == [x[0]] + t;
      ReplaceAllKeep(x[0], t, pat, rep);
      ReplaceAllPast(x[1..], y, pat, rep);
      assert x == [x[0]] + x[1..];
    }
  }

  /** A match at the front is replaced and the scan goes on after it. */
  lemma ReplaceAllHit(y: string, pat: string, rep: string)
    requires |pat| > 0
    ensures ReplaceAll(pat + y, pat, rep) == rep + ReplaceAll(y, pat, rep)
  {
    assert (pat + y)[|pat|..] == y;
  }

  /** A character that starts no match is kept. */
  lemma ReplaceAllKeep(c: char, y: string, pat: string, rep: string)
    requires |pat| > 0 && !(pat <= [c] + y)
    ensures ReplaceAll([c] + y, pat, rep) == [c] + ReplaceAll(y, pat, rep)
  {
    assert ([c] + y)[1..] == y;
  }

  /** Replace every occurrence of one character by another. */
  function ReplaceChar(s: string, from: char, to: char): (r: string)
    ensures |r| == |s|
    ensures forall i :: 0 <= i < |s| ==> r[i] == (if s[i] == from then to else s[i])
  {
    seq(|s|, i requires 0 <= i < |s| => if s[i] == from then to else s[i])
  }

  /** Remove every occurrence of a character (`replaceAll(c, '')`). */
  function RemoveChar(s: string, c: char): (r: string)
    ensures c !in r
    ensures |r| <= |s|
    ensures c !in s ==> r == s
  {
    if |s| == 0 then ""
    else (if s[0] == c then "" else [s[0]]) + RemoveChar(s[1..], c)
  }

  // ---------------------------------------------------------------- trim

  predicate IsSpace(c: char) {
    c == ' ' || c == '\t' || c == '\n' || c == '\r' || c as int == 11 || c as int == 12
  }

  function TrimStart(s: string): (r: string)
    ensures |r| <= |s| && r == s[|s| - |r|..]
    ensures |r| > 0 ==> !IsSpace(r[0])
    ensures forall i :: 0 <= i < |s| - |r| ==> IsSpace(s[i])
  {
    if |s| > 0 && IsSpace(s[0]) then TrimStart(s[1..]) else s
  }

  function TrimEnd(s: string): (r: string)
    ensures |r| <= |s| && r == s[..|r|]
    ensures |r| > 0 ==> !IsSpace(r[|r| - 1])
    ensures forall i :: |r| <= i < |s| ==> IsSpace(s[i])
  {
    if |s| > 0 && IsSpace(s[|s| - 1]) then TrimEnd(s[..|s| - 1]) else s
  }

  function Trim(s: string): (r: string)
    ensures |r| <= |s|
    ensures |r| > 0 ==> !IsSpace(r[0]) && !IsSpace(r[|r| - 1])
  {
    TrimEnd(TrimStart(s))
  }

  // ---------------------------------------------------------------- numbers

  predicate IsDigit(c: char) { '0' <= c <= '9' }

  function DigitChar(d: nat): char
    requires d < 10
  {
    ('0' as int + d) as char
  }

  /** The value of a decimal digit; 0 for any other character. */
  function DigitValue(c: char): nat
  {
    if IsDigit(c) then c as int - '0' as int else 0
  }

  /** Decimal digits of a natural number, no leading zeros. */
  function NatStr(n: nat): (r: string)
    ensures |r| >= 1
  {
    if n < 10 then [DigitChar(n)] else NatStr(n / 10) + [DigitChar(n % 10)]
  }

  /** The text is all digits, with no leading zero. */
  lemma {:induction false} NatStrDigits(n: nat)
    ensures forall i :: 0 <= i < |NatStr(n)| ==> IsDigit(NatStr(n)[i])
    ensures |NatStr(n)| > 1 ==> NatStr(n)[0] != '0'
  {
    if n >= 10 {
      NatStrDigits(n / 10);
      var r := NatStr(n);
      assert r[0] == NatStr(n / 10)[0];
    }
  }

  /** `n.toString()` / `toFixed(0)` of an integer. */
  function IntStr(n: int): (r: string)
    ensures |r| >= 1
  {
    if n < 0 then "-" + NatStr(-n) else NatStr(n)
  }

  /** Value of a string of decimal digits (a non-digit counts as 0). */
  function DigitsValue(s: string): nat
  {
    if |s| == 0 then 0 else DigitsValue(s[..|s| - 1]) * 10 + DigitValue(s[|s| - 1])
  }

  lemma {:induction false} NatStrValue(n: nat)
    ensures DigitsValue(NatStr(n)) == n
  {
    if n >= 10 {
      NatStrValue(n / 10);
      var r := NatStr(n);
      assert r[..|r| - 1] == NatStr(n / 10);
    }
  }

  /** Length of the longest run of digits at the start of `s`. */
  function DigitPrefix(s: string): (k: nat)
    ensures k <= |s|
  {
    if |s| > 0 && IsDigit(s[0]) then 1 + DigitPrefix(s[1..]) else 0
  }

  /** The run is all digits and stops at a non-digit or at the end. */
  lemma {:induction false} DigitPrefixSpec(s: string)
    ensures forall i :: 0 <= i < DigitPrefix(s) ==> IsDigit(s[i])
    ensures DigitPrefix(s) < |s| ==> !IsDigit(s[DigitPrefix(s)])
  {
    if |s| > 0 && IsDigit(s[0]) {
      DigitPrefixSpec(s[1..]);
    }
  }

  /** `parseInt(s, 10)`: leading white space, an optional sign, then the
      longest run of digits; `None` stands for `NaN` (no digit). */
  function ParseInt(s: string): (r: Option<int>)
  {
    var t := TrimStart(s);
    if |t| > 0 && t[0] == '-' then
      match ParseDigits(t[1..])
      case Some(v) => Some(0 - v)
      case None => None
    else if |t| > 0 && t[0] == '+' then ParseDigits(t[1..])
    else ParseDigits(t)
  }

  /** The value of the run of digits at the start of `u`, if any. */
  function ParseDigits(u: string): (r: Option<int>)
    ensures r.Some? ==> r.value >= 0
  {
    var k := DigitPrefix(u);
    DigitPrefixSpec(u);
    if k == 0 then None else Some(DigitsValue(u[..k]))
  }

  lemma ParseDigitsAll(d: string)
    requires |d| >= 1 && forall i :: 0 <= i < |d| ==> IsDigit(d[i])
    ensures ParseDigits(d) == Some(DigitsValue(d))
  {
    DigitPrefixAll(d);
    assert d[..|d|] == d;
  }

  lemma ParseIntStr(n: int)
    ensures ParseInt(IntStr(n)) == Some(n)
  {
    var m: nat := if n < 0 then -n else n;
    NatStrValue(m);
    NatStrDigits(m);
    if n < 0 {
      ParseIntNegative(NatStr(m));
    } else {
      ParseIntDigits(NatStr(m));
    }
  }

  lemma ParseIntDigits(d: string)
    requires |d| >= 1 && forall i :: 0 <= i < |d| ==> IsDigit(d[i])
    ensures ParseInt(d) == Some(DigitsValue(d) as int)
  {
    NoLeadingSpace(d);
    ParseDigitsAll(d);
  }

  lemma ParseIntNegative(d: string)
    requires |d| >= 1 && forall i :: 0 <= i < |d| ==> IsDigit(d[i])
    ensures ParseInt("-" + d) == Some(0 - DigitsValue(d) as int)
  {
    var s := "-" + d;
    assert s[1..] == d;
    ParseIntSigned(s, d);
  }

  lemma ParseIntSigned(s: string, d: string)
    requires |s| >= 2 && s[0] == '-' && s[1..] == d
    requires forall i :: 0 <= i < |d| ==> IsDigit(d[i])
    ensures ParseInt(s) == Some(0 - DigitsValue(d) as int)
  {
    NoLeadingSpace(s);
    ParseDigitsAll(d);
  }

  lemma NoLeadingSpace(s: string)
    requires |s| > 0 && !IsSpace(s[0])
    ensures TrimStart(s) == s
  {
  }

  lemma {:induction false} DigitPrefixAll(s: string)
    requires forall i :: 0 <= i < |s| ==> IsDigit(s[i])
    ensures DigitPrefix(s) == |s|
  {
    if |s| > 0 {
      DigitPrefixAll(s[1..]);
    }
  }
}
