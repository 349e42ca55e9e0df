/** URL helpers of src/lib/urls.ts: the URL-friendly form of a tag, image
    names with their size, slugs made from file paths, and the date in a
    slug. The regular expressions are written out as character tests. */
module Urls {
  import opened Seqs
  import opened Strs

  /** `PATH_SEP`. */
  const PathSep: char := '/'

  // ---------------------------------------------------------------- tags

  /** The characters of the class `[\ \-]`. */
  predicate IsDash(c: char) {
    c == ' ' || c == '-'
  }

  /** `replaceAll("&", "and")`. */
  function Amp(s: string): (r: string)
    decreases |s|
  {
    if s == [] then [] else (if s[0] == '&' then "and" else [s[0]]) + Amp(s[1..])
  }

  /** c is one of "and" or a character of s other than '&'. */
  predicate AmpChar(c: char, s: string) {
    c == 'a' || c == 'n' || c == 'd' || (c in s && c != '&')
  }

  /** Every character of the result is one of "and" or a character of s
      other than '&'; a string without '&' is unchanged. */
  lemma {:induction false} AmpSpec(s: string)
    ensures forall i | 0 <= i < |Amp(s)| :: AmpChar(Amp(s)[i], s)
    ensures '&' !in s ==> Amp(s) == s
    decreases |s|
  {
    if s != [] {
      AmpSpec(s[1..]);
      var rest := Amp(s[1..]);
      var head := if s[0] == '&' then "and" else [s[0]];
      var r := head + rest;
      assert r == Amp(s);
      forall i | 0 <= i < |r| ensures AmpChar(r[i], s) {
        if i >= |head| {
          var x := rest[i - |head|];
          assert r[i] == x && AmpChar(x, s[1..]);
          if x in s[1..] {
            var j :| 0 <= j < |s[1..]| && s[1..][j] == x;
            assert s[j + 1] == x;
          }
        } else if s[0] != '&' {
          assert r[i] == s[0];
        } else {
          assert r[i] == "and"[i] && (i == 0 || i == 1 || i == 2);
        }
      }
      if '&' !in s {
        assert s == [s[0]] + s[1..];
      }
    }
  }

  /** The ends of the result are those of s, with '&' become 'a' at the
      front and 'd' at the back. */
  lemma {:induction false} AmpEnds(s: string)
    requires |s| > 0
    ensures var r := Amp(s);
            |r| > 0 && r[0] == (if s[0] == '&' then 'a' else s[0]) &&
            r[|r| - 1] == (if s[|s| - 1] == '&' then 'd' else s[|s| - 1])
    decreases |s|
  {
    if |s| > 1 {
      AmpEnds(s[1..]);
    }
  }

  /** `Amp` is `replaceAll("&", "and")` as the strings library defines it. */
  lemma {:induction false} AmpIsReplaceAll(s: string)
    ensures Amp(s) == ReplaceAll(s, "&", "and")
    decreases |s|
  {
    if |s| > 0 {
      AmpIsReplaceAll(s[1..]);
      if s[0] == '&' {
        assert "&" <= s;
      } else {
        assert !("&" <= s);
      }
    }
  }

  /** The end of the run of dash characters that starts at k. */
  function DashRun(s: string, k: nat): (e: nat)
    requires k <= |s|
    ensures k <= e <= |s| && (e < |s| ==> !IsDash(s[e]))
    ensures forall i | k <= i < e :: IsDash(s[i])
    decreases |s| - k
  {
    if k < |s| && IsDash(s[k]) then DashRun(s, k + 1) else k
  }

  /** `replaceAll(/[\ \-]+/g, "-")` on `s[k..]`: every maximal run of spaces
      and hyphens becomes one hyphen. */
  function CollapseFrom(s: string, k: nat): (r: string)
    requires k <= |s|
    decreases |s| - k
  {
    if k == |s| then []
    else if IsDash(s[k]) then "-" + CollapseFrom(s, DashRun(s, k + 1))
    else [s[k]] + CollapseFrom(s, k + 1)
  }

  /** The whole string collapsed. */
  function Collapse(s: string): string {
    CollapseFrom(s, 0)
  }

  /** The first character of a collapsed string is that of the string, or
      a hyphen for a leading run; every other character is a hyphen or one
      of the string's characters that is neither space nor hyphen. */
  lemma {:induction false} CollapseSpec(s: string, k: nat)
    requires k <= |s|
    ensures var r := CollapseFrom(s, k);
            (k < |s| ==> |r| > 0 && r[0] == (if IsDash(s[k]) then '-' else s[k])) &&
            forall i | 0 <= i < |r| :: r[i] == '-' || (r[i] in s && !IsDash(r[i]))
    decreases |s| - k
  {
    if k < |s| {
      var next := if IsDash(s[k]) then DashRun(s, k + 1) else k + 1;
      CollapseSpec(s, next);
      var rest := CollapseFrom(s, next);
      var r := CollapseFrom(s, k);
      assert r == [if IsDash(s[k]) then '-' else s[k]] + rest;
      forall i | 0 <= i < |r| ensures r[i] == '-' || (r[i] in s && !IsDash(r[i])) {
        if i > 0 {
          assert r[i] == rest[i - 1];
        }
      }
    }
  }

  /** No two hyphens in a row. */
  predicate NoDoubleDash(s: string) {
    forall i | 0 <= i < |s| - 1 :: !(s[i] == '-' && s[i + 1] == '-')
  }

  /** The last character of a collapsed string is that of the string, or a
      hyphen for a trailing run. */
  lemma {:induction false} CollapseLast(s: string, k: nat)
    requires k < |s|
    ensures var r := CollapseFrom(s, k);
            |r| > 0 && r[|r| - 1] == (if IsDash(s[|s| - 1]) then '-' else s[|s| - 1])
    decreases |s| - k
  {
    var next := if IsDash(s[k]) then DashRun(s, k + 1) else k + 1;
    var head := if IsDash(s[k]) then '-' else s[k];
    assert CollapseFrom(s, k) == [head] + CollapseFrom(s, next);
    if next < |s| {
      CollapseLast(s, next);
    } else if IsDash(s[k]) {
      assert IsDash(s[|s| - 1]);
    }
  }

  /** A collapsed string holds no two hyphens in a row. */
  lemma {:induction false} CollapseNoDoubleDash(s: string, k: nat)
    requires k <= |s|
    ensures NoDoubleDash(CollapseFrom(s, k))
    decreases |s| - k
  {
    if k < |s| {
      var next := if IsDash(s[k]) then DashRun(s, k + 1) else k + 1;
      CollapseNoDoubleDash(s, next);
      CollapseSpec(s, next);
      var rest := CollapseFrom(s, next);
      var r := CollapseFrom(s, k);
      assert r == [if IsDash(s[k]) then '-' else s[k]] + rest;
      forall i | 0 <= i < |r| - 1 ensures !(r[i] == '-' && r[i + 1] == '-') {
        if i > 0 {
          assert r[i] == rest[i - 1] && r[i + 1] == rest[i];
        }
      }
    }
  }

  /** A string without spaces or doubled hyphens is left as it is. */
  lemma {:induction false} CollapseFixed(s: string, k: nat)
    requires k <= |s| && ' ' !in s && NoDoubleDash(s)
    ensures CollapseFrom(s, k) == s[k..]
    decreases |s| - k
  {
    if k < |s| {
      CollapseFixed(s, k + 1);
      if IsDash(s[k]) {
        assert k + 1 < |s| ==> !IsDash(s[k + 1]);
        assert DashRun(s, k + 1) == k + 1;
      }
      assert s[k..] == [s[k]] + s[k + 1..];
    }
  }

  /** `getUrlFriendlyTag`: trimmed, lower-cased, '&' spelt "and", and runs
      of spaces and hyphens made one hyphen. */
  function Tag(tag: string): string {
    Collapse(Amp(Lower(Trim(tag))))
  }

  /** Neither end of s is white space. */
  predicate Trimmed(s: string) {
    |s| > 0 ==> !IsSpace(s[0]) && !IsSpace(s[|s| - 1])
  }

  lemma LowerCharSpace(c: char)
    ensures IsSpace(LowerChar(c)) <==> IsSpace(c)
  {
  }

  /** A URL-friendly tag is trimmed and lower-case, has no '&', no space and
      no two hyphens in a row. */
  lemma TagSpec(tag: string)
    ensures var t := Tag(tag);
            Trimmed(t) && IsLowerCase(t) && '&' !in t && ' ' !in t && NoDoubleDash(t)
  {
    var tr := Trim(tag);
    var l := Lower(tr);
    LowerTrimmed(tr);
    var a := Amp(l);
    AmpTrimmed(l);
    CollapseTrimmed(a);
  }

  /** Lower-casing keeps a string trimmed. */
  lemma LowerTrimmed(s: string)
    requires Trimmed(s)
    ensures Trimmed(Lower(s)) && IsLowerCase(Lower(s))
  {
    LowerIsLowerCase(s);
    if |s| > 0 {
      LowerCharSpace(s[0]);
      LowerCharSpace(s[|s| - 1]);
    }
  }

  /** Spelling '&' out keeps a trimmed lower-case string so, and leaves no
      '&'. */
  lemma AmpTrimmed(s: string)
    requires Trimmed(s) && IsLowerCase(s)
    ensures var a := Amp(s);
            Trimmed(a) && IsLowerCase(a) && '&' !in a
  {
    AmpSpec(s);
    if |s| > 0 {
      AmpEnds(s);
    }
  }

  /** Collapsing a trimmed lower-case string without '&' keeps it so, and
      leaves no space and no doubled hyphen. */
  lemma CollapseTrimmed(s: string)
    requires Trimmed(s) && IsLowerCase(s) && '&' !in s
    ensures var t := Collapse(s);
            Trimmed(t) && IsLowerCase(t) && '&' !in t && ' ' !in t && NoDoubleDash(t)
  {
    CollapseSpec(s, 0);
    CollapseNoDoubleDash(s, 0);
    if |s| > 0 {
      CollapseLast(s, 0);
    }
  }

  lemma TrimFixed(s: string)
    requires Trimmed(s)
    ensures Trim(s) == s
  {
    assert TrimStart(s) == s;
    assert TrimEnd(s) == s;
  }

  lemma LowerFixed(s: string)
    requires IsLowerCase(s)
    ensures Lower(s) == s
  {
  }

  /** `getUrlFriendlyTag` is idempotent. */
  lemma TagIdempotent(tag: string)
    ensures Tag(Tag(tag)) == Tag(tag)
  {
    var t := Tag(tag);
    TagSpec(tag);
    TrimFixed(t);
    LowerFixed(t);
    AmpSpec(t);
    CollapseFixed(t, 0);
  }

  /** A character that no step of `Tag` makes is only in the tag when it
      was in the original. */
  lemma TagKeepsOut(tag: string, c: char)
    requires c !in tag && c !in "and-" && !('A' <= c <= 'Z') && !('a' <= c <= 'z')
    ensures c !in Tag(tag)
  {
    var tr := Trim(tag);
    assert tr == TrimStart(tag)[..|tr|];
    assert c !in TrimStart(tag);
    assert c !in tr;
    var l := Lower(tr);
    assert c !in l;
    var a := Amp(l);
    AmpSpec(l);
    assert forall i | 0 <= i < |a| :: a[i] != c;
    CollapseSpec(a, 0);
    var t := Collapse(a);
    assert forall i | 0 <= i < |t| :: t[i] != c;
  }

  // ---------------------------------------------------------------- images

  /** A size: one number for a square, or width and height. */
  datatype Size = Square(n: nat) | Rect(w: nat, h: nat)

  /** `getUrlFriendlyImg(img, ext, size)`; the defaults are "avif" and 800. */
  function FriendlyImg(img: string, ext: string, size: Size): (r: string)
  {
    var (w, h) := if size.Square? then (size.n, size.n) else (size.w, size.h);
    Tag(img) + "-" + NatStr(w) + "x" + NatStr(h) + "." + ext
  }

  /** A square size names the image as the same width and height would,
      and the name starts with the URL-friendly tag, which is its own tag,
      then '-' and the width's decimal digits. */
  lemma FriendlyImgSpec(img: string, ext: string, n: nat)
    ensures FriendlyImg(img, ext, Square(n)) == FriendlyImg(img, ext, Rect(n, n))
    ensures var r := FriendlyImg(img, ext, Square(n));
            var t := Tag(img);
            |r| > |t| + |NatStr(n)| && r[..|t|] == t && Tag(t) == t && r[|t|] == '-' &&
            r[|t| + 1..|t| + 1 + |NatStr(n)|] == NatStr(n)
  {
    var t := Tag(img);
    var w := NatStr(n);
    TagIdempotent(img);
    ImgParts(t, w, ext);
    assert FriendlyImg(img, ext, Square(n)) == t + "-" + w + "x" + w + "." + ext;
  }

  /** Where the parts of an image name sit. */
  lemma ImgParts(t: string, w: string, ext: string)
    ensures var r := t + "-" + w + "x" + w + "." + ext;
            |r| > |t| + |w| && r[..|t|] == t && r[|t|] == '-' && r[|t| + 1..|t| + 1 + |w|] == w
  {
  }

  // ---------------------------------------------------------------- slugs

  /** `replace(/\.md$/, "")`. */
  function StripMd(p: string): (r: string)
    ensures r == p || (r + ".md" == p)
  {
    if |p| >= 3 && p[|p| - 3..] == ".md" then p[..|p| - 3] else p
  }

  /** The path segments a slug is made of: '.md' dropped, '\' made '/'. */
  function Segments(path: string): (r: seq<string>)
    ensures |r| >= 1 && forall k | 0 <= k < |r| :: '/' !in r[k] && '\\' !in r[k]
  {
    var p := ReplaceChar(StripMd(path), '\\', PathSep);
    SplitNoSeparator(p, PathSep);
    var r := Split(p, PathSep);
    assert forall k | 0 <= k < |r| :: '\\' !in r[k] by {
      JoinSplit(p, PathSep);
      forall k | 0 <= k < |r| ensures '\\' !in r[k] {
        JoinHolds(r, [PathSep], k);
      }
    }
    r
  }

  /** A piece of a join is part of the joined string. */
  lemma {:induction false} JoinHolds(parts: seq<string>, sep: string, k: nat)
    requires k < |parts|
    ensures forall c | c in parts[k] :: c in Join(parts, sep)
    decreases |parts|
  {
    if |parts| > 1 && k > 0 {
      JoinHolds(parts[1..], sep, k - 1);
    }
  }

  /** `map(p => getUrlFriendlyTag(p))`. */
  function Tags(parts: seq<string>): (r: seq<string>)
    ensures |r| == |parts| && forall k | 0 <= k < |parts| :: r[k] == Tag(parts[k])
  {
    seq(|parts|, k requires 0 <= k < |parts| => Tag(parts[k]))
  }

  /** `getSlug`. */
  function Slug(path: string): string {
    Join(Tags(Segments(path)), [PathSep])
  }

  /** A slug splits back into the URL-friendly tags of the path's segments:
      one per segment, in order. */
  lemma SlugSegments(path: string)
    ensures Split(Slug(path), PathSep) == Tags(Segments(path))
  {
    var segs := Segments(path);
    var tags := Tags(segs);
    forall k | 0 <= k < |tags| ensures PathSep !in tags[k] {
      TagKeepsOut(segs[k], PathSep);
    }
    SplitJoin(tags, PathSep);
  }

  /** `getSlugDir`: the slug's segments but the last, joined. */
  function SlugDir(path: string): string {
    var parts := Split(Slug(path), PathSep);
    Join(parts[..|parts| - 1], [PathSep])
  }

  /** Joining one more piece at the end. */
  lemma {:induction false} JoinSnoc(parts: seq<string>, p: string, sep: string)
    requires |parts| >= 1
    ensures Join(parts + [p], sep) == Join(parts, sep) + sep + p
    decreases |parts|
  {
    if |parts| > 1 {
      JoinSnoc(parts[1..], p, sep);
      assert (parts + [p])[1..] == parts[1..] + [p];
    } else {
      assert parts + [p] == [parts[0], p];
      assert [parts[0], p][1..] == [p];
    }
  }

  /** The directory is the tags of all segments but the last. */
  lemma SlugDirSpec(path: string)
    ensures var tags := Tags(Segments(path));
            SlugDir(path) == Join(tags[..|tags| - 1], [PathSep])
  {
    SlugSegments(path);
  }

  /** With at least two segments the slug is the directory, '/', and the
      last segment's tag. */
  lemma SlugDirLast(path: string)
    ensures var tags := Tags(Segments(path));
            |tags| >= 2 ==> Slug(path) == SlugDir(path) + [PathSep] + tags[|tags| - 1]
  {
    var tags := Tags(Segments(path));
    SlugDirSpec(path);
    JoinInit(tags, [PathSep]);
    SlugJoin(path, tags, SlugDir(path));
  }

  /** The slug in terms of its tags and directory. */
  lemma SlugJoin(path: string, tags: seq<string>, dir: string)
    requires tags == Tags(Segments(path)) && dir == Join(tags[..|tags| - 1], [PathSep])
    requires |tags| >= 2 ==> Join(tags, [PathSep]) == Join(tags[..|tags| - 1], [PathSep]) + [PathSep] + tags[|tags| - 1]
    ensures |tags| >= 2 ==> Slug(path) == dir + [PathSep] + tags[|tags| - 1]
  {
  }

  /** A join of at least two pieces is the join of all but the last, the
      separator, and the last. */
  lemma JoinInit(parts: seq<string>, sep: string)
    requires |parts| >= 1
    ensures |parts| >= 2 ==> Join(parts, sep) == Join(parts[..|parts| - 1], sep) + sep + parts[|parts| - 1]
  {
    if |parts| >= 2 {
      JoinSnoc(parts[..|parts| - 1], parts[|parts| - 1], sep);
      assert parts[..|parts| - 1] + [parts[|parts| - 1]] == parts;
    }
  }

  /** The characters `.` does not match in a JavaScript regular expression. */
  predicate IsLineTerminator(c: char) {
    c == '\n' || c == '\r' || c as int == 0x2028 || c as int == 0x2029
  }

  /** The position of the first line terminator, or |s|. */
  function LineEnd(s: string): (r: nat)
    ensures r <= |s| && (r < |s| ==> IsLineTerminator(s[r]))
    ensures forall j | 0 <= j < r :: !IsLineTerminator(s[j])
  {
    if s == [] || IsLineTerminator(s[0]) then 0
    else
      var k := LineEnd(s[1..]);
      assert forall j | 1 <= j < k + 1 :: s[j] == s[1..][j - 1];
      k + 1
  }

  /** The largest position below n, but not 0, that holds a '/', or -1. */
  function LastSlashBelow(s: string, n: nat): (r: int)
    requires n <= |s|
    ensures r == -1 || (1 <= r < n && s[r] == '/')
    ensures forall j | (if r < 1 then 1 else r + 1) <= j < n :: s[j] != '/'
  {
    if n <= 1 then -1
    else if s[n - 1] == '/' then n - 1
    else LastSlashBelow(s, n - 1)
  }

  /** `replace(/^.+\//, "")`: the greedy match ends at the last '/' that has
      at least one character before it, all before the first line
      terminator. */
  function DropDir(s: string): (r: string)
    ensures var i := LastSlashBelow(s, LineEnd(s));
            r == if i < 1 then s else s[i + 1..]
  {
    var i := LastSlashBelow(s, LineEnd(s));
    if i < 1 then s else s[i + 1..]
  }

  /** `getCanonicalSlug`. */
  function CanonicalSlug(path: string): string {
    DropDir(Slug(path))
  }

  /** For a slug on one line, the canonical slug is its last segment's tag
      when the directory part is not empty, and the whole slug otherwise. */
  lemma CanonicalSlugSpec(path: string)
    requires forall j | 0 <= j < |Slug(path)| :: !IsLineTerminator(Slug(path)[j])
    ensures var tags := Tags(Segments(path));
            CanonicalSlug(path) == if |SlugDir(path)| > 0 then tags[|tags| - 1] else Slug(path)
  {
    var tags := Tags(Segments(path));
    var last := tags[|tags| - 1];
    SlugDirSpec(path);
    SlugDirLast(path);
    SlugSegments(path);
    TagKeepsOut(Segments(path)[|tags| - 1], PathSep);
    if |tags| >= 2 {
      DropDirLast(SlugDir(path), last);
    } else {
      SplitNoSeparator(Slug(path), PathSep);
      DropDirNoSlash(Slug(path));
    }
  }

  /** A one-line string without '/' is left as it is. */
  lemma DropDirNoSlash(s: string)
    requires PathSep !in s
    ensures DropDir(s) == s
  {
  }

  /** On one line, dropping the directory of `dir/last` leaves `last` when
      `dir` is not empty. */
  lemma DropDirLast(dir: string, last: string)
    requires PathSep !in last
    requires forall j | 0 <= j < |dir + [PathSep] + last| :: !IsLineTerminator((dir + [PathSep] + last)[j])
    ensures DropDir(dir + [PathSep] + last) == if |dir| > 0 then last else dir + [PathSep] + last
  {
    var s := dir + [PathSep] + last;
    assert LineEnd(s) == |s|;
    assert s[|dir|] == '/';
    assert forall j | |dir| < j < |s| :: s[j] == last[j - |dir| - 1];
    var i := LastSlashBelow(s, |s|);
    if |dir| > 0 {
      assert i == |dir|;
      assert s[i + 1..] == last;
    } else {
      assert i < 1;
    }
  }

  // ---------------------------------------------------------------- dates

  /** `/(\d{4})-(\d{2})-(\d{2})/` matches at k. */
  predicate IsDateAt(s: string, k: nat) {
    k + 10 <= |s| &&
    IsDigit(s[k]) && IsDigit(s[k + 1]) && IsDigit(s[k + 2]) && IsDigit(s[k + 3]) && s[k + 4] == '-' &&
    IsDigit(s[k + 5]) && IsDigit(s[k + 6]) && s[k + 7] == '-' && IsDigit(s[k + 8]) && IsDigit(s[k + 9])
  }

  /** The first position at or after k where a date matches, or -1. */
  function FirstDate(s: string, k: nat): (r: int)
    ensures r == -1 || (k <= r && IsDateAt(s, r))
    ensures forall j: nat | k <= j && (r == -1 || j < r) :: !IsDateAt(s, j)
    decreases |s| - k
  {
    if k + 10 > |s| then -1
    else if IsDateAt(s, k) then k
    else FirstDate(s, k + 1)
  }

  /** `getDateFromSlug`: the three groups of the first match joined by '-',
      which is the matched text, or "2022-01-01". */
  function DateFromSlug(slug: string): (r: string)
    ensures IsDateAt(r, 0) && |r| == 10
    ensures r == "2022-01-01" || exists k: nat | k + 10 <= |slug| :: IsDateAt(slug, k) && r == slug[k..k + 10]
  {
    var k := FirstDate(slug, 0);
    if k < 0 then "2022-01-01"
    else
      var r := slug[k..k + 10];
      assert forall j | 0 <= j < 10 :: r[j] == slug[k + j];
      r
  }

  /** The date is the text of the first match, and the default when
      nothing matches. */
  lemma DateFromSlugFirst(slug: string, k: nat)
    ensures IsDateAt(slug, k) && (forall j: nat | j < k :: !IsDateAt(slug, j)) ==>
              DateFromSlug(slug) == slug[k..k + 10]
    ensures (forall j: nat | j < |slug| :: !IsDateAt(slug, j)) ==> DateFromSlug(slug) == "2022-01-01"
  {
    var f := FirstDate(slug, 0);
    if IsDateAt(slug, k) && (forall j: nat | j < k :: !IsDateAt(slug, j)) {
      assert f == k;
    }
  }
}
