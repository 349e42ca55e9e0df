/** Table cells (src/lib/dataframe/cell.ts): the cell value type, conversion
    of text read from a file into a cell, the numeric and textual views of a
    cell, and Excel-style column names ("A", "B", …, "Z", "AA", …). */
module Cell {
  import opened Wrappers
  import opened Strs

  /** A JavaScript number: NaN or a finite value. `makeCell` can yield
      Infinity or -Infinity (from the text "Infinity" or "1e400"); this
      type has no value for them. */
  datatype Number = NaN | Finite(v: real)

  /** A cell of a table: number, string, boolean, date (as its time value)
      or null. */
  datatype Cell = Num(n: Number) | Str(s: string) | Bool(b: bool) | Date(time: int) | Null

  /** `Number.isInteger`. */
  predicate IsInteger(x: Number) {
    x.Finite? && x.v.Floor as real == x.v
  }

  /** The host's string parsers that `makeCell` relies on: `Number(s)`
      (NaN when the text is not a number) and `parseISO` (None when the
      resulting date is invalid). */
  datatype Parsers = Parsers(number: string -> Number, date: string -> Option<int>)

  /** The host's number and date printers: `toFixed(dp)` of a non-integer,
      `toString` of a number that does not print as plain digits, the date
      format used for date cells, and a date's own `toString`. */
  datatype Formats = Formats(fixed: (real, int) -> string, plain: real -> string,
                             date: int -> string, dateText: int -> string)

  /** The missing-value pattern `^(NA|#?N/A)$`, case-insensitive. */
  predicate IsNA(s: string) {
    var l := Lower(s);
    l == "na" || l == "n/a" || l == "#n/a"
  }

  /** `makeCell`: non-strings pass through; with `keepDefaultNA` the empty
      string and the NA spellings become NaN; otherwise the empty string
      stays empty; then a number, then a date, else the string itself. */
  function MakeCell(arg: Cell, keepDefaultNA: bool, p: Parsers): (r: Cell)
    ensures !arg.Str? ==> r == arg
    ensures arg.Str? && keepDefaultNA && (arg.s == "" || IsNA(arg.s)) ==> r == Num(NaN)
    ensures arg.Str? && !keepDefaultNA && arg.s == "" ==> r == Str("")
    ensures arg.Str? && arg.s != "" && !(keepDefaultNA && IsNA(arg.s)) ==>
              (r.Num? <==> p.number(arg.s) != NaN)
    ensures r.Str? ==> r == arg
    ensures arg.Str? ==> r.Num? || r.Str? || r.Date?
  {
    if !arg.Str? then arg
    else if keepDefaultNA && (arg.s == "" || IsNA(arg.s)) then Num(NaN)
    else if arg.s == "" then Str("")
    else
      var v := p.number(arg.s);
      if v != NaN then Num(v)
      else match p.date(arg.s)
        case Some(t) => Date(t)
        case None => arg
  }

  /** `cellNum`: a number is itself, a boolean is 1 or 0, anything else NaN. */
  function CellNum(c: Cell): (r: Number)
    ensures c.Num? ==> r == c.n
    ensures c.Bool? ==> r == Finite(if c.b then 1.0 else 0.0)
    ensures !c.Num? && !c.Bool? ==> r == NaN
  {
    match c
    case Num(n) => n
    case Bool(b) => Finite(if b then 1.0 else 0.0)
    case _ => NaN
  }

  /** The default number of decimal places and missing-value text of
      `cellStr`. */
  const DEFAULT_DP := 4
  const DEFAULT_VALUE := "NA"

  /** Below this magnitude JavaScript writes an integer as plain decimal
      digits; from it on, both `toFixed` and `toString` use exponent form
      ("1e+21"). */
  const PLAIN_LIMIT: real := 1_000_000_000_000_000_000_000.0

  /** An integer that `toFixed(0)` and `String(n)` write as its digits. */
  predicate PrintsPlain(x: Number) {
    IsInteger(x) && -PLAIN_LIMIT < x.v < PLAIN_LIMIT
  }

  /** `cellStr`: integers via `toFixed(0)` (their digits, or `toString`'s
      exponent form from 10^21 on), other numbers via `toFixed(dp)` (or
      `toString` when dp is -1), dates formatted, null as the default
      text, everything else via `toString`. */
  function CellStr(c: Cell, dp: int, defaultValue: string, f: Formats): (r: string)
    ensures c.Num? && PrintsPlain(c.n) ==> ParseInt(r) == Some(c.n.v.Floor)
    ensures c.Num? && IsInteger(c.n) && !PrintsPlain(c.n) ==> r == f.plain(c.n.v)
    ensures c.Null? ==> r == defaultValue
    ensures c.Str? ==> r == c.s
    ensures c == Num(NaN) ==> r == "NaN"
  {
    match c
    case Num(n) =>
      if PrintsPlain(n) then
        ParseIntStr(n.v.Floor);
        IntStr(n.v.Floor)
      else if n.NaN? then "NaN"
      else if IsInteger(n) || dp == -1 then f.plain(n.v)
      else f.fixed(n.v, dp)
    case Date(t) => f.date(t)
    case Null => defaultValue
    case Str(s) => s
    case Bool(b) => if b then "true" else "false"
  }

  /** A cell's own `toString()` (`String(null)` for null). */
  function ToText(c: Cell, f: Formats): (r: string)
    ensures c.Num? && PrintsPlain(c.n) ==> ParseInt(r) == Some(c.n.v.Floor)
    ensures c.Num? && IsInteger(c.n) && !PrintsPlain(c.n) ==> r == f.plain(c.n.v)
    ensures c.Str? ==> r == c.s
  {
    match c
    case Num(n) =>
      if PrintsPlain(n) then
        ParseIntStr(n.v.Floor);
        IntStr(n.v.Floor)
      else if n.NaN? then "NaN"
      else f.plain(n.v)
    case Date(t) => f.dateText(t)
    case Null => "null"
    case Str(s) => s
    case Bool(b) => if b then "true" else "false"
  }

  // ------------------------------------------------------------ Excel names

  function Letter(d: nat): char
    requires d < 26
  {
    ('A' as int + d) as char
  }

  predicate IsUpperName(s: string) {
    forall i :: 0 <= i < |s| ==> 'A' <= s[i] <= 'Z'
  }

  /** The Excel name of zero-based column `col`: bijective base 26 with the
      digits A..Z. */
  function ExcelName(col: nat): (r: string)
    ensures |r| >= 1
  {
    if col < 26 then [Letter(col)] else ExcelName(col / 26 - 1) + [Letter(col % 26)]
  }

  /** A name is made of the letters A..Z. */
  lemma {:induction false} ExcelNameUpper(col: nat)
    ensures IsUpperName(ExcelName(col))
  {
    if col >= 26 {
      ExcelNameUpper(col / 26 - 1);
    }
  }

  /** Reading a name back: the one-based column number it denotes. */
  function ExcelValue(s: string): (r: nat)
    requires IsUpperName(s)
    ensures s != [] ==> r >= 1
  {
    if s == [] then 0
    else ExcelValue(s[..|s| - 1]) * 26 + (s[|s| - 1] as int - 'A' as int + 1)
  }

  lemma {:induction false} ExcelNameValue(col: nat)
    ensures IsUpperName(ExcelName(col)) && ExcelValue(ExcelName(col)) == col + 1
  {
    ExcelNameUpper(col);
    if col >= 26 {
      ExcelNameValue(col / 26 - 1);
      var r := ExcelName(col);
      assert r[..|r| - 1] == ExcelName(col / 26 - 1);
    }
  }

  lemma {:induction false} ExcelValueName(s: string)
    requires s != [] && IsUpperName(s)
    ensures ExcelName(ExcelValue(s) - 1) == s
  {
    var p := s[..|s| - 1];
    var d := s[|s| - 1] as int - 'A' as int;
    if p != [] {
      ExcelValueName(p);
      var n := ExcelValue(s) - 1;
      assert n == ExcelValue(p) * 26 + d;
      assert n / 26 - 1 == ExcelValue(p) - 1;
      assert n % 26 == d;
      assert s == p + [s[|s| - 1]];
    } else {
      assert s == [s[0]];
    }
  }

  /** Different columns have different names. */
  lemma ExcelNameInjective(a: nat, b: nat)
    ensures ExcelName(a) == ExcelName(b) <==> a == b
  {
    ExcelNameValue(a);
    ExcelNameValue(b);
  }

  lemma ExcelNameExamples()
    ensures ExcelName(0) == "A" && ExcelName(25) == "Z"
    ensures ExcelName(26) == "AA" && ExcelName(701) == "ZZ" && ExcelName(702) == "AAA"
  {
  }

  function Reverse(s: string): (r: string)
    ensures |r| == |s|
  {
    if s == [] then [] else Reverse(s[1..]) + [s[0]]
  }

  /** `getExcelColName`: repeatedly peels off the last letter of the name and
      finally reverses the letters collected. The column must be a
      non-negative index. */
  method GetExcelColName(col: nat) returns (name: string)
    ensures name == ExcelName(col)
  {
    var c: nat := col + 1;
    var res: string := [];
    while c != 0
      invariant NamePrefix(c) + Reverse(res) == ExcelName(col)
      decreases c
    {
      NameStep(c, res);
      res := res + [Letter((c - 1) % 26)];
      c := (c - 1) / 26;
    }
    name := Reverse(res);
  }

  /** The letters still to be produced when the one-based counter is c. */
  ghost function NamePrefix(c: nat): string {
    if c == 0 then [] else ExcelName(c - 1)
  }

  /** One turn of the loop: the last letter moves from the prefix to the
      collected (reversed) letters. */
  lemma NameStep(c: nat, res: string)
    requires c != 0
    ensures NamePrefix((c - 1) / 26) + Reverse(res + [Letter((c - 1) % 26)]) == NamePrefix(c) + Reverse(res)
  {
    var x := Letter((c - 1) % 26);
    ReversePush(res, x);
    assert NamePrefix(c) == NamePrefix((c - 1) / 26) + [x];
  }

  lemma {:induction false} ReversePush(s: string, x: char)
    ensures Reverse(s + [x]) == [x] + Reverse(s)
  {
    if s != [] {
      assert (s + [x])[1..] == s[1..] + [x];
      ReversePush(s[1..], x);
    }
  }
}
