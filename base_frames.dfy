/** What every table offers (src/lib/dataframe/base-dataframe.ts): its shape
    and size, row and column names, look-up of rows and columns by number or
    by name prefix, and the tab-separated text rendering used for
    downloads. A table is seen here as a value: its name, row index, rows of
    cells and column index. */
module BaseFrames {
  import opened Wrappers
  import opened Cell
  import opened Strs
  import opened Seqs
  import opened Indexes

  /** The state of a table: `_name`, `_index`, `_data` (row-major) and
      `_columns`. */
  datatype Frame = Frame(name: string, index: Index, data: seq<seq<Cell>>, columns: Index)

  /** A row or column given by position or by name (`IndexType`). */
  datatype Key = Pos(i: int) | Label(s: string)

  /** `shape`: the number of rows, and the length of the first row (0 when
      there are no rows). */
  function Shape(f: Frame): (r: (nat, nat))
    ensures r.0 == |f.data|
    ensures r.1 == if |f.data| > 0 then |f.data[0]| else 0
  {
    (|f.data|, if |f.data| > 0 then |f.data[0]| else 0)
  }

  /** `size`: rows times columns. */
  function Size(f: Frame): (r: nat)
    ensures r == Shape(f).0 * Shape(f).1
  {
    Shape(f).0 * Shape(f).1
  }

  /** All rows as long as the first one. */
  predicate Rectangular(data: seq<seq<Cell>>) {
    forall r :: 0 <= r < |data| ==> |data[r]| == |data[0]|
  }

  function CellCount(data: seq<seq<Cell>>): nat {
    if data == [] then 0 else CellCount(data[..|data| - 1]) + |data[|data| - 1]|
  }

  /** For a rectangular table the size is the number of cells stored. */
  lemma {:induction false} SizeIsCellCount(f: Frame)
    requires Rectangular(f.data)
    ensures Size(f) == CellCount(f.data)
  {
    var d := f.data;
    if d != [] {
      CellCountRect(d, |d|);
      assert d[..|d|] == d;
    }
  }

  lemma {:induction false} CellCountRect(d: seq<seq<Cell>>, k: nat)
    requires |d| > 0 && Rectangular(d) && k <= |d|
    ensures CellCount(d[..k]) == k * |d[0]|
  {
    if k > 0 {
      CellCountRect(d, k - 1);
      assert d[..k][..k - 1] == d[..k - 1];
    } else {
      assert d[..0] == [];
    }
  }

  /** `getRowName(i)`: the row index's value at i, printed by `cellStr`. */
  function GetRowName(f: Frame, i: nat, fmt: Formats): (r: string)
    ensures f.index.InfNum? && (i + 1) as real < PLAIN_LIMIT ==> ParseInt(r) == Some(i + 1)
  {
    CellStr(Get(f.index, i), DEFAULT_DP, DEFAULT_VALUE, fmt)
  }

  /** `rowNames`: one name per row. */
  function RowNames(f: Frame, fmt: Formats): (r: seq<string>)
    ensures |r| == Shape(f).0
    ensures forall i :: 0 <= i < |r| ==> r[i] == GetRowName(f, i, fmt)
  {
    seq(Shape(f).0, i requires 0 <= i => GetRowName(f, i, fmt))
  }

  /** `getColName(i)`: the text of the column index's value at i. */
  function GetColName(f: Frame, i: nat, fmt: Formats): (r: string)
    ensures f.columns.InfExcel? ==> r == ExcelName(i)
  {
    GetName(f.columns, i, fmt)
  }

  /** `colNames`: one name per column. */
  function ColNames(f: Frame, fmt: Formats): (r: seq<string>)
    ensures |r| == Shape(f).1
    ensures forall i :: 0 <= i < |r| ==> r[i] == GetColName(f, i, fmt)
  {
    seq(Shape(f).1, i requires 0 <= i => GetColName(f, i, fmt))
  }

  // ------------------------------------------------------------ look-up

  /** A name matches a search text when it starts with it, compared in
      lower case unless the search is case-sensitive. */
  predicate NameMatches(name: string, s: string, lc: bool) {
    if lc then Lower(s) <= Lower(name) else s <= name
  }

  function RowTest(f: Frame, s: string, lc: bool, fmt: Formats): nat -> bool {
    (c: nat) => NameMatches(GetRowName(f, c, fmt), s, lc)
  }

  function ColTest(f: Frame, s: string, lc: bool, fmt: Formats): nat -> bool {
    (c: nat) => NameMatches(GetColName(f, c, fmt), s, lc)
  }

  /** `_findRow`: a number is returned as the only match; a text is matched
      against the row names. The case-insensitive search scans the rows;
      the case-sensitive one scans as many positions as there are columns. */
  function FindRowIndices(f: Frame, key: Key, lc: bool, fmt: Formats): (r: seq<int>)
  {
    match key
    case Pos(i) => [i]
    case Label(s) => IndicesWhere(if lc then Shape(f).0 else Shape(f).1, RowTest(f, s, lc, fmt))
  }

  /** `_findCol`: a number is returned as the only match; a text is matched
      against the column names, scanning the columns. */
  function FindColIndices(f: Frame, key: Key, lc: bool, fmt: Formats): (r: seq<int>)
  {
    match key
    case Pos(i) => [i]
    case Label(s) => IndicesWhere(Shape(f).1, ColTest(f, s, lc, fmt))
  }

  /** A position is returned as given; a case-insensitive name search
      returns, ascending, exactly the rows whose lower-cased name starts with
      the lower-cased text. */
  lemma FindRowMeaning(f: Frame, key: Key, fmt: Formats)
    ensures key.Pos? ==> FindRowIndices(f, key, true, fmt) == [key.i]
    ensures key.Label? ==> Increasing(FindRowIndices(f, key, true, fmt))
    ensures key.Label? ==> forall c: nat ::
              c in FindRowIndices(f, key, true, fmt) <==>
              c < Shape(f).0 && Lower(key.s) <= Lower(GetRowName(f, c, fmt))
  {
    if key.Label? {
      var r := FindRowIndices(f, key, true, fmt);
      forall c: nat | c in r ensures c < Shape(f).0 && RowTest(f, key.s, true, fmt)(c) {
        var k :| 0 <= k < |r| && r[k] == c;
      }
    }
  }

  /** The same for columns, in both the case-insensitive and the
      case-sensitive search. */
  lemma FindColMeaning(f: Frame, key: Key, lc: bool, fmt: Formats)
    ensures key.Pos? ==> FindColIndices(f, key, lc, fmt) == [key.i]
    ensures key.Label? ==> Increasing(FindColIndices(f, key, lc, fmt))
    ensures key.Label? ==> forall c: nat ::
              c in FindColIndices(f, key, lc, fmt) <==>
              c < Shape(f).1 && NameMatches(GetColName(f, c, fmt), key.s, lc)
  {
    if key.Label? {
      var r := FindColIndices(f, key, lc, fmt);
      forall c: nat | c in r ensures c < Shape(f).1 && ColTest(f, key.s, lc, fmt)(c) {
        var k :| 0 <= k < |r| && r[k] == c;
      }
    }
  }

  /** `_findRow` as the loop it is: scan the candidate positions and push
      every one whose name matches. */
  method FindRow(f: Frame, key: Key, lc: bool, fmt: Formats) returns (ret: seq<int>)
    ensures ret == FindRowIndices(f, key, lc, fmt)
  {
    match key
    case Pos(i) =>
      ret := [i];
    case Label(s) =>
      var n := if lc then Shape(f).0 else Shape(f).1;
      var test := RowTest(f, s, lc, fmt);
      ret := [];
      for c := 0 to n
        invariant ret == IndicesWhere(c, test)
      {
        assert IndicesWhere(c + 1, test) == IndicesWhere(c, test) + (if test(c) then [c] else []);
        if test(c) {
          ret := ret + [c];
        }
      }
  }

  /** `_findCol` as the loop it is. */
  method FindCol(f: Frame, key: Key, lc: bool, fmt: Formats) returns (ret: seq<int>)
    ensures ret == FindColIndices(f, key, lc, fmt)
  {
    match key
    case Pos(i) =>
      ret := [i];
    case Label(s) =>
      var test := ColTest(f, s, lc, fmt);
      ret := [];
      for c := 0 to Shape(f).1
        invariant ret == IndicesWhere(c, test)
      {
        assert IndicesWhere(c + 1, test) == IndicesWhere(c, test) + (if test(c) then [c] else []);
        if test(c) {
          ret := ret + [c];
        }
      }
  }

  // ------------------------------------------------------------ text

  /** The text of every cell of a row, as `cellStr` prints it. */
  function CellTexts(row: seq<Cell>, fmt: Formats): (r: seq<string>)
    ensures |r| == |row|
    ensures forall k :: 0 <= k < |row| ==> r[k] == CellStr(row[k], DEFAULT_DP, DEFAULT_VALUE, fmt)
  {
    seq(|row|, k requires 0 <= k < |row| => CellStr(row[k], DEFAULT_DP, DEFAULT_VALUE, fmt))
  }

  /** One line of the rendering: the row name when `index` is on, then the
      row's cells, joined by `sep`. */
  function RowLine(f: Frame, ri: nat, sep: string, index: bool, fmt: Formats): string
    requires ri < |f.data|
  {
    Join((if index then [GetRowName(f, ri, fmt)] else []) + CellTexts(f.data[ri], fmt), sep)
  }

  /** The lines of the rendering: the header of column names when `header`
      is on, then one line per row. */
  function Lines(f: Frame, sep: string, index: bool, header: bool, fmt: Formats): (r: seq<string>)
    ensures |r| == Shape(f).0 + (if header then 1 else 0)
    ensures header ==> r[0] == Join(ColNames(f, fmt), sep)
    ensures forall ri :: 0 <= ri < |f.data| ==>
              r[ri + (if header then 1 else 0)] == RowLine(f, ri, sep, index, fmt)
  {
    (if header then [Join(ColNames(f, fmt), sep)] else []) +
    seq(|f.data|, ri requires 0 <= ri < |f.data| => RowLine(f, ri, sep, index, fmt))
  }

  /** The default rendering options: tab separator, index and header on. */
  const DEFAULT_SEP := "\t"

  /** `toString` / `toCsv`: the lines joined by newlines. */
  function Render(f: Frame, sep: string, index: bool, header: bool, fmt: Formats): string {
    Join(Lines(f, sep, index, header, fmt), "\n")
  }

  /** With index on, a row line starts with the row's name, then the
      separator, then the first cell's text. */
  lemma RowLineStartsWithName(f: Frame, ri: nat, sep: string, fmt: Formats)
    requires ri < |f.data|
    ensures GetRowName(f, ri, fmt) <= RowLine(f, ri, sep, true, fmt)
    ensures |f.data[ri]| > 0 ==>
              GetRowName(f, ri, fmt) + sep + CellStr(f.data[ri][0], DEFAULT_DP, DEFAULT_VALUE, fmt)
              <= RowLine(f, ri, sep, true, fmt)
  {
    var parts := [GetRowName(f, ri, fmt)] + CellTexts(f.data[ri], fmt);
    if |parts| > 1 {
      var rest := Join(parts[1..], sep);
      assert RowLine(f, ri, sep, true, fmt) == parts[0] + sep + rest;
      JoinStartsWithFirst(parts[1..], sep);
    }
  }

  lemma JoinStartsWithFirst(parts: seq<string>, sep: string)
    requires |parts| > 0
    ensures parts[0] <= Join(parts, sep)
  {
  }

  /** Splitting the rendering at newlines gives back its lines, one per row
      plus the header, whenever no name, cell or separator holds a newline. */
  lemma {:induction false} RenderLines(f: Frame, sep: string, index: bool, header: bool, fmt: Formats)
    requires |f.data| > 0 || header
    requires forall k :: 0 <= k < |Lines(f, sep, index, header, fmt)| ==>
               '\n' !in Lines(f, sep, index, header, fmt)[k]
    ensures Split(Render(f, sep, index, header, fmt), '\n') == Lines(f, sep, index, header, fmt)
    ensures |Split(Render(f, sep, index, header, fmt), '\n')| == |f.data| + (if header then 1 else 0)
  {
    SplitJoin(Lines(f, sep, index, header, fmt), '\n');
  }
}
