/** The in-memory table (src/lib/dataframe/dataframe.ts): construction from
    rows and indexes, cell access, in-place column, row and cell updates,
    transpose, copies, cell/row/column maps, and position- or name-based
    slicing (`iloc`, `isin`). */
module DataFrames {
  import opened Wrappers
  import opened Cell
  import opened Strs
  import opened Seqs
  import opened Indexes
  import opened BaseFrames

  /** What a caller may pass as an index (`IndexFromType`): an index
      object, a plain list of values, or nothing. */
  datatype IndexFrom = FromIndex(ix: Index) | FromList(values: seq<Cell>) | FromNone

  // ------------------------------------------------------------ construction

  /** `setIndex`: an index object is used as is, a list becomes a
      value-holding index, nothing gives the numeric index. */
  function WithIndex(f: Frame, from: IndexFrom): (r: Frame)
    ensures r.data == f.data && r.columns == f.columns && r.name == f.name
    ensures from.FromIndex? ==> r.index == from.ix
    ensures from.FromList? ==> r.index == Data(from.values)
    ensures from.FromNone? ==> r.index == InfNum
  {
    match from
    case FromIndex(ix) => f.(index := ix)
    case FromList(vs) => f.(index := Data(vs))
    case FromNone => f.(index := InfNum)
  }

  /** `setColNames`: the unbounded indexes are always accepted; a
      value-holding index or a list only when its length equals the number
      of columns; anything else leaves the names unchanged. */
  function WithColNames(f: Frame, from: IndexFrom): (r: Frame)
    ensures r.data == f.data && r.index == f.index && r.name == f.name
    ensures from.FromIndex? && (from.ix.InfNum? || from.ix.InfExcel?) ==> r.columns == from.ix
    ensures from.FromIndex? && from.ix.Data? ==>
              r.columns == (if |from.ix.values| == Shape(f).1 then from.ix else f.columns)
    ensures from.FromList? ==>
              r.columns == (if |from.values| == Shape(f).1 then Data(from.values) else f.columns)
    ensures from.FromNone? || (from.FromIndex? && (from.ix.Base? || from.ix.Iter?)) ==> r == f
  {
    match from
    case FromIndex(ix) =>
      if ix.InfNum? || ix.InfExcel? then f.(columns := ix)
      else if ix.Data? then (if Indexes.Size(ix) == Shape(f).1 then f.(columns := ix) else f)
      else f
    case FromList(vs) => if |vs| == Shape(f).1 then f.(columns := Data(vs)) else f
    case FromNone => f
  }

  /** The constructor: numeric row index and Excel column index by default,
      then `setIndex` and `setColNames` with the given ones. */
  function Construct(name: string, data: seq<seq<Cell>>, index: IndexFrom, columns: IndexFrom): (r: Frame)
    ensures r.name == name && r.data == data
    ensures columns.FromNone? ==> r.columns == InfExcel
  {
    WithColNames(WithIndex(Frame(name, InfNum, data, InfExcel), index), columns)
  }

  /** `copy`: the same name, cells and indexes, passed through the
      constructor again. */
  function CopyFrame(f: Frame): (r: Frame)
    ensures r.name == f.name && r.data == f.data && r.index == f.index
    ensures (f.columns.InfNum? || f.columns.InfExcel? ||
             (f.columns.Data? && |f.columns.values| == Shape(f).1)) ==> r == f
    ensures f.columns.Base? || f.columns.Iter? ==> r.columns == InfExcel
  {
    Construct(f.name, f.data, FromIndex(f.index), FromIndex(f.columns))
  }

  /** A copy keeps a column index that fits the table, so copying twice is
      copying once. */
  lemma CopyIdempotent(f: Frame)
    ensures CopyFrame(CopyFrame(f)) == CopyFrame(f)
  {
  }

  // ------------------------------------------------------------ cells

  /** `get(row, col)`: the stored cell, or NaN when the position is outside
      the stored rows or cells, or the cell is empty. */
  function GetCell(f: Frame, row: int, col: int): (r: Cell)
    ensures r != Null
    ensures 0 <= row < |f.data| && 0 <= col < |f.data[row]| && f.data[row][col] != Null ==>
              r == f.data[row][col]
    ensures !(0 <= row < |f.data| && 0 <= col < |f.data[row]|) ==> r == Num(NaN)
  {
    if 0 <= row < |f.data| && 0 <= col < |f.data[row]| && f.data[row][col] != Null
    then f.data[row][col] else Num(NaN)
  }

  /** Writing `row[c] = v` on a JavaScript array: a negative position sets a
      property and leaves the elements alone; a position past the end
      extends the array with holes (read back as empty cells). */
  function SetAt(row: seq<Cell>, c: int, v: Cell): (r: seq<Cell>)
    ensures c < 0 ==> r == row
    ensures 0 <= c ==> |r| == if c < |row| then |row| else c + 1
    ensures 0 <= c ==> r[c] == v
    ensures forall k :: 0 <= k < |row| && k != c ==> r[k] == row[k]
  {
    if c < 0 then row
    else if c < |row| then row[c := v]
    else row + seq(c - |row|, _ => Null) + [v]
  }

  /** `set(row, col, v)`: the cell is replaced by `makeCell(v)`; the row
      must exist. */
  function WithCell(f: Frame, row: nat, col: int, v: Cell, p: Parsers): (r: Frame)
    requires row < |f.data|
    ensures r.index == f.index && r.columns == f.columns && |r.data| == |f.data|
    ensures forall k :: 0 <= k < |f.data| && k != row ==> r.data[k] == f.data[k]
    ensures 0 <= col ==> col < |r.data[row]| && r.data[row][col] == MakeCell(v, true, p)
    ensures col < 0 ==> r == f
  {
    f.(data := f.data[row := SetAt(f.data[row], col, MakeCell(v, true, p))])
  }

  /** The cells of column `c`, an empty cell where a row is too short. */
  function Column(data: seq<seq<Cell>>, c: nat): (r: seq<Cell>)
    ensures |r| == |data|
    ensures forall k :: 0 <= k < |data| && c < |data[k]| ==> r[k] == data[k][c]
  {
    seq(|data|, k requires 0 <= k < |data| => if c < |data[k]| then data[k][c] else Null)
  }

  // ------------------------------------------------------------ transpose

  /** `_t`: one row per cell of the first row, holding that column; an empty
      table has no first row and the call fails. */
  function Transpose(data: seq<seq<Cell>>): (r: Option<seq<seq<Cell>>>)
    ensures r.None? <==> |data| == 0
    ensures r.Some? ==> |r.value| == |data[0]|
    ensures r.Some? ==> forall c :: 0 <= c < |r.value| ==> |r.value[c]| == |data|
    ensures r.Some? ==> forall c, k :: 0 <= c < |r.value| && 0 <= k < |data| && c < |data[k]| ==>
              r.value[c][k] == data[k][c]
  {
    if |data| == 0 then None
    else Some(seq(|data[0]|, c requires 0 <= c < |data[0]| => Column(data, c)))
  }

  /** Transposing a rectangular table with at least one cell twice gives it
      back. */
  lemma TransposeTwice(data: seq<seq<Cell>>)
    requires |data| > 0 && |data[0]| > 0 && Rectangular(data)
    ensures Transpose(data).Some? && Transpose(Transpose(data).value) == Some(data)
  {
    var t := Transpose(data).value;
    var tt := Transpose(t).value;
    assert |tt| == |data|;
    forall k | 0 <= k < |data| ensures tt[k] == data[k] {
      assert |tt[k]| == |data[k]|;
      forall c | 0 <= c < |data[k]| ensures tt[k][c] == data[k][c] {
        assert tt[k][c] == t[c][k];
      }
    }
    assert tt == data;
  }

  /** `t()`: the transposed cells, with the column index as the new row index
      and the row index offered as the new column index. */
  function TransposeFrame(f: Frame): (r: Option<Frame>)
    ensures r.None? <==> |f.data| == 0
    ensures r.Some? ==> r.value.index == f.columns && r.value.name == f.name
    ensures r.Some? ==> Some(r.value.data) == Transpose(f.data)
  {
    match Transpose(f.data)
    case None => None
    case Some(t) => Some(Construct(f.name, t, FromIndex(f.columns), FromIndex(f.index)))
  }

  /** With a row index of either unbounded kind, or one holding a value per
      row, `t()` swaps the two indexes. */
  lemma TransposeSwapsIndexes(f: Frame)
    requires |f.data| > 0
    requires f.index.InfNum? || f.index.InfExcel? ||
             (f.index.Data? && |f.index.values| == |f.data| && |f.data[0]| > 0)
    ensures TransposeFrame(f).Some?
    ensures TransposeFrame(f).value.index == f.columns
    ensures TransposeFrame(f).value.columns == f.index
  {
    var t := Transpose(f.data).value;
    if |t| > 0 {
      assert |t[0]| == |f.data|;
    }
  }

  // ------------------------------------------------------------ maps

  /** `_map`: `fn(value, row, col)` for every cell, keeping the layout. */
  function MapCells<T>(f: Frame, fn: (Cell, int, int) -> T): (r: seq<seq<T>>)
    ensures |r| == |f.data|
    ensures forall i :: 0 <= i < |r| ==> |r[i]| == |f.data[i]|
    ensures forall i, j :: 0 <= i < |r| && 0 <= j < |r[i]| ==> r[i][j] == fn(f.data[i][j], i, j)
  {
    seq(|f.data|, i requires 0 <= i < |f.data| =>
      seq(|f.data[i]|, j requires 0 <= j < |f.data[i]| => fn(f.data[i][j], i, j)))
  }

  /** `_rowMap`: `fn(row, index)` for every row. */
  function RowMap<T>(f: Frame, fn: (seq<Cell>, int) -> T): (r: seq<T>)
    ensures |r| == |f.data|
    ensures forall i :: 0 <= i < |r| ==> r[i] == fn(f.data[i], i)
  {
    seq(|f.data|, i requires 0 <= i < |f.data| => fn(f.data[i], i))
  }

  /** `_colMap`: `fn(column, index)` for every column of the first row; an
      empty table has no first row and the call fails. */
  function ColMap<T>(f: Frame, fn: (seq<Cell>, int) -> T): (r: Option<seq<T>>)
    ensures r.None? <==> |f.data| == 0
    ensures r.Some? ==> |r.value| == Shape(f).1
    ensures r.Some? ==> forall c :: 0 <= c < |r.value| ==> r.value[c] == fn(Column(f.data, c), c)
  {
    if |f.data| == 0 then None
    else Some(seq(|f.data[0]|, c requires 0 <= c < |f.data[0]| => fn(Column(f.data, c), c)))
  }

  // ------------------------------------------------------------ column and row updates

  /** The first `|d|` rows with their cell at column `c` replaced by the
      matching value; the other rows unchanged. */
  function ColumnSet(rows: seq<seq<Cell>>, c: int, d: seq<Cell>): (r: seq<seq<Cell>>)
    requires |d| <= |rows|
    ensures |r| == |rows|
    ensures forall k :: 0 <= k < |d| ==> r[k] == SetAt(rows[k], c, d[k])
    ensures forall k :: |d| <= k < |rows| ==> r[k] == rows[k]
  {
    seq(|rows|, k requires 0 <= k < |rows| => if k < |d| then SetAt(rows[k], c, d[k]) else rows[k])
  }

  /** The first `|d|` rows each extended by the matching value; the other
      rows unchanged. */
  function ColumnAppended(rows: seq<seq<Cell>>, d: seq<Cell>): (r: seq<seq<Cell>>)
    requires |d| <= |rows|
    ensures |r| == |rows|
    ensures forall k :: 0 <= k < |d| ==> r[k] == rows[k] + [d[k]]
    ensures forall k :: |d| <= k < |rows| ==> r[k] == rows[k]
  {
    seq(|rows|, k requires 0 <= k < |rows| => if k < |d| then rows[k] + [d[k]] else rows[k])
  }

  /** The name a new row or column gets: the old size for a numeric key, the
      text for a name. */
  function NewName(ix: Index, key: Key): Cell {
    if key.Pos? then Num(Finite(Indexes.Size(ix) as real)) else Str(key.s)
  }

  /** `setCol` (on the table itself). The key is looked up among the column
      names; when it names an existing column, the first `|d|` rows get their
      cell in that column replaced. Otherwise the values are appended to the
      first `|d|` rows (an empty list empties the table) and the column index
      becomes a value-holding index with one more name. Every value needs an
      existing row. */
  function WithCol(f: Frame, key: Key, d: seq<Cell>, fmt: Formats): (r: Frame)
    requires |d| <= |f.data|
    ensures r.index == f.index && r.name == f.name
  {
    var idx := FindColIndices(f, key, true, fmt);
    if |idx| > 0 && idx[0] < Shape(f).1 then
      f.(data := ColumnSet(f.data, idx[0], d))
    else
      f.(data := if |d| == 0 then [] else ColumnAppended(f.data, d),
         columns := Data(Values(f.columns) + [NewName(f.columns, key)]))
  }

  /** Setting a full column named by an existing column's position changes
      that column only. */
  lemma SetExistingColumn(f: Frame, c: nat, d: seq<Cell>, fmt: Formats)
    requires Rectangular(f.data) && c < Shape(f).1 && |d| == |f.data|
    ensures var g := WithCol(f, Pos(c), d, fmt);
      g.columns == f.columns && Rectangular(g.data) && Shape(g) == Shape(f) &&
      (forall k :: 0 <= k < |d| ==> g.data[k][c] == d[k]) &&
      (forall k, j :: 0 <= k < |d| && 0 <= j < |f.data[k]| && j != c ==> g.data[k][j] == f.data[k][j])
  {
  }

  /** Setting a full column under a new name keeps a rectangular table
      rectangular, appends the value to every row and adds one column name. */
  lemma SetNewColumn(f: Frame, s: string, d: seq<Cell>, fmt: Formats)
    requires Rectangular(f.data) && |d| == |f.data| > 0
    requires forall c :: 0 <= c < Shape(f).1 ==> !NameMatches(GetColName(f, c, fmt), s, true)
    ensures var g := WithCol(f, Label(s), d, fmt);
      Rectangular(g.data) && Shape(g) == (Shape(f).0, Shape(f).1 + 1) &&
      (forall k :: 0 <= k < |d| ==> g.data[k] == f.data[k] + [d[k]]) &&
      g.columns == Data(Values(f.columns) + [Str(s)])
  {
    FindColMeaning(f, Label(s), true, fmt);
    var idx := FindColIndices(f, Label(s), true, fmt);
    HeadIn(idx);
    assert idx == [];
    var g := WithCol(f, Label(s), d, fmt);
    assert g.data == ColumnAppended(f.data, d);
    assert g.columns == Data(Values(f.columns) + [Str(s)]);
  }

  /** `setRow` (on the table itself). The key is looked up among the row
      names; an existing row is replaced. Otherwise the row is appended (an
      empty row replaces every row) and the row index becomes a
      value-holding index with one more value: the old size for a numeric
      key, the name itself otherwise. */
  function WithRow(f: Frame, key: Key, d: seq<Cell>, fmt: Formats): (r: Frame)
    ensures r.columns == f.columns && r.name == f.name
  {
    var idx := FindRowIndices(f, key, true, fmt);
    if |idx| > 0 && idx[0] < Shape(f).0 then
      f.(data := if idx[0] >= 0 then f.data[idx[0] := d] else f.data)
    else
      var data := if |d| == 0 then [d] else f.data + [d];
      f.(data := data, index := Data(Values(f.index) + [NewName(f.index, key)]))
  }

  /** An existing row is replaced and nothing else changes; a new non-empty
      row is appended and extends the row index by exactly one value. */
  lemma SetRowMeaning(f: Frame, key: Key, d: seq<Cell>, fmt: Formats)
    ensures key.Pos? && 0 <= key.i < |f.data| ==>
              WithRow(f, key, d, fmt) == f.(data := f.data[key.i := d])
    ensures var g := WithRow(f, key, d, fmt);
      |d| > 0 && (key.Pos? ==> key.i >= |f.data|) &&
      (key.Label? ==> forall c :: 0 <= c < |f.data| ==> !NameMatches(GetRowName(f, c, fmt), key.s, true)) ==>
        g.data == f.data + [d] && |Values(g.index)| == |Values(f.index)| + 1 &&
        Values(g.index)[..|Values(f.index)|] == Values(f.index)
  {
    if key.Pos? {
      assert FindRowIndices(f, key, true, fmt) == [key.i];
      if key.i >= |f.data| && |d| > 0 {
        NewRowIndex(f, key, d, fmt);
      }
    } else if |d| > 0 && forall c :: 0 <= c < |f.data| ==> !NameMatches(GetRowName(f, c, fmt), key.s, true) {
      FindRowMeaning(f, key, fmt);
      var idx := FindRowIndices(f, key, true, fmt);
      HeadIn(idx);
      assert idx == [];
      NewRowIndex(f, key, d, fmt);
    }
  }

  /** When no existing row is found, a non-empty row is appended. */
  lemma NewRowIndex(f: Frame, key: Key, d: seq<Cell>, fmt: Formats)
    requires |d| > 0
    requires var idx := FindRowIndices(f, key, true, fmt); !(|idx| > 0 && idx[0] < Shape(f).0)
    ensures var g := WithRow(f, key, d, fmt);
      g.data == f.data + [d] && |Values(g.index)| == |Values(f.index)| + 1 &&
      Values(g.index)[..|Values(f.index)|] == Values(f.index)
  {
    var g := WithRow(f, key, d, fmt);
    assert g.index == Data(Values(f.index) + [NewName(f.index, key)]);
  }

  // ------------------------------------------------------------ slicing

  /** A position or a selector string (`LocType`). */
  datatype Loc = At(i: int) | Sel(s: string)

  /** One selector against `n` positions: a number is taken as is; text
      without ':' is looked up by `find`; ':' is every position; ':x' ends at
      the first match of x, 'x:' starts at the first match of x (what follows
      the ':' is ignored), each range clamped to [0, n). */
  function SelectPart(loc: Loc, n: nat, find: string -> seq<int>): (r: seq<int>)
    ensures loc.Sel? && ':' in loc.s ==> forall k :: 0 <= k < |r| ==> 0 <= r[k] < n
    ensures loc == Sel(":") ==> r == Range(0, n)
  {
    match loc
    case At(i) => [i]
    case Sel(s) =>
      if ':' !in s then find(s)
      else
        var bounds: (int, int) :=
          if s == ":" then (0, n - 1)
          else if ":" <= s then
            var hits := find(s[1..]);
            (0, if |hits| > 0 then hits[0] else n - 1)
          else
            var hits := find(Split(s, ':')[0]);
            (if |hits| > 0 then hits[0] else 0, n - 1);
        var lo := if bounds.0 > 0 then bounds.0 else 0;
        var hi := if bounds.1 + 1 < n then bounds.1 + 1 else n;
        Range(lo, hi)
  }

  /** The selectors in order, their positions concatenated. */
  function Select(locs: seq<Loc>, n: nat, find: string -> seq<int>): (r: seq<int>)
  {
    if locs == [] then [] else Select(locs[..|locs| - 1], n, find) + SelectPart(locs[|locs| - 1], n, find)
  }

  function RowFinder(f: Frame, fmt: Formats): string -> seq<int> {
    s => Find(f.index, s, fmt)
  }

  function ColFinder(f: Frame, fmt: Formats): string -> seq<int> {
    s => FindColIndices(f, Label(s), true, fmt)
  }

  /** The cell at a position, empty when the row is too short. */
  function CellOrNull(row: seq<Cell>, c: int): Cell {
    if 0 <= c < |row| then row[c] else Null
  }

  /** `_iloc`: rows are selected through the row index's `find`, columns
      through the column-name look-up; the result holds cell
      (rowIdx[i], colIdx[j]) at (i, j) and the filtered indexes. Reading a
      row that does not exist fails, unless no column is selected. */
  function Iloc(f: Frame, rows: seq<Loc>, cols: seq<Loc>, fmt: Formats): (r: Option<Frame>)
  {
    var rowIdx := Select(rows, Shape(f).0, RowFinder(f, fmt));
    var colIdx := Select(cols, Shape(f).1, ColFinder(f, fmt));
    if |colIdx| > 0 && !RowsExist(f.data, rowIdx) then None
    else Some(Construct(f.name, Cells(f.data, rowIdx, colIdx),
                        FromIndex(Filter(f.index, rowIdx)), FromIndex(Filter(f.columns, colIdx))))
  }

  predicate RowsExist(data: seq<seq<Cell>>, rowIdx: seq<int>) {
    forall k :: 0 <= k < |rowIdx| ==> 0 <= rowIdx[k] < |data|
  }

  /** The cells at the listed rows and columns, row by row. */
  function Cells(data: seq<seq<Cell>>, rowIdx: seq<int>, colIdx: seq<int>): (r: seq<seq<Cell>>)
    requires |colIdx| == 0 || RowsExist(data, rowIdx)
    ensures |r| == |rowIdx|
    ensures forall i :: 0 <= i < |r| ==> |r[i]| == |colIdx|
    ensures forall i, j :: 0 <= i < |rowIdx| && 0 <= j < |colIdx| ==>
              r[i][j] == CellOrNull(data[rowIdx[i]], colIdx[j])
  {
    seq(|rowIdx|, i requires 0 <= i < |rowIdx| =>
      seq(|colIdx|, j requires 0 <= j < |colIdx| => CellOrNull(data[rowIdx[i]], colIdx[j])))
  }

  /** Every row and every column, in order, of a rectangular table is the
      table itself. */
  lemma CellsAll(data: seq<seq<Cell>>)
    requires Rectangular(data)
    ensures Cells(data, Range(0, |data|), Range(0, if |data| > 0 then |data[0]| else 0)) == data
  {
    var m := if |data| > 0 then |data[0]| else 0;
    var rows, cols := Range(0, |data|), Range(0, m);
    var r := Cells(data, rows, cols);
    forall i | 0 <= i < |data| ensures r[i] == data[i] {
      assert rows[i] == i;
      assert |data[i]| == m;
      forall j | 0 <= j < m ensures r[i][j] == data[i][j] {
        assert cols[j] == j;
      }
    }
  }

  /** ':' selects every position. */
  lemma SelectAll(n: nat, find: string -> seq<int>)
    ensures Select([Sel(":")], n, find) == Range(0, n)
  {
    var all: seq<Loc> := [Sel(":")];
    assert all[..0] == [];
  }

  /** The cells of a slice are the source's cells at the selected positions. */
  lemma IlocCells(f: Frame, rows: seq<Loc>, cols: seq<Loc>, fmt: Formats, i: nat, j: nat)
    requires Iloc(f, rows, cols, fmt).Some?
    requires i < |Select(rows, Shape(f).0, RowFinder(f, fmt))|
    requires j < |Select(cols, Shape(f).1, ColFinder(f, fmt))|
    ensures var rowIdx := Select(rows, Shape(f).0, RowFinder(f, fmt));
      var colIdx := Select(cols, Shape(f).1, ColFinder(f, fmt));
      0 <= rowIdx[i] < |f.data| &&
      Iloc(f, rows, cols, fmt).value.data[i][j] == CellOrNull(f.data[rowIdx[i]], colIdx[j])
  {
  }

  /** ':' for both rows and columns gives back every cell of a rectangular
      table. */
  lemma IlocAll(f: Frame, fmt: Formats)
    requires Rectangular(f.data)
    ensures Iloc(f, [Sel(":")], [Sel(":")], fmt).Some?
    ensures Iloc(f, [Sel(":")], [Sel(":")], fmt).value.data == f.data
  {
    SelectAll(Shape(f).0, RowFinder(f, fmt));
    SelectAll(Shape(f).1, ColFinder(f, fmt));
    CellsAll(f.data);
  }

  /** The `forEach` of `_iloc` over the selectors: each one's positions are
      appended in turn. */
  method Positions(locs: seq<Loc>, n: nat, find: string -> seq<int>) returns (idx: seq<int>)
    ensures idx == Select(locs, n, find)
  {
    idx := [];
    for i := 0 to |locs|
      invariant idx == Select(locs[..i], n, find)
    {
      assert locs[..i + 1][..i] == locs[..i];
      idx := idx + SelectPart(locs[i], n, find);
    }
    assert locs[..|locs|] == locs;
  }

  /** Reading `data[r]` for every selected row: true when none is missing. */
  method CheckRows(data: seq<seq<Cell>>, rowIdx: seq<int>) returns (ok: bool)
    ensures ok == RowsExist(data, rowIdx)
  {
    ok := true;
    for k := 0 to |rowIdx|
      invariant ok <==> forall i :: 0 <= i < k ==> 0 <= rowIdx[i] < |data|
    {
      if !(0 <= rowIdx[k] < |data|) {
        ok := false;
      }
    }
  }

  /** `_iloc` as the loops it is: the row and column positions are
      collected selector by selector, then the cells are read. */
  method ILoc(f: Frame, rows: seq<Loc>, cols: seq<Loc>, fmt: Formats) returns (r: Option<Frame>)
    ensures r == Iloc(f, rows, cols, fmt)
  {
    var rowIdx := Positions(rows, Shape(f).0, RowFinder(f, fmt));
    var colIdx := Positions(cols, Shape(f).1, ColFinder(f, fmt));
    var ok := true;
    if |colIdx| > 0 {
      ok := CheckRows(f.data, rowIdx);
    }
    if !ok {
      r := None;
    } else {
      r := Some(Construct(f.name, Cells(f.data, rowIdx, colIdx),
                          FromIndex(Filter(f.index, rowIdx)), FromIndex(Filter(f.columns, colIdx))));
    }
  }

  function AtLocs(idx: seq<nat>): (r: seq<Loc>)
    ensures |r| == |idx| && forall k :: 0 <= k < |idx| ==> r[k] == At(idx[k])
  {
    seq(|idx|, k requires 0 <= k < |idx| => At(idx[k]))
  }

  /** `_isin`: the positions below the row (column) count that appear as
      numbers among the requested ones, ascending, then `_iloc`. */
  function IsinRows(f: Frame, rows: seq<Loc>): (r: seq<nat>)
    ensures Increasing(r)
    ensures forall i: nat :: i in r <==> i < Shape(f).0 && At(i) in rows
  {
    IndicesWhere(Shape(f).0, (i: nat) => At(i) in rows)
  }

  function IsinCols(f: Frame, cols: seq<Loc>): (r: seq<nat>)
    ensures Increasing(r)
    ensures forall i: nat :: i in r <==> i < Shape(f).1 && At(i) in cols
  {
    IndicesWhere(Shape(f).1, (i: nat) => At(i) in cols)
  }

  function Isin(f: Frame, rows: seq<Loc>, cols: seq<Loc>, fmt: Formats): Option<Frame> {
    Iloc(f, AtLocs(IsinRows(f, rows)), AtLocs(IsinCols(f, cols)), fmt)
  }

  /** Only existing rows are asked for, so `isin` never fails, and its rows
      are the requested existing rows in table order. */
  lemma {:induction false} IsinSucceeds(f: Frame, rows: seq<Loc>, cols: seq<Loc>, fmt: Formats)
    ensures Isin(f, rows, cols, fmt).Some?
    ensures |Isin(f, rows, cols, fmt).value.data| == |IsinRows(f, rows)|
  {
    var ps := AtLocs(IsinRows(f, rows));
    SelectPositions(ps, Shape(f).0, RowFinder(f, fmt));
  }

  lemma {:induction false} SelectPositions(locs: seq<Loc>, n: nat, find: string -> seq<int>)
    requires forall k :: 0 <= k < |locs| ==> locs[k].At?
    ensures Select(locs, n, find) == seq(|locs|, k requires 0 <= k < |locs| => locs[k].i)
  {
    if locs != [] {
      SelectPositions(locs[..|locs| - 1], n, find);
    }
  }

  /** Selecting the positions of a list of numbers gives back the list. */
  lemma SelectAtLocs(idx: seq<nat>, n: nat, find: string -> seq<int>)
    ensures Select(AtLocs(idx), n, find) == idx
  {
    SelectPositions(AtLocs(idx), n, find);
  }

  /** The `forEach` of `setCol` over an existing column: row k's cell is
      replaced by d[k]. */
  method SetColumn(rows: seq<seq<Cell>>, c: int, d: seq<Cell>) returns (res: seq<seq<Cell>>)
    requires |d| <= |rows|
    ensures res == ColumnSet(rows, c, d)
  {
    res := rows;
    for k := 0 to |d|
      invariant |res| == |rows|
      invariant forall i :: 0 <= i < k ==> res[i] == SetAt(rows[i], c, d[i])
      invariant forall i :: k <= i < |rows| ==> res[i] == rows[i]
    {
      res := res[k := SetAt(res[k], c, d[k])];
    }
  }

  /** The `forEach` of `setCol` for a new column: d[k] is pushed onto row k. */
  method AppendColumn(rows: seq<seq<Cell>>, d: seq<Cell>) returns (res: seq<seq<Cell>>)
    requires |d| <= |rows|
    ensures res == ColumnAppended(rows, d)
  {
    res := rows;
    for k := 0 to |d|
      invariant |res| == |rows|
      invariant forall i :: 0 <= i < k ==> res[i] == rows[i] + [d[i]]
      invariant forall i :: k <= i < |rows| ==> res[i] == rows[i]
    {
      res := res[k := res[k] + [d[k]]];
    }
  }

  // ------------------------------------------------------------ the object

  /** A table object whose methods update it in place, or a fresh copy when
      `inplace` is false. */
  class DataFrame {
    var name: string
    var index: Index
    var data: seq<seq<Cell>>
    var columns: Index

    function Value(): Frame
      reads this
    {
      Frame(name, index, data, columns)
    }

    constructor (name: string, data: seq<seq<Cell>>, index: IndexFrom, columns: IndexFrom)
      ensures Value() == Construct(name, data, index, columns)
    {
      var f := Construct(name, data, index, columns);
      this.name := f.name;
      this.index := f.index;
      this.data := f.data;
      this.columns := f.columns;
    }

    /** `shape` of the current state. */
    function Shape(): (r: (nat, nat))
      reads this
      ensures r == BaseFrames.Shape(Value())
    {
      (|data|, if |data| > 0 then |data[0]| else 0)
    }

    /** `values`: the rows, as values that later updates cannot reach. */
    function Values(): (r: seq<seq<Cell>>)
      reads this
      ensures |r| == Shape().0
    {
      data
    }

    /** `get(row, col)`. */
    function Get(row: int, col: int): (r: Cell)
      reads this
      ensures r == GetCell(Value(), row, col)
    {
      if 0 <= row < |data| && 0 <= col < |data[row]| && data[row][col] != Null
      then data[row][col] else Num(NaN)
    }

    method SetState(f: Frame)
      modifies this
      ensures Value() == f
    {
      name, index, data, columns := f.name, f.index, f.data, f.columns;
    }

    /** `copy()`. */
    method Copy() returns (df: DataFrame)
      ensures fresh(df) && df.Value() == CopyFrame(Value())
    {
      df := new DataFrame(name, data, FromIndex(index), FromIndex(columns));
    }

    /** `t()`: a new table, or null where the source throws on an empty one. */
    method T() returns (df: DataFrame?)
      ensures (df == null) <==> |data| == 0
      ensures df != null ==> fresh(df) && Some(df.Value()) == TransposeFrame(Value())
    {
      if |data| == 0 {
        df := null;
      } else {
        var t := Transpose(data).value;
        df := new DataFrame(name, t, FromIndex(columns), FromIndex(index));
      }
    }

    /** `set(row, col, v)` on the table itself. */
    method Set(row: nat, col: int, v: Cell, p: Parsers)
      requires row < |data|
      modifies this
      ensures Value() == WithCell(old(Value()), row, col, v, p)
    {
      data := data[row := SetAt(data[row], col, MakeCell(v, true, p))];
    }

    /** `setIndex`. */
    method SetIndex(from: IndexFrom, inplace: bool) returns (df: DataFrame)
      modifies this
      ensures inplace ==> df == this && Value() == WithIndex(old(Value()), from)
      ensures !inplace ==> fresh(df) && Value() == old(Value()) &&
                           df.Value() == WithIndex(CopyFrame(old(Value())), from)
    {
      if inplace { df := this; } else { df := Copy(); }
      df.SetState(WithIndex(df.Value(), from));
    }

    /** `setColNames`. */
    method SetColNames(from: IndexFrom, inplace: bool) returns (df: DataFrame)
      modifies this
      ensures inplace ==> df == this && Value() == WithColNames(old(Value()), from)
      ensures !inplace ==> fresh(df) && Value() == old(Value()) &&
                           df.Value() == WithColNames(CopyFrame(old(Value())), from)
    {
      if inplace { df := this; } else { df := Copy(); }
      df.SetState(WithColNames(df.Value(), from));
    }

    /** `setName`. */
    method SetName(newName: string, inplace: bool) returns (df: DataFrame)
      modifies this
      ensures inplace ==> df == this && Value() == old(Value()).(name := newName)
      ensures !inplace ==> fresh(df) && Value() == old(Value()) &&
                           df.Value() == CopyFrame(old(Value())).(name := newName)
    {
      if inplace { df := this; } else { df := Copy(); }
      df.name := newName;
    }

    /** The column update of `setCol`. */
    method UpdateCol(key: Key, d: seq<Cell>, fmt: Formats)
      requires |d| <= |data|
      modifies this
      ensures Value() == WithCol(old(Value()), key, d, fmt)
    {
      var idx := FindCol(Value(), key, true, fmt);
      if |idx| > 0 && idx[0] < Shape().1 {
        data := SetColumn(data, idx[0], d);
      } else {
        if |d| == 0 {
          data := [];
        } else {
          data := AppendColumn(data, d);
        }
        columns := Data(Indexes.Values(columns) + [NewName(columns, key)]);
      }
    }

    /** `setCol`. */
    method SetCol(key: Key, d: seq<Cell>, inplace: bool, fmt: Formats) returns (df: DataFrame)
      requires |d| <= |data|
      modifies this
      ensures inplace ==> df == this && Value() == WithCol(old(Value()), key, d, fmt)
      ensures !inplace ==> fresh(df) && Value() == old(Value()) &&
                           df.Value() == WithCol(CopyFrame(old(Value())), key, d, fmt)
    {
      if inplace { df := this; } else { df := Copy(); }
      df.UpdateCol(key, d, fmt);
    }

    /** The row update of `setRow`. */
    method UpdateRow(key: Key, d: seq<Cell>, fmt: Formats)
      modifies this
      ensures Value() == WithRow(old(Value()), key, d, fmt)
    {
      var idx := FindRow(Value(), key, true, fmt);
      if |idx| > 0 && idx[0] < |data| {
        if idx[0] >= 0 {
          data := data[idx[0] := d];
        }
      } else {
        if |d| == 0 {
          data := [d];
        } else {
          data := data + [d];
        }
        index := Data(Indexes.Values(index) + [NewName(index, key)]);
      }
    }

    /** `setRow`. */
    method SetRow(key: Key, d: seq<Cell>, inplace: bool, fmt: Formats) returns (df: DataFrame)
      modifies this
      ensures inplace ==> df == this && Value() == WithRow(old(Value()), key, d, fmt)
      ensures !inplace ==> fresh(df) && Value() == old(Value()) &&
                           df.Value() == WithRow(CopyFrame(old(Value())), key, d, fmt)
    {
      if inplace { df := this; } else { df := Copy(); }
      df.UpdateRow(key, d, fmt);
    }
  }
}
