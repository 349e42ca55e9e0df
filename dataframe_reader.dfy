/** The delimited-text reader (src/lib/dataframe/dataframe-reader.ts): its
    options, the builder that returns modified copies, and `read`, which
    turns lines of text into a table whose rows are padded to the header's
    width. */
module DataFrameReaders {
  import opened Wrappers
  import opened Cell
  import opened Strs
  import opened Seqs
  import opened Indexes
  import opened BaseFrames
  import opened DataFrames

  /** `ignoreRows` may be a count n, meaning the first n body rows, or a set. */
  datatype IgnoreRows = IgnoreCount(n: int) | IgnoreSet(rows: set<int>)

  /** The options a caller may give; a missing one takes its default. */
  datatype Options = Options(colNames: Option<int>, skipRows: Option<int>, indexCols: Option<int>,
                             ignoreRows: Option<IgnoreRows>, sep: Option<string>,
                             keepDefaultNA: Option<bool>)

  /** The reader's private settings. */
  datatype Settings = Settings(colNames: int, skipRows: int, indexCols: int, ignoreRows: set<int>,
                               sep: string, keepDefaultNA: bool)

  const NO_OPTIONS := Options(None, None, None, None, None, None)

  /** A count n stands for the rows 0 .. n-1. */
  function IgnoredRows(ig: IgnoreRows): (r: set<int>)
    ensures ig.IgnoreCount? ==> forall i :: i in r <==> 0 <= i < ig.n
    ensures ig.IgnoreSet? ==> r == ig.rows
  {
    match ig
    case IgnoreCount(n) => set i | i in Range(0, n)
    case IgnoreSet(rows) => rows
  }

  /** The constructor: one header line, no skipped rows, no index column,
      nothing ignored, tab-separated, NA spellings kept as missing, each
      overridden by a given option. */
  function SettingsFrom(o: Options): (r: Settings)
    ensures r.colNames == o.colNames.GetOr(1)
    ensures r.skipRows == o.skipRows.GetOr(0)
    ensures r.indexCols == o.indexCols.GetOr(0)
    ensures r.ignoreRows == (if o.ignoreRows.Some? then IgnoredRows(o.ignoreRows.value) else {})
    ensures r.sep == o.sep.GetOr("\t")
    ensures r.keepDefaultNA == o.keepDefaultNA.GetOr(true)
  {
    Settings(o.colNames.GetOr(1), o.skipRows.GetOr(0), o.indexCols.GetOr(0),
             if o.ignoreRows.Some? then IgnoredRows(o.ignoreRows.value) else {},
             o.sep.GetOr("\t"), o.keepDefaultNA.GetOr(true))
  }

  // ------------------------------------------------------------ read

  /** A line's tokens: quotes removed, then split at the separator. */
  function Tokens(s: Settings, line: string): seq<string> {
    SplitOn(RemoveChar(line, '"'), s.sep)
  }

  /** The header line's tokens: trailing space trimmed first. */
  function HeaderTokens(s: Settings, lines: seq<string>): seq<string>
    requires 0 <= s.skipRows < |lines|
  {
    SplitOn(RemoveChar(TrimEnd(lines[s.skipRows]), '"'), s.sep)
  }

  /** The number of data columns: the header tokens less one index column. */
  function ColumnCount(s: Settings, lines: seq<string>): int
    requires 0 <= s.skipRows < |lines|
  {
    |HeaderTokens(s, lines)| - (if s.indexCols > 0 then 1 else 0)
  }

  /** The column names: the header tokens after the index columns, when the
      file has a header. */
  function ColumnNames(s: Settings, lines: seq<string>): seq<string>
    requires 0 <= s.skipRows < |lines|
  {
    if s.colNames > 0 then SliceFrom(HeaderTokens(s, lines), s.indexCols) else []
  }

  /** The lines after the header. */
  function Body(s: Settings, lines: seq<string>): seq<string> {
    SliceFrom(lines, s.skipRows + s.colNames)
  }

  /** Whether body line `li` becomes a row: not ignored, and not empty after
      splitting. */
  function Keep(s: Settings, body: seq<string>): nat -> bool {
    (li: nat) => li < |body| && li !in s.ignoreRows && |Tokens(s, body[li])| > 0
  }

  /** The body lines that become rows, in file order. */
  function KeptLines(s: Settings, lines: seq<string>): (r: seq<nat>)
    ensures forall k :: 0 <= k < |r| ==> r[k] < |Body(s, lines)|
  {
    IndicesWhere(|Body(s, lines)|, Keep(s, Body(s, lines)))
  }

  /** A row: `columns` copies of the default cell, overwritten from the left
      by the converted tokens, growing when there are more tokens. */
  function RowCells(tokens: seq<string>, columns: nat, default: Cell, keepNA: bool, p: Parsers): (r: seq<Cell>)
    ensures |r| == if |tokens| > columns then |tokens| else columns
    ensures forall k :: 0 <= k < |tokens| ==> r[k] == MakeCell(Str(tokens[k]), keepNA, p)
    ensures forall k :: |tokens| <= k < |r| ==> r[k] == default
  {
    var n := if |tokens| > columns then |tokens| else columns;
    seq(n, k requires 0 <= k < n => if k < |tokens| then MakeCell(Str(tokens[k]), keepNA, p) else default)
  }

  /** The cell a missing value gets. */
  function DefaultCell(s: Settings, p: Parsers): Cell {
    MakeCell(Str(""), s.keepDefaultNA, p)
  }

  /** The row built from body line `li`. */
  function LineRow(s: Settings, body: seq<string>, li: nat, columns: nat, p: Parsers): seq<Cell>
    requires li < |body|
  {
    RowCells(SliceFrom(Tokens(s, body[li]), s.indexCols), columns, DefaultCell(s, p), s.keepDefaultNA, p)
  }

  /** The index value taken from body line `li`: its first token. */
  function LineName(s: Settings, body: seq<string>, li: nat): Cell
    requires li < |body|
  {
    var t := Tokens(s, body[li]);
    if |t| > 0 then Str(t[0]) else Null
  }

  function RowsOf(s: Settings, body: seq<string>, kept: seq<nat>, columns: nat, p: Parsers): (r: seq<seq<Cell>>)
    requires forall k :: 0 <= k < |kept| ==> kept[k] < |body|
    ensures |r| == |kept|
    ensures forall k :: 0 <= k < |kept| ==> r[k] == LineRow(s, body, kept[k], columns, p)
  {
    seq(|kept|, k requires 0 <= k < |kept| => LineRow(s, body, kept[k], columns, p))
  }

  function NamesOf(s: Settings, body: seq<string>, kept: seq<nat>): (r: seq<Cell>)
    requires forall k :: 0 <= k < |kept| ==> kept[k] < |body|
    ensures |r| == |kept|
    ensures forall k :: 0 <= k < |kept| ==> r[k] == LineName(s, body, kept[k])
  {
    seq(|kept|, k requires 0 <= k < |kept| => LineName(s, body, kept[k]))
  }

  function AsCells(names: seq<string>): (r: seq<Cell>)
    ensures |r| == |names| && forall k :: 0 <= k < |names| ==> r[k] == Str(names[k])
  {
    seq(|names|, k requires 0 <= k < |names| => Str(names[k]))
  }

  /** `read(lines)`: fails when there is no header line at `skipRows`, or
      when a row must be built for a negative column count. */
  function ReadLines(s: Settings, lines: seq<string>, p: Parsers): (r: Option<Frame>)
    ensures r.Some? <==> 0 <= s.skipRows < |lines| &&
                         (ColumnCount(s, lines) >= 0 || |KeptLines(s, lines)| == 0)
  {
    if !(0 <= s.skipRows < |lines|) then None
    else
      var columns := ColumnCount(s, lines);
      var kept := KeptLines(s, lines);
      if columns < 0 && |kept| > 0 then None
      else
        var body := Body(s, lines);
        var cols: nat := if columns < 0 then 0 else columns;
        var data := RowsOf(s, body, kept, cols, p);
        var index := if s.indexCols > 0 then NamesOf(s, body, kept) else [];
        var names := ColumnNames(s, lines);
        Some(Construct("", data, if |index| > 0 then FromList(index) else FromNone,
                       if |names| > 0 then FromList(AsCells(names)) else FromNone))
  }

  /** Every row read is at least as wide as the header (less its index
      column); missing cells hold the default cell. */
  lemma ReadPadsRows(s: Settings, lines: seq<string>, p: Parsers)
    requires ReadLines(s, lines, p).Some?
    ensures var f := ReadLines(s, lines, p).value;
      |f.data| == |KeptLines(s, lines)| &&
      forall k :: 0 <= k < |f.data| ==> |f.data[k]| >= ColumnCount(s, lines)
  {
  }

  /** With an index column, the row index holds each row's first token, one
      per row. */
  lemma ReadIndexPerRow(s: Settings, lines: seq<string>, p: Parsers)
    requires ReadLines(s, lines, p).Some? && s.indexCols > 0
    ensures var f := ReadLines(s, lines, p).value;
      var body := Body(s, lines);
      var kept := KeptLines(s, lines);
      (|kept| > 0 ==> f.index == Data(NamesOf(s, body, kept)) && |f.index.values| == |f.data|) &&
      (|kept| == 0 ==> f.index == InfNum)
  {
  }

  /** The column names are the header tokens after the index columns, kept
      when they match the width of the rows. */
  lemma ReadColumnNames(s: Settings, lines: seq<string>, p: Parsers)
    requires ReadLines(s, lines, p).Some?
    ensures var f := ReadLines(s, lines, p).value;
      var names := ColumnNames(s, lines);
      (|names| > 0 && |names| == Shape(f).1 ==> f.columns == Data(AsCells(names))) &&
      (|names| == 0 ==> f.columns == InfExcel)
  {
  }

  /** With a non-empty separator every body line that is not ignored becomes
      a row. */
  lemma ReadKeepsUnignored(s: Settings, lines: seq<string>)
    requires |s.sep| > 0
    ensures forall li :: 0 <= li < |Body(s, lines)| ==>
              (li in KeptLines(s, lines) <==> li !in s.ignoreRows)
  {
    var body := Body(s, lines);
    forall li | 0 <= li < |body| ensures li in KeptLines(s, lines) <==> li !in s.ignoreRows {
      var kept := KeptLines(s, lines);
      if li in kept {
        var k :| 0 <= k < |kept| && kept[k] == li;
      }
    }
  }

  // ------------------------------------------------------------ the object

  /** A reader whose builder methods return changed copies. */
  class DataFrameReader {
    var colNames: int
    var skipRows: int
    var indexCols: int
    var ignoreRows: set<int>
    var sep: string
    var keepDefaultNA: bool

    function Current(): Settings
      reads this
    {
      Settings(colNames, skipRows, indexCols, ignoreRows, sep, keepDefaultNA)
    }

    constructor (o: Options)
      ensures Current() == SettingsFrom(o)
    {
      var s := SettingsFrom(o);
      colNames, skipRows, indexCols := s.colNames, s.skipRows, s.indexCols;
      ignoreRows, sep, keepDefaultNA := s.ignoreRows, s.sep, s.keepDefaultNA;
    }

    /** `copy()`: a fresh reader with the same settings. */
    method Copy() returns (r: DataFrameReader)
      ensures fresh(r) && r.Current() == Current()
    {
      r := new DataFrameReader(NO_OPTIONS);
      r.colNames, r.skipRows, r.indexCols := colNames, skipRows, indexCols;
      r.ignoreRows, r.sep, r.keepDefaultNA := ignoreRows, sep, keepDefaultNA;
    }

    method ColNames(n: int) returns (r: DataFrameReader)
      ensures fresh(r) && r.Current() == Current().(colNames := n)
    {
      r := Copy();
      r.colNames := n;
    }

    method SkipRows(n: int) returns (r: DataFrameReader)
      ensures fresh(r) && r.Current() == Current().(skipRows := n)
    {
      r := Copy();
      r.skipRows := n;
    }

    method IndexCols(n: int) returns (r: DataFrameReader)
      ensures fresh(r) && r.Current() == Current().(indexCols := n)
    {
      r := Copy();
      r.indexCols := n;
    }

    method IgnoreRows(rows: seq<int>) returns (r: DataFrameReader)
      ensures fresh(r) && r.Current() == Current().(ignoreRows := set i | i in rows)
    {
      r := Copy();
      r.ignoreRows := set i | i in rows;
    }

    method Sep(newSep: string) returns (r: DataFrameReader)
      ensures fresh(r) && r.Current() == Current().(sep := newSep)
    {
      r := Copy();
      r.sep := newSep;
    }

    method KeepDefaultNA(keep: bool) returns (r: DataFrameReader)
      ensures fresh(r) && r.Current() == Current().(keepDefaultNA := keep)
    {
      r := Copy();
      r.keepDefaultNA := keep;
    }

    /** `read(lines)`: the header is split once, then the body lines are
        visited in turn. */
    method Read(lines: seq<string>, p: Parsers) returns (r: Option<Frame>)
      ensures r == ReadLines(Current(), lines, p)
    {
      var s := Current();
      if !(0 <= s.skipRows < |lines|) {
        return None;
      }
      var columns := ColumnCount(s, lines);
      var body := Body(s, lines);
      var ok, index, data := ReadBody(s, body, columns, p);
      if !ok {
        return None;
      }
      var names := ColumnNames(s, lines);
      r := Some(Construct("", data, if |index| > 0 then FromList(index) else FromNone,
                          if |names| > 0 then FromList(AsCells(names)) else FromNone));
    }
  }

  /** The `forEach` of `read` over the body lines: ignored and empty lines are
      skipped, every other line pushes its first token to the index (with an
      index column) and its row to the data. Building a row for a negative
      column count fails. */
  method ReadBody(s: Settings, body: seq<string>, columns: int, p: Parsers)
    returns (ok: bool, index: seq<Cell>, data: seq<seq<Cell>>)
    ensures var kept := IndicesWhere(|body|, Keep(s, body));
      var cols: nat := if columns < 0 then 0 else columns;
      (ok <==> columns >= 0 || |kept| == 0) &&
      (ok ==> data == RowsOf(s, body, kept, cols, p) &&
              index == if s.indexCols > 0 then NamesOf(s, body, kept) else [])
  {
    var keep := Keep(s, body);
    var cols: nat := if columns < 0 then 0 else columns;
    index, data := [], [];
    ghost var kept: seq<nat> := [];
    for li := 0 to |body|
      invariant kept == IndicesWhere(li, keep)
      invariant forall k :: 0 <= k < |kept| ==> kept[k] < |body|
      invariant columns < 0 ==> kept == []
      invariant data == RowsOf(s, body, kept, cols, p)
      invariant index == if s.indexCols > 0 then NamesOf(s, body, kept) else []
    {
      var tokens := Tokens(s, body[li]);
      if li !in s.ignoreRows && |tokens| > 0 {
        assert keep(li);
        if columns < 0 {
          KeptNonEmpty(|body|, keep, li);
          return false, index, data;
        }
        KeptAppend(s, body, kept, li, cols, p);
        if s.indexCols > 0 {
          index := index + [Str(tokens[0])];
        }
        var cells := FillRow(SliceFrom(tokens, s.indexCols), cols, DefaultCell(s, p), s.keepDefaultNA, p);
        data := data + [cells];
        kept := kept + [li];
      } else {
        KeptSkip(keep, li);
      }
    }
    ok := true;
  }

  /** A line that is not kept leaves the kept list as it was. */
  lemma KeptSkip(keep: nat -> bool, li: nat)
    requires !keep(li)
    ensures IndicesWhere(li + 1, keep) == IndicesWhere(li, keep)
  {
  }

  /** A kept line extends the kept list, the rows and the index by one. */
  lemma KeptAppend(s: Settings, body: seq<string>, kept: seq<nat>, li: nat, cols: nat, p: Parsers)
    requires kept == IndicesWhere(li, Keep(s, body)) && Keep(s, body)(li)
    requires forall k :: 0 <= k < |kept| ==> kept[k] < |body|
    requires li < |body|
    ensures IndicesWhere(li + 1, Keep(s, body)) == kept + [li]
    ensures RowsOf(s, body, kept + [li], cols, p) == RowsOf(s, body, kept, cols, p) + [LineRow(s, body, li, cols, p)]
    ensures NamesOf(s, body, kept + [li]) == NamesOf(s, body, kept) + [LineName(s, body, li)]
    ensures var t := Tokens(s, body[li]); LineName(s, body, li) == Str(t[0])
  {
  }

  /** A kept line below `n` makes the kept list up to `n` non-empty, and so
      the whole list. */
  lemma KeptNonEmpty(n: nat, p: nat -> bool, li: nat)
    requires li < n && p(li)
    ensures |IndicesWhere(n, p)| > 0
  {
  }

  /** The row of one line: `columns` default cells, then each token written
      over the cell at its position. */
  method FillRow(tokens: seq<string>, columns: nat, default: Cell, keepNA: bool, p: Parsers)
    returns (cells: seq<Cell>)
    ensures cells == RowCells(tokens, columns, default, keepNA, p)
  {
    cells := seq(columns, _ => default);
    for ti := 0 to |tokens|
      invariant |cells| == if ti > columns then ti else columns
      invariant forall k :: 0 <= k < ti ==> cells[k] == MakeCell(Str(tokens[k]), keepNA, p)
      invariant forall k :: ti <= k < |cells| ==> cells[k] == default
    {
      if ti < |cells| {
        cells := cells[ti := MakeCell(Str(tokens[ti]), keepNA, p)];
      } else {
        cells := cells + [MakeCell(Str(tokens[ti]), keepNA, p)];
      }
    }
  }
}
