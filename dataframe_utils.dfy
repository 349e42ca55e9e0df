/** Table utilities (src/lib/dataframe/dataframe-utils.ts): missing-value
    filtering, subsets, column and row look-up by id, joins of several tables
    on their shared names, and the GCT layout. */
module DataFrameUtils {
  import opened Wrappers
  import opened Cell
  import opened Strs
  import opened Seqs
  import opened Indexes
  import opened BaseFrames
  import opened DataFrames
  import Utils

  // ------------------------------------------------------------ values

  /** `filterNA`: the positions whose value is not a NaN number. */
  function FilterNA(data: seq<Cell>): (r: seq<nat>)
    ensures Increasing(r)
    ensures forall i: nat :: i in r <==> i < |data| && data[i] != Num(NaN)
  {
    IndicesWhere(|data|, (i: nat) => i < |data| && data[i] != Num(NaN))
  }

  /** `subset`: the values at the given positions (empty where there is
      none). */
  function Subset(data: seq<Cell>, idx: seq<int>): (r: seq<Cell>)
    ensures |r| == |idx|
    ensures forall k :: 0 <= k < |idx| && 0 <= idx[k] < |data| ==> r[k] == data[idx[k]]
  {
    seq(|idx|, k requires 0 <= k < |idx| => CellOrNull(data, idx[k]))
  }

  /** `subset` of the `filterNA` positions keeps exactly the values that are
      not NaN, in order. */
  lemma SubsetFilterNA(data: seq<Cell>)
    ensures forall k :: 0 <= k < |Subset(data, FilterNA(data))| ==>
              Subset(data, FilterNA(data))[k] != Num(NaN)
  {
  }

  /** `zip` of table columns: the shared definition, with empty cells where
      a column is short. */
  function ZipCells(cols: seq<seq<Cell>>): Option<seq<seq<Cell>>> {
    Utils.Zip(cols, Null)
  }

  // ------------------------------------------------------------ finding columns

  /** `findCols`: the columns whose non-empty name contains `id`, both lower
      cased. */
  function FindCols(f: Frame, id: string, fmt: Formats): (r: seq<nat>)
    ensures Increasing(r)
    ensures forall c: nat :: c in r <==>
              c < Shape(f).1 && GetColName(f, c, fmt) != "" &&
              Contains(Lower(GetColName(f, c, fmt)), Lower(id))
  {
    IndicesWhere(Shape(f).1, (c: nat) => GetColName(f, c, fmt) != "" &&
                                         Contains(Lower(GetColName(f, c, fmt)), Lower(id)))
  }

  /** What `findCol` accepts: a column number, or ids to try in turn. */
  datatype ColId = ColNum(n: int) | ColIds(ids: seq<string>)

  /** The columns matched by each id, in the order of the ids. */
  function Candidates(f: Frame, ids: seq<string>, fmt: Formats): (r: seq<seq<nat>>)
    ensures |r| == |ids| && forall k :: 0 <= k < |ids| ==> r[k] == FindCols(f, ids[k], fmt)
  {
    seq(|ids|, k requires 0 <= k < |ids| => FindCols(f, ids[k], fmt))
  }

  /** The first element of the first non-empty list, or -1. */
  function FirstHit(cands: seq<seq<nat>>): (r: int)
    ensures r == -1 || exists k :: 0 <= k < |cands| && |cands[k]| > 0 && r == cands[k][0]
  {
    if cands == [] then -1
    else if |cands[0]| > 0 then cands[0][0]
    else
      var r := FirstHit(cands[1..]);
      assert r != -1 ==> exists k :: 1 <= k < |cands| && |cands[k]| > 0 && r == cands[k][0] by {
        if r != -1 {
          var k :| 0 <= k < |cands[1..]| && |cands[1..][k]| > 0 && r == cands[1..][k][0];
          assert cands[1..][k] == cands[k + 1];
        }
      }
      r
  }

  /** -1 exactly when every list is empty; otherwise the head of the first
      non-empty list. */
  lemma {:induction false} FirstHitMeaning(cands: seq<seq<nat>>)
    ensures FirstHit(cands) == -1 <==> forall k :: 0 <= k < |cands| ==> |cands[k]| == 0
    ensures FirstHit(cands) != -1 ==>
              exists k :: 0 <= k < |cands| && |cands[k]| > 0 &&
                (forall j :: 0 <= j < k ==> |cands[j]| == 0) && FirstHit(cands) == cands[k][0]
  {
    if cands != [] && |cands[0]| == 0 {
      var rest := cands[1..];
      FirstHitMeaning(rest);
      assert forall k :: 1 <= k < |cands| ==> cands[k] == rest[k - 1];
      if FirstHit(rest) != -1 {
        var k :| 0 <= k < |rest| && |rest[k]| > 0 &&
                 (forall j :: 0 <= j < k ==> |rest[j]| == 0) && FirstHit(rest) == rest[k][0];
        assert |cands[k + 1]| > 0;
      }
    } else if cands != [] {
      assert |cands[0]| > 0;
    }
  }

  /** The first column matched by the first id that matches any, or -1. */
  function FirstMatch(f: Frame, ids: seq<string>, fmt: Formats): (r: int)
    ensures r == -1 || 0 <= r < Shape(f).1
  {
    var cands := Candidates(f, ids, fmt);
    var r := FirstHit(cands);
    assert r != -1 ==> 0 <= r < Shape(f).1 by {
      if r != -1 {
        var k :| 0 <= k < |cands| && |cands[k]| > 0 && r == cands[k][0];
        assert r in FindCols(f, ids[k], fmt);
      }
    }
    r
  }

  /** `findCol` gives -1 exactly when no id matches a column, and otherwise
      the first column matched by the earliest matching id. */
  lemma FirstMatchMeaning(f: Frame, ids: seq<string>, fmt: Formats)
    ensures FirstMatch(f, ids, fmt) == -1 <==> forall k :: 0 <= k < |ids| ==> |FindCols(f, ids[k], fmt)| == 0
    ensures FirstMatch(f, ids, fmt) != -1 ==>
              exists k :: 0 <= k < |ids| && |FindCols(f, ids[k], fmt)| > 0 &&
                (forall j :: 0 <= j < k ==> |FindCols(f, ids[j], fmt)| == 0) &&
                FirstMatch(f, ids, fmt) == FindCols(f, ids[k], fmt)[0]
  {
    FirstHitMeaning(Candidates(f, ids, fmt));
  }

  /** `findCol`: a number is returned as given; otherwise the ids are tried
      in order and the loop stops at the first that matches. */
  method FindCol(f: Frame, id: ColId, fmt: Formats) returns (r: int)
    ensures id.ColNum? ==> r == id.n
    ensures id.ColIds? ==> r == FirstMatch(f, id.ids, fmt)
  {
    if id.ColNum? {
      return id.n;
    }
    var ids := id.ids;
    ghost var cands := Candidates(f, ids, fmt);
    r := -1;
    for k := 0 to |ids|
      invariant FirstHit(cands) == FirstHit(cands[k..])
    {
      var idx := FindCols(f, ids[k], fmt);
      if |idx| > 0 {
        return idx[0];
      }
      assert cands[k..][1..] == cands[k + 1..];
    }
    assert cands[|ids|..] == [];
  }

  // ------------------------------------------------------------ name maps

  /** JavaScript truthiness of a cell. */
  predicate Truthy(c: Cell) {
    match c
    case Num(n) => n != NaN && n != Finite(0.0)
    case Str(s) => s != ""
    case Bool(b) => b
    case Date(_) => true
    case Null => false
  }

  /** A name as a key: its text, lower-cased unless case matters. */
  function KeyOf(c: Cell, lower: bool, fmt: Formats): string {
    if lower then Lower(ToText(c, fmt)) else ToText(c, fmt)
  }

  /** An object filled by `ret[key] = i` for every position with a key, in
      order: a later position overwrites an earlier one with the same key. */
  function KeyMap(keys: seq<Option<string>>): (m: map<string, nat>)
    ensures |m| <= |keys|
  {
    if keys == [] then map[]
    else
      var m := KeyMap(keys[..|keys| - 1]);
      var i := |keys| - 1;
      if keys[i].Some? then m[keys[i].value := i] else m
  }

  /** Every key in the map maps to a position holding it, and no later
      position holds it again. */
  lemma {:induction false} KeyMapLast(keys: seq<Option<string>>, k: string)
    requires k in KeyMap(keys)
    ensures KeyMap(keys)[k] < |keys| && keys[KeyMap(keys)[k]] == Some(k)
    ensures forall j :: KeyMap(keys)[k] < j < |keys| ==> keys[j] != Some(k)
  {
    var p := keys[..|keys| - 1];
    var i := |keys| - 1;
    if keys[i] != Some(k) {
      KeyMapLast(p, k);
      assert KeyMap(keys)[k] == KeyMap(p)[k];
      assert forall j :: 0 <= j < |p| ==> keys[j] == p[j];
    }
  }

  /** Every key held somewhere in the list is in the map. */
  lemma {:induction false} KeyMapHas(keys: seq<Option<string>>, i: nat)
    requires i < |keys| && keys[i].Some?
    ensures keys[i].value in KeyMap(keys)
  {
    var p := keys[..|keys| - 1];
    if i < |keys| - 1 {
      assert p[i] == keys[i];
      KeyMapHas(p, i);
    }
  }

  lemma KeyMapSpec(keys: seq<Option<string>>)
    ensures var m := KeyMap(keys);
      forall k :: k in m ==> m[k] < |keys| && keys[m[k]] == Some(k)
    ensures var m := KeyMap(keys);
      forall k :: k in m ==> forall j :: m[k] < j < |keys| ==> keys[j] != Some(k)
    ensures forall i :: 0 <= i < |keys| && keys[i].Some? ==> keys[i].value in KeyMap(keys)
  {
    forall k | k in KeyMap(keys)
      ensures KeyMap(keys)[k] < |keys| && keys[KeyMap(keys)[k]] == Some(k)
      ensures forall j :: KeyMap(keys)[k] < j < |keys| ==> keys[j] != Some(k)
    {
      KeyMapLast(keys, k);
    }
    forall i | 0 <= i < |keys| && keys[i].Some? ensures keys[i].value in KeyMap(keys) {
      KeyMapHas(keys, i);
    }
  }

  function RowKeys(vs: seq<Cell>, lower: bool, fmt: Formats): (r: seq<Option<string>>)
    ensures |r| == |vs|
    ensures forall i :: 0 <= i < |vs| ==> r[i] == if Truthy(vs[i]) then Some(KeyOf(vs[i], lower, fmt)) else None
  {
    seq(|vs|, i requires 0 <= i < |vs| => if Truthy(vs[i]) then Some(KeyOf(vs[i], lower, fmt)) else None)
  }

  /** `rowIdxMap`: each truthy row-index value's text (lower-cased on
      request) maps to the last row holding it. */
  method RowIdxMap(f: Frame, lower: bool, fmt: Formats) returns (m: map<string, nat>)
    ensures m == KeyMap(RowKeys(Values(f.index), lower, fmt))
  {
    var vs := Values(f.index);
    var keys := RowKeys(vs, lower, fmt);
    m := map[];
    for i := 0 to |vs|
      invariant m == KeyMap(keys[..i])
    {
      assert keys[..i + 1][..i] == keys[..i];
      if Truthy(vs[i]) {
        m := m[KeyOf(vs[i], lower, fmt) := i];
      }
    }
    assert keys[..|vs|] == keys;
  }

  /** The map of `rowIdxMap` sends a key exactly to the last truthy row
      whose text is that key. */
  lemma RowIdxMapMeaning(vs: seq<Cell>, lower: bool, fmt: Formats, key: string)
    ensures var m := KeyMap(RowKeys(vs, lower, fmt));
      (key in m ==> m[key] < |vs| && Truthy(vs[m[key]]) && KeyOf(vs[m[key]], lower, fmt) == key &&
                    forall j :: m[key] < j < |vs| && Truthy(vs[j]) ==> KeyOf(vs[j], lower, fmt) != key) &&
      (key !in m ==> forall i :: 0 <= i < |vs| && Truthy(vs[i]) ==> KeyOf(vs[i], lower, fmt) != key)
  {
    var keys := RowKeys(vs, lower, fmt);
    var m := KeyMap(keys);
    KeyMapSpec(keys);
    if key in m {
      forall j | m[key] < j < |vs| && Truthy(vs[j]) ensures KeyOf(vs[j], lower, fmt) != key {
        assert keys[j] != Some(key);
      }
    } else {
      forall i | 0 <= i < |vs| && Truthy(vs[i]) ensures KeyOf(vs[i], lower, fmt) != key {
        assert keys[i].Some?;
      }
    }
  }

  // ------------------------------------------------------------ filtering by id

  /** The matching options; all off by default. */
  datatype MatchOptions = MatchOptions(caseSensitive: bool, entireCell: bool, keepOrder: bool)

  const DEFAULT_MATCH_OPTIONS := MatchOptions(false, false, false)

  function AllKeys(names: seq<string>, lower: bool): (r: seq<Option<string>>)
    ensures |r| == |names|
    ensures forall i :: 0 <= i < |names| ==> r[i] == Some(if lower then Lower(names[i]) else names[i])
  {
    seq(|names|, i requires 0 <= i < |names| => Some(if lower then Lower(names[i]) else names[i]))
  }

  function IdKey(id: string, o: MatchOptions): string {
    if o.caseSensitive then id else Lower(id)
  }

  /** The positions of the known ids, in id order; unknown ids are dropped. */
  function Hits(ids: seq<string>, m: map<string, nat>, o: MatchOptions): (r: seq<nat>)
    ensures |r| <= |ids|
    ensures forall k :: 0 <= k < |r| ==> r[k] in m.Values
  {
    if ids == [] then []
    else
      var r := Hits(ids[..|ids| - 1], m, o);
      var key := IdKey(ids[|ids| - 1], o);
      if key in m then r + [m[key]] else r
  }

  /** Appending an unknown id changes nothing; a known one adds its
      position at the end. */
  lemma HitsOrder(ids: seq<string>, id: string, m: map<string, nat>, o: MatchOptions)
    ensures IdKey(id, o) !in m ==> Hits(ids + [id], m, o) == Hits(ids, m, o)
    ensures IdKey(id, o) in m ==> Hits(ids + [id], m, o) == Hits(ids, m, o) + [m[IdKey(id, o)]]
  {
    assert (ids + [id])[..|ids|] == ids;
  }

  /** When every id is known, the positions follow the ids one for one. */
  lemma {:induction false} HitsAllKnown(ids: seq<string>, m: map<string, nat>, o: MatchOptions)
    requires forall k :: 0 <= k < |ids| ==> IdKey(ids[k], o) in m
    ensures |Hits(ids, m, o)| == |ids|
    ensures forall k :: 0 <= k < |ids| ==> Hits(ids, m, o)[k] == m[IdKey(ids[k], o)]
  {
    if ids != [] {
      HitsAllKnown(ids[..|ids| - 1], m, o);
    }
  }

  /** Whether a name is selected without `keepOrder`: equal to one of the
      ids with `entireCell`, containing one otherwise. */
  predicate NameSelected(name: string, ids: seq<string>, o: MatchOptions) {
    var n := if o.caseSensitive then name else Lower(name);
    if o.entireCell then exists k :: 0 <= k < |ids| && IdKey(ids[k], o) == n
    else exists k :: 0 <= k < |ids| && Contains(n, IdKey(ids[k], o))
  }

  /** `filterRowsById`: with `keepOrder`, the rows named by the ids in id
      order; otherwise the rows, in table order, whose name is selected. */
  function RowsById(f: Frame, ids: seq<string>, o: MatchOptions, fmt: Formats): seq<nat> {
    if o.keepOrder then
      var vs := Values(f.index);
      var names := seq(|vs|, i requires 0 <= i < |vs| => ToText(vs[i], fmt));
      Hits(ids, KeyMap(AllKeys(names, !o.caseSensitive)), o)
    else IndicesWhere(Shape(f).0, (i: nat) => NameSelected(GetName(f.index, i, fmt), ids, o))
  }

  function FilterRowsById(f: Frame, ids: seq<string>, o: MatchOptions, fmt: Formats): Option<Frame> {
    Iloc(f, AtLocs(RowsById(f, ids, o, fmt)), [Sel(":")], fmt)
  }

  /** `filterColsById`: the same over the column names. */
  function ColsById(f: Frame, ids: seq<string>, o: MatchOptions, fmt: Formats): seq<nat> {
    if o.keepOrder then Hits(ids, KeyMap(AllKeys(ColNames(f, fmt), !o.caseSensitive)), o)
    else IndicesWhere(Shape(f).1, (i: nat) => NameSelected(GetColName(f, i, fmt), ids, o))
  }

  function FilterColsById(f: Frame, ids: seq<string>, o: MatchOptions, fmt: Formats): Option<Frame> {
    Iloc(f, [Sel(":")], AtLocs(ColsById(f, ids, o, fmt)), fmt)
  }

  /** Without `keepOrder`, the selected columns are exactly those whose name
      is selected, in table order, and the filtered table keeps every row. */
  lemma FilterColsMeaning(f: Frame, ids: seq<string>, o: MatchOptions, fmt: Formats)
    requires !o.keepOrder
    ensures Increasing(ColsById(f, ids, o, fmt))
    ensures forall c: nat :: c in ColsById(f, ids, o, fmt) <==>
              c < Shape(f).1 && NameSelected(GetColName(f, c, fmt), ids, o)
    ensures FilterColsById(f, ids, o, fmt).Some?
    ensures |FilterColsById(f, ids, o, fmt).value.data| == |f.data|
  {
    IlocAllRows(f, AtLocs(ColsById(f, ids, o, fmt)), fmt);
  }

  /** Selecting every row succeeds and keeps every row, whatever the columns. */
  lemma IlocAllRows(f: Frame, cols: seq<Loc>, fmt: Formats)
    ensures Iloc(f, [Sel(":")], cols, fmt).Some?
    ensures |Iloc(f, [Sel(":")], cols, fmt).value.data| == |f.data|
  {
    SelectAll(Shape(f).0, RowFinder(f, fmt));
    AllRows(f.data);
  }

  /** With `keepOrder` and every id a known row name, the filtered rows are
      the named rows in id order. */
  lemma FilterRowsKeepOrder(f: Frame, ids: seq<string>, o: MatchOptions, fmt: Formats)
    requires o.keepOrder
    requires var vs := Values(f.index);
             var names := seq(|vs|, i requires 0 <= i < |vs| => ToText(vs[i], fmt));
             forall k :: 0 <= k < |ids| ==> IdKey(ids[k], o) in KeyMap(AllKeys(names, !o.caseSensitive))
    ensures |RowsById(f, ids, o, fmt)| == |ids|
    ensures forall k :: 0 <= k < |ids| ==>
              var i := RowsById(f, ids, o, fmt)[k];
              i < |Values(f.index)| &&
              IdKey(ToText(Values(f.index)[i], fmt), o) == IdKey(ids[k], o)
  {
    var vs := Values(f.index);
    var names := seq(|vs|, i requires 0 <= i < |vs| => ToText(vs[i], fmt));
    var m := KeyMap(AllKeys(names, !o.caseSensitive));
    KeyMapSpec(AllKeys(names, !o.caseSensitive));
    HitsAllKnown(ids, m, o);
  }

  // ------------------------------------------------------------ joins

  /** The names counted once per occurrence in every list (the `countMap`
      loop), kept from the first list when their count equals the number of
      lists. */
  function SharedNames(lists: seq<seq<string>>): (r: seq<string>)
    requires |lists| > 0
    ensures forall k :: 0 <= k < |r| ==> r[k] in lists[0]
  {
    var all := Concat(lists);
    Filter(lists[0], (c: string) => Count(all, c) == |lists|)
  }

  function Filter(s: seq<string>, p: string -> bool): (r: seq<string>)
    ensures forall x :: x in r <==> x in s && p(x)
    ensures |r| <= |s|
  {
    if s == [] then [] else Filter(s[..|s| - 1], p) + (if p(s[|s| - 1]) then [s[|s| - 1]] else [])
  }

  /** `countMap` as the loop it is: one more for every occurrence. */
  method CountNames(names: seq<string>) returns (m: map<string, nat>)
    ensures forall x :: x in m <==> x in names
    ensures forall x :: x in m ==> m[x] == Count(names, x)
  {
    m := map[];
    for i := 0 to |names|
      invariant forall x :: x in m <==> x in names[..i]
      invariant forall x :: x in m ==> m[x] == Count(names[..i], x)
    {
      assert names[..i + 1][..i] == names[..i];
      var x := names[i];
      m := m[x := (if x in m then m[x] else 0) + 1];
    }
    assert names[..|names|] == names;
  }

  /** When no list repeats a name, the shared names are exactly those of the
      first list found in every list. */
  lemma SharedNamesMeaning(lists: seq<seq<string>>, c: string)
    requires |lists| > 0
    requires forall k :: 0 <= k < |lists| ==> NoDups(lists[k])
    ensures c in SharedNames(lists) <==> forall k :: 0 <= k < |lists| ==> c in lists[k]
  {
    CountEvery(lists, c);
  }

  lemma {:induction false} CountEvery(lists: seq<seq<string>>, c: string)
    requires forall k :: 0 <= k < |lists| ==> NoDups(lists[k])
    ensures Count(Concat(lists), c) <= |lists|
    ensures Count(Concat(lists), c) == |lists| <==> forall k :: 0 <= k < |lists| ==> c in lists[k]
  {
    if lists != [] {
      var p := lists[..|lists| - 1];
      var last := lists[|lists| - 1];
      CountEvery(p, c);
      CountAppend(Concat(p), last, c);
      CountNoDups(last, c);
      if c !in last {
        assert !(forall k :: 0 <= k < |lists| ==> c in lists[k]);
      }
      assert (forall k :: 0 <= k < |lists| ==> c in lists[k]) <==>
             (forall k :: 0 <= k < |p| ==> c in p[k]) && c in last;
    }
  }

  /** The position of each shared name in one table (its last occurrence);
      names the table lacks are skipped, as `iloc` skips `undefined`. */
  function NamePositions(names: seq<string>, shared: seq<string>): (r: seq<nat>)
    ensures forall k :: 0 <= k < |r| ==> r[k] < |names|
  {
    var m := KeyMap(AllKeys(names, false));
    KeyMapSpec(AllKeys(names, false));
    var r := Hits(shared, m, MatchOptions(true, false, false));
    assert forall k :: 0 <= k < |r| ==> r[k] < |names| by {
      forall k | 0 <= k < |r| ensures r[k] < |names| {
        var key :| key in m && m[key] == r[k];
      }
    }
    r
  }

  /** A table cut to some of its columns, keeping every row. */
  function KeepCols(f: Frame, cols: seq<nat>, fmt: Formats): (r: Frame)
    ensures r.data == Cells(f.data, Range(0, |f.data|), cols)
  {
    SelectAll(Shape(f).0, RowFinder(f, fmt));
    SelectAtLocs(cols, Shape(f).1, ColFinder(f, fmt));
    assert RowsExist(f.data, Range(0, |f.data|));
    Iloc(f, [Sel(":")], AtLocs(cols), fmt).value
  }

  /** A table cut to some of its rows, keeping every column. */
  function KeepRows(f: Frame, rows: seq<nat>, fmt: Formats): (r: Frame)
    requires forall k :: 0 <= k < |rows| ==> rows[k] < |f.data|
    ensures |r.data| == |rows|
  {
    SelectAtLocs(rows, Shape(f).0, RowFinder(f, fmt));
    Iloc(f, AtLocs(rows), [Sel(":")], fmt).value
  }

  /** `rowJoinDataFrames`: every table cut to the shared column names in the
      first table's order, then all rows stacked under the first table's
      cut column index, with the row indexes' values concatenated. A call
      without tables fails on the first table. */
  function RowJoin(frames: seq<Frame>, fmt: Formats): (r: Option<Frame>)
    ensures r.None? <==> |frames| == 0
  {
    if |frames| == 0 then None
    else
      var lists := ColNamesOf(frames, fmt);
      var shared := SharedNames(lists);
      var cut := seq(|frames|, k requires 0 <= k < |frames| =>
                     KeepCols(frames[k], NamePositions(lists[k], shared), fmt));
      var data := Concat(seq(|cut|, k requires 0 <= k < |cut| => cut[k].data));
      var values := Concat(seq(|cut|, k requires 0 <= k < |cut| => Values(cut[k].index)));
      Some(Construct("", data, FromIndex(Data(values)), FromIndex(cut[0].columns)))
  }

  /** The joined rows are all the rows of all tables, in order. */
  lemma RowJoinStacks(frames: seq<Frame>, fmt: Formats)
    requires |frames| > 0
    ensures |RowJoin(frames, fmt).value.data| ==
            Sum(seq(|frames|, k requires 0 <= k < |frames| => |frames[k].data|))
  {
    var lists := ColNamesOf(frames, fmt);
    var shared := SharedNames(lists);
    var cut := seq(|frames|, k requires 0 <= k < |frames| =>
                   KeepCols(frames[k], NamePositions(lists[k], shared), fmt));
    var datas := seq(|cut|, k requires 0 <= k < |cut| => cut[k].data);
    ConcatLength(datas, seq(|frames|, k requires 0 <= k < |frames| => |frames[k].data|));
  }

  lemma {:induction false} ConcatLength(datas: seq<seq<seq<Cell>>>, lens: seq<int>)
    requires |datas| == |lens| && forall k :: 0 <= k < |datas| ==> |datas[k]| == lens[k]
    ensures |Concat(datas)| == Sum(lens)
  {
    if datas != [] {
      ConcatLength(datas[..|datas| - 1], lens[..|lens| - 1]);
    }
  }

  /** The column names of every table. */
  function ColNamesOf(frames: seq<Frame>, fmt: Formats): (r: seq<seq<string>>)
    ensures |r| == |frames| && forall t :: 0 <= t < |frames| ==> r[t] == ColNames(frames[t], fmt)
  {
    seq(|frames|, t requires 0 <= t < |frames| => ColNames(frames[t], fmt))
  }

  /** The rows of the join come in blocks, one per table in order: row i of
      table k follows the rows of the tables before it and holds that row's
      cells at the positions of the shared column names. */
  lemma RowJoinBlocks(frames: seq<Frame>, fmt: Formats, k: nat, i: nat)
    requires k < |frames| && i < |frames[k].data|
    ensures var pos := NamePositions(ColNames(frames[k], fmt), SharedNames(ColNamesOf(frames, fmt)));
            var data := RowJoin(frames, fmt).value.data;
            RowsBefore(frames, k) + i < |data| && |data[RowsBefore(frames, k) + i]| == |pos| &&
            forall j :: 0 <= j < |pos| ==> data[RowsBefore(frames, k) + i][j] == CellOrNull(frames[k].data[i], pos[j])
  {
    var datas := RowJoinParts(frames, fmt);
    var pos := NamePositions(ColNames(frames[k], fmt), SharedNames(ColNamesOf(frames, fmt)));
    AllRows(frames[k].data);
    BlockRow(datas, frames, pos, k, i);
  }

  /** Every row of a table exists. */
  lemma AllRows(data: seq<seq<Cell>>)
    ensures RowsExist(data, Range(0, |data|))
  {
  }

  /** Row i of block k, when the blocks are the tables' rows cut to some
      columns. */
  lemma BlockRow(datas: seq<seq<seq<Cell>>>, frames: seq<Frame>, pos: seq<int>, k: nat, i: nat)
    requires |datas| == |frames| && k < |frames| && i < |frames[k].data|
    requires forall t :: 0 <= t < |frames| ==> |datas[t]| == |frames[t].data|
    requires RowsExist(frames[k].data, Range(0, |frames[k].data|))
    requires datas[k] == Cells(frames[k].data, Range(0, |frames[k].data|), pos)
    ensures RowsBefore(frames, k) + i < |Concat(datas)|
    ensures var r := Concat(datas)[RowsBefore(frames, k) + i];
            |r| == |pos| && forall j :: 0 <= j < |pos| ==> r[j] == CellOrNull(frames[k].data[i], pos[j])
  {
    ConcatAt(datas, k, i);
    CutRowsBefore(datas, frames, k);
    assert Range(0, |frames[k].data|)[i] == i;
  }

  /** The joined rows are the tables' rows cut to the shared columns, table
      after table. */
  lemma RowJoinParts(frames: seq<Frame>, fmt: Formats) returns (datas: seq<seq<seq<Cell>>>)
    requires |frames| > 0
    ensures RowJoin(frames, fmt).value.data == Concat(datas) && |datas| == |frames|
    ensures forall t :: 0 <= t < |frames| ==> |datas[t]| == |frames[t].data|
    ensures forall t :: 0 <= t < |frames| ==>
              datas[t] == KeepCols(frames[t], NamePositions(ColNames(frames[t], fmt), SharedNames(ColNamesOf(frames, fmt))), fmt).data
  {
    var lists := ColNamesOf(frames, fmt);
    var shared := SharedNames(lists);
    var cut := seq(|frames|, t requires 0 <= t < |frames| =>
                   KeepCols(frames[t], NamePositions(lists[t], shared), fmt));
    datas := seq(|cut|, t requires 0 <= t < |cut| => cut[t].data);
  }

  /** The number of rows of the tables before table k. */
  function RowsBefore(frames: seq<Frame>, k: nat): (r: nat)
    requires k <= |frames|
    ensures k > 0 ==> r >= |frames[k - 1].data|
  {
    if k == 0 then 0 else RowsBefore(frames, k - 1) + |frames[k - 1].data|
  }

  /** Blocks as long as the tables' row lists take RowsBefore rows before
      block k. */
  lemma {:induction false} CutRowsBefore(datas: seq<seq<seq<Cell>>>, frames: seq<Frame>, k: nat)
    requires |datas| == |frames| && k <= |frames|
    requires forall t :: 0 <= t < |frames| ==> |datas[t]| == |frames[t].data|
    ensures |Concat(datas[..k])| == RowsBefore(frames, k)
  {
    if k > 0 {
      CutRowsBefore(datas, frames, k - 1);
      assert datas[..k][..k - 1] == datas[..k - 1];
    }
  }

  /** Row i of block k of a concatenation follows the blocks before k. */
  lemma {:induction false} ConcatAt(blocks: seq<seq<seq<Cell>>>, k: nat, i: nat)
    requires k < |blocks| && i < |blocks[k]|
    ensures |Concat(blocks[..k])| + i < |Concat(blocks)| &&
            Concat(blocks)[|Concat(blocks[..k])| + i] == blocks[k][i]
  {
    var init := blocks[..|blocks| - 1];
    assert Concat(blocks) == Concat(init) + blocks[|blocks| - 1];
    if k == |blocks| - 1 {
      assert blocks[..k] == init;
    } else {
      ConcatAt(init, k, i);
      assert init[..k] == blocks[..k];
    }
  }

  /** `colJoinDataFrames`: every table cut to the shared row names in the
      first table's order, then row r of the result is row r of every table
      side by side (a missing row reads as one empty cell); the row index is
      the first table's, the column names all tables' names concatenated. */
  function ColJoin(frames: seq<Frame>, fmt: Formats): (r: Option<Frame>)
    ensures r.None? <==> |frames| == 0
  {
    if |frames| == 0 then None
    else
      var lists := seq(|frames|, k requires 0 <= k < |frames| => RowNames(frames[k], fmt));
      var shared := SharedNames(lists);
      var cut := seq(|frames|, k requires 0 <= k < |frames| =>
                     KeepRows(frames[k], NamePositions(lists[k], shared), fmt));
      var names := Concat(seq(|cut|, k requires 0 <= k < |cut| => ColNames(cut[k], fmt)));
      Some(Construct("", SideBySide(cut), FromIndex(cut[0].index), FromIndex(Data(AsNames(names)))))
  }

  /** Row r of every table, side by side, for each row of the first. */
  function SideBySide(cut: seq<Frame>): (r: seq<seq<Cell>>)
    requires |cut| > 0
    ensures |r| == |cut[0].data|
    ensures forall i :: 0 <= i < |r| ==>
              r[i] == Concat(seq(|cut|, k requires 0 <= k < |cut| =>
                               if i < |cut[k].data| then cut[k].data[i] else [Null]))
  {
    seq(|cut[0].data|, i requires 0 <= i < |cut[0].data| =>
      Concat(seq(|cut|, k requires 0 <= k < |cut| => if i < |cut[k].data| then cut[k].data[i] else [Null])))
  }

  /** When every table holds every shared row name, the joined table has one
      row per shared name. */
  lemma ColJoinRows(frames: seq<Frame>, fmt: Formats)
    requires |frames| > 0
    ensures var lists := seq(|frames|, k requires 0 <= k < |frames| => RowNames(frames[k], fmt));
      |ColJoin(frames, fmt).value.data| == |SharedNames(lists)|
  {
    var lists := seq(|frames|, k requires 0 <= k < |frames| => RowNames(frames[k], fmt));
    SharedInFirst(lists[0], SharedNames(lists));
  }

  function AsNames(names: seq<string>): (r: seq<Cell>)
    ensures |r| == |names|
  {
    seq(|names|, k requires 0 <= k < |names| => Str(names[k]))
  }

  /** Every shared name is found in the first table, so its cut keeps one
      row per shared name. */
  lemma SharedInFirst(first: seq<string>, shared: seq<string>)
    requires forall k :: 0 <= k < |shared| ==> shared[k] in first
    ensures |NamePositions(first, shared)| == |shared|
  {
    var m := KeyMap(AllKeys(first, false));
    KeyMapSpec(AllKeys(first, false));
    var o := MatchOptions(true, false, false);
    forall k | 0 <= k < |shared| ensures IdKey(shared[k], o) in m {
      var i :| 0 <= i < |first| && first[i] == shared[k];
      assert AllKeys(first, false)[i] == Some(shared[k]);
    }
    HitsAllKnown(shared, m, o);
  }

  // ------------------------------------------------------------ GCT

  function Blanks(n: nat): (r: seq<Cell>)
    ensures |r| == n && forall k :: 0 <= k < n ==> r[k] == Str("")
  {
    seq(n, _ => Str(""))
  }

  /** `makeGCT`: the version line, the counts line, the header of 'Name',
      'Description' and the column names, then every row prefixed twice by
      its row-index value. */
  function MakeGCT(f: Frame, fmt: Formats): (r: Frame)
    ensures r.name == "GCT" && |r.data| == 3 + |f.data|
    ensures r.data[0] == [Str("#1.2")] + Blanks(Shape(f).1 + 1)
    ensures r.data[1] == [Str(IntStr(Shape(f).0)), Str(IntStr(Shape(f).1))] + Blanks(Shape(f).1)
    ensures r.data[2] == [Str("Name"), Str("Description")] + AsNames(ColNames(f, fmt))
    ensures forall i :: 0 <= i < |f.data| ==>
              r.data[3 + i] == [Get(f.index, i), Get(f.index, i)] + f.data[i]
  {
    var s := Shape(f);
    var l1 := [Str("#1.2")] + Blanks(s.1 + 1);
    var l2 := [Str(IntStr(s.0)), Str(IntStr(s.1))] + Blanks(s.1);
    var l3 := [Str("Name"), Str("Description")] + AsNames(ColNames(f, fmt));
    var d := seq(|f.data|, i requires 0 <= i < |f.data| => [Get(f.index, i), Get(f.index, i)] + f.data[i]);
    Construct("GCT", [l1, l2, l3] + d, FromNone, FromNone)
  }

  /** The counts line of a GCT table reads back as the table's shape. */
  lemma GCTCounts(f: Frame, fmt: Formats)
    ensures ParseInt(MakeGCT(f, fmt).data[1][0].s) == Some(Shape(f).0)
    ensures ParseInt(MakeGCT(f, fmt).data[1][1].s) == Some(Shape(f).1)
  {
    ParseIntStr(Shape(f).0);
    ParseIntStr(Shape(f).1);
  }
}
