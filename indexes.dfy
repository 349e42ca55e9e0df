/** Row and column indexes of a table (src/lib/dataframe/index.ts): the base
    index, which holds nothing, an index that only knows its length, the
    unbounded numeric index 1, 2, 3, … used for rows by default, the
    unbounded Excel index A, B, C, … used for columns by default, and the
    index that stores one value per position. */
module Indexes {
  import opened Wrappers
  import opened Cell
  import opened Strs
  import opened Seqs

  /** `Data` stands for the value-holding index of data-index.ts, which is not
      part of this model: it is taken to be the list of its values. */
  datatype Index = Base | Iter(length: nat) | InfNum | InfExcel | Data(values: seq<Cell>)

  /** The `values` getter: only a value-holding index stores any. */
  function Values(ix: Index): (r: seq<Cell>)
    ensures !ix.Data? ==> r == []
  {
    if ix.Data? then ix.values else []
  }

  /** `size`: the length of a length-only index, the number of stored values
      otherwise (zero for the unbounded indexes, whose size getter is
      inherited and not part of this model). */
  function Size(ix: Index): (r: nat)
    ensures ix.Iter? ==> r == ix.length
    ensures !ix.Iter? ==> r == |Values(ix)|
  {
    if ix.Iter? then ix.length else |Values(ix)|
  }

  /** `get(i)`: NaN for the base and length-only indexes, i + 1 for the
      numeric index, the Excel name of i for the Excel index. */
  function Get(ix: Index, i: nat): (r: Cell)
    ensures (ix.Base? || ix.Iter?) ==> r == Num(NaN)
    ensures ix.InfNum? ==> r.Num? && IsInteger(r.n) && r.n.v == (i + 1) as real
    ensures ix.InfExcel? ==> r.Str? && IsUpperName(r.s) && ExcelValue(r.s) == i + 1
    ensures ix.Data? && i < |ix.values| ==> r == ix.values[i]
  {
    match ix
    case Base => Num(NaN)
    case Iter(_) => Num(NaN)
    case InfNum => Num(Finite((i + 1) as real))
    case InfExcel => ExcelNameValue(i); Str(ExcelName(i))
    case Data(vs) => if i < |vs| then vs[i] else Null
  }

  /** `getName(i)`: the text of `get(i)`. */
  function GetName(ix: Index, i: nat, f: Formats): (r: string)
    ensures ix.InfNum? && (i + 1) as real < PLAIN_LIMIT ==> ParseInt(r) == Some(i + 1)
    ensures ix.InfExcel? ==> r == ExcelName(i)
    ensures ix.Base? || ix.Iter? ==> r == "NaN"
  {
    ToText(Get(ix, i), f)
  }

  /** Distinct rows of the numeric index have distinct names (a JavaScript
      array has fewer than 2^32 rows, far below where numbers print in
      exponent form). */
  lemma NumNamesDistinct(i: nat, j: nat, f: Formats)
    requires i != j && (i + 1) as real < PLAIN_LIMIT && (j + 1) as real < PLAIN_LIMIT
    ensures GetName(InfNum, i, f) != GetName(InfNum, j, f)
  {
  }

  /** `strs`: every stored value printed by `cellStr`. */
  function Texts(ix: Index, f: Formats): (r: seq<string>)
    ensures |r| == |Values(ix)|
    ensures forall k :: 0 <= k < |r| ==> r[k] == CellStr(Values(ix)[k], DEFAULT_DP, DEFAULT_VALUE, f)
  {
    var vs := Values(ix);
    seq(|vs|, k requires 0 <= k < |vs| => CellStr(vs[k], DEFAULT_DP, DEFAULT_VALUE, f))
  }

  /** `filter(idx)`: the other indexes return themselves; a value-holding
      index keeps the values at the listed positions, in list order. */
  function Filter(ix: Index, idx: seq<int>): (r: Index)
    ensures !ix.Data? ==> r == ix
    ensures ix.Data? ==> r.Data? && |r.values| == |idx|
    ensures ix.Data? ==> forall k :: 0 <= k < |idx| && 0 <= idx[k] < |ix.values| ==>
              r.values[k] == ix.values[idx[k]]
  {
    if !ix.Data? then ix
    else Data(seq(|idx|, k requires 0 <= k < |idx| =>
                   if 0 <= idx[k] < |ix.values| then ix.values[idx[k]] else Null))
  }

  /** `find(s)`: nothing for the indexes without stored values; the positions
      whose value reads as `s` for a value-holding index. */
  function Find(ix: Index, s: string, f: Formats): (r: seq<nat>)
    ensures !ix.Data? ==> r == []
    ensures forall k :: 0 <= k < |r| ==> r[k] < |Values(ix)|
    ensures Increasing(r)
  {
    if !ix.Data? then []
    else
      var vs := ix.values;
      IndicesWhere(|vs|, i => 0 <= i < |vs| && ToText(vs[i], f) == s)
  }
}
