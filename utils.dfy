/** General helpers (src/lib/utils.ts): moving an array element, zipping
    columns into rows, the string test and random-suffix ids. */
module Utils {
  import opened Wrappers
  import opened Seqs

  // ------------------------------------------------------------ move

  /** The array without the element at `m`, built from two slices. */
  function Without<T>(a: seq<T>, m: int): (r: seq<T>)
    ensures 0 <= m < |a| ==> r == a[..m] + a[m + 1..]
  {
    Slice(a, 0, m) + Slice(a, m + 1, |a|)
  }

  /** `move(array, moveIndex, toIndex)`: take the element out and insert it
      before position `toIndex` of what is left; `missing` stands for the
      `undefined` read at an invalid `moveIndex`. */
  function Move<T>(a: seq<T>, m: int, t: int, missing: T): seq<T> {
    var rest := Without(a, m);
    Slice(rest, 0, t) + [if 0 <= m < |a| then a[m] else missing] + Slice(rest, t, |rest|)
  }

  /** For valid positions, `move` keeps the length, puts the moved element
      at `toIndex`, and keeps every other element in its relative order. */
  lemma MovePlaces<T>(a: seq<T>, m: int, t: int, missing: T)
    requires 0 <= m < |a| && 0 <= t < |a|
    ensures var r := Move(a, m, t, missing);
      |r| == |a| && r[t] == a[m] &&
      r[..t] + r[t + 1..] == a[..m] + a[m + 1..]
  {
    var rest := a[..m] + a[m + 1..];
    MoveSplices(a, m, t, missing);
    InsertPieces(rest, a[m], t, Move(a, m, t, missing));
  }

  /** For valid positions `move` is the rest of the array with the element
      inserted at `toIndex`. */
  lemma MoveSplices<T>(a: seq<T>, m: int, t: int, missing: T)
    requires 0 <= m < |a| && 0 <= t < |a|
    ensures var rest := a[..m] + a[m + 1..];
      Move(a, m, t, missing) == rest[..t] + [a[m]] + rest[t..]
  {
  }

  /** Inserting x at t: the length grows by one, x is at t, and removing it
      gives back the sequence. */
  lemma InsertPieces<T>(rest: seq<T>, x: T, t: int, r: seq<T>)
    requires 0 <= t <= |rest| && r == rest[..t] + [x] + rest[t..]
    ensures |r| == |rest| + 1 && r[t] == x && r[..t] + r[t + 1..] == rest
  {
    assert r[..t] == rest[..t];
    assert r[t + 1..] == rest[t..];
    assert rest[..t] + rest[t..] == rest;
  }

  /** `move` is a permutation. */
  lemma MovePermutes<T>(a: seq<T>, m: int, t: int, missing: T)
    requires 0 <= m < |a| && 0 <= t < |a|
    ensures multiset(Move(a, m, t, missing)) == multiset(a)
  {
    var rest := a[..m] + a[m + 1..];
    MoveSplices(a, m, t, missing);
    InsertMultiset(rest, a[m], t, Move(a, m, t, missing));
    RemovePieces(a, m, rest);
    InsertMultiset(rest, a[m], m, a);
  }

  /** Removing the element at m and inserting it again at m gives back the
      array. */
  lemma RemovePieces<T>(a: seq<T>, m: int, rest: seq<T>)
    requires 0 <= m < |a| && rest == a[..m] + a[m + 1..]
    ensures rest[..m] == a[..m] && rest[m..] == a[m + 1..]
    ensures a == rest[..m] + [a[m]] + rest[m..]
  {
    assert rest[..m] == a[..m];
    assert rest[m..] == a[m + 1..];
  }

  /** Inserting x anywhere adds one x to the multiset. */
  lemma InsertMultiset<T>(rest: seq<T>, x: T, t: int, r: seq<T>)
    requires 0 <= t <= |rest| && r == rest[..t] + [x] + rest[t..]
    ensures multiset(r) == multiset(rest) + multiset{x}
  {
    assert rest == rest[..t] + rest[t..];
  }

  /** Moving an element to where it already is changes nothing. */
  lemma MoveInPlace<T>(a: seq<T>, m: int, missing: T)
    requires 0 <= m < |a|
    ensures Move(a, m, m, missing) == a
  {
    var rest := a[..m] + a[m + 1..];
    MoveSplices(a, m, m, missing);
    RemovePieces(a, m, rest);
  }

  // ------------------------------------------------------------ zip

  /** `zip(...cols)`: one row per element of the first column, holding the
      i-th element of every column (`missing` where a column is shorter); a
      call without columns fails on `cols[0]`. */
  function Zip<T>(cols: seq<seq<T>>, missing: T): (r: Option<seq<seq<T>>>)
    ensures r.None? <==> |cols| == 0
    ensures r.Some? ==> |r.value| == |cols[0]|
    ensures r.Some? ==> forall i :: 0 <= i < |r.value| ==> |r.value[i]| == |cols|
    ensures r.Some? ==> forall i, j :: 0 <= i < |r.value| && 0 <= j < |cols| && i < |cols[j]| ==>
              r.value[i][j] == cols[j][i]
  {
    if |cols| == 0 then None
    else Some(seq(|cols[0]|, i requires 0 <= i < |cols[0]| =>
                seq(|cols|, j requires 0 <= j < |cols| => if i < |cols[j]| then cols[j][i] else missing)))
  }

  /** Zipping columns of equal, non-zero length twice gives them back. */
  lemma ZipTwice<T>(cols: seq<seq<T>>, missing: T)
    requires |cols| > 0 && |cols[0]| > 0
    requires forall j :: 0 <= j < |cols| ==> |cols[j]| == |cols[0]|
    ensures Zip(cols, missing).Some? && Zip(Zip(cols, missing).value, missing) == Some(cols)
  {
    var z := Zip(cols, missing).value;
    var zz := Zip(z, missing).value;
    assert |zz| == |cols|;
    forall j | 0 <= j < |cols| ensures zz[j] == cols[j] {
      forall i | 0 <= i < |cols[j]| ensures zz[j][i] == cols[j][i] {
        assert zz[j][i] == z[i][j];
      }
    }
    assert zz == cols;
  }

  // ------------------------------------------------------------ ids

  /** The alphabet and length of the random ids. */
  const NANOID_ALPHABET := "0123456789abcdefghijklmnopqrstuvwxyz"
  const NANOID_LENGTH := 12

  /** What `nanoid()` produces: 12 characters over [0-9a-z]. The ids
      themselves are random and come in as parameters. */
  predicate IsNanoId(s: string) {
    |s| == NANOID_LENGTH && forall i :: 0 <= i < |s| ==> s[i] in NANOID_ALPHABET
  }

  /** `makeRandId(prefix)` with the random id `id`. */
  function MakeRandId(prefix: string, id: string): (r: string)
    requires IsNanoId(id)
    ensures |r| == |prefix| + 1 + NANOID_LENGTH
    ensures r[..|prefix|] == prefix && r[|prefix|] == ':'
    ensures IsNanoId(r[|prefix| + 1..]) && ':' !in r[|prefix| + 1..]
  {
    assert ':' !in NANOID_ALPHABET;
    prefix + ":" + id
  }

  /** `isStr`: whether a value is a string. */
  datatype Value = StrValue(s: string) | OtherValue

  predicate IsStr(x: Value) {
    x.StrValue?
  }
}
