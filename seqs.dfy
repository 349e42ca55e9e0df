/** Array helpers shared by the model: `range(a, b)` from the application's
    math library, the ascending list of indices below a bound that satisfy a
    test (what a `for` loop that pushes matching indices builds), sums and
    order predicates. */
module Seqs {

  /** `range(a, b)`: a, a+1, …, b-1; empty when b <= a. */
  function Range(a: int, b: int): (r: seq<int>)
    ensures |r| == if b > a then b - a else 0
    ensures forall k :: 0 <= k < |r| ==> r[k] == a + k
    ensures forall x :: x in r <==> a <= x < b
    decreases b - a
  {
    if b <= a then [] else [a] + Range(a + 1, b)
  }

  /** The indices below `n`, ascending, that satisfy `p`. */
  function IndicesWhere(n: nat, p: nat -> bool): (r: seq<nat>)
    ensures forall k :: 0 <= k < |r| ==> r[k] < n && p(r[k])
    ensures forall i :: 0 <= i < n && p(i) ==> i in r
    ensures Increasing(r)
  {
    if n == 0 then [] else IndicesWhere(n - 1, p) + (if p(n - 1) then [n - 1] else [])
  }

  /** The first position below n that satisfies p (the head of the
      `filter`ed positions), or -1 when there is none. */
  function FirstWhere(n: nat, p: nat -> bool): (r: int)
    ensures r == -1 <==> forall i :: 0 <= i < n ==> !p(i)
    ensures r != -1 ==> 0 <= r < n && p(r) && forall i :: 0 <= i < r ==> !p(i)
  {
    FirstFrom(0, n, p)
  }

  function FirstFrom(k: nat, n: nat, p: nat -> bool): (r: int)
    ensures r == -1 <==> forall i :: k <= i < n ==> !p(i)
    ensures r != -1 ==> k <= r < n && p(r) && forall i :: k <= i < r ==> !p(i)
    decreases n - k
  {
    if k >= n then -1 else if p(k) then k else FirstFrom(k + 1, n, p)
  }

  /** A non-empty sequence holds its first element. */
  lemma HeadIn(s: seq<int>)
    ensures |s| > 0 ==> s[0] in s
  {
  }

  predicate Increasing(s: seq<int>) {
    forall i, j :: 0 <= i < j < |s| ==> s[i] < s[j]
  }

  function Sum(s: seq<int>): int {
    if s == [] then 0 else Sum(s[..|s| - 1]) + s[|s| - 1]
  }

  lemma SumAppend(s: seq<int>, x: int)
    ensures Sum(s + [x]) == Sum(s) + x
  {
    assert (s + [x])[..|s|] == s;
  }

  lemma {:induction false} SumConcat(a: seq<int>, b: seq<int>)
    ensures Sum(a + b) == Sum(a) + Sum(b)
    decreases |b|
  {
    if b != [] {
      var b' := b[..|b| - 1];
      SumConcat(a, b');
      assert (a + b)[..|a + b| - 1] == a + b';
    } else {
      assert a + b == a;
    }
  }

  predicate NonIncreasing(s: seq<int>) {
    forall i, j :: 0 <= i < j < |s| ==> s[i] >= s[j]
  }

  /** `p` lists 0..n-1, each exactly once. */
  predicate IsPermutation(p: seq<int>, n: nat) {
    |p| == n && (forall k :: 0 <= k < n ==> 0 <= p[k] < n) &&
    (forall i, j :: 0 <= i < j < n ==> p[i] != p[j])
  }

  /** A JavaScript `slice` bound: a negative one counts from the end; both
      are clamped to [0, n]. */
  function SliceBound(x: int, n: nat): (r: nat)
    ensures r <= n
    ensures 0 <= x <= n ==> r == x
  {
    if x < 0 then (if n + x > 0 then n + x else 0) else if x < n then x else n
  }

  /** `s.slice(start)`. */
  function SliceFrom<T>(s: seq<T>, start: int): (r: seq<T>)
    ensures 0 <= start <= |s| ==> r == s[start..]
    ensures start >= |s| ==> r == []
  {
    s[SliceBound(start, |s|)..]
  }

  /** `s.slice(start, end)`. */
  function Slice<T>(s: seq<T>, start: int, end: int): (r: seq<T>)
    ensures 0 <= start <= end <= |s| ==> r == s[start..end]
    ensures |r| <= |s|
  {
    var lo, hi := SliceBound(start, |s|), SliceBound(end, |s|);
    if lo < hi then s[lo..hi] else []
  }

  /** `ss.flat()`: the lists one after another. */
  function Concat<T>(ss: seq<seq<T>>): seq<T> {
    if ss == [] then [] else Concat(ss[..|ss| - 1]) + ss[|ss| - 1]
  }

  /** The number of times `x` occurs in `s`. */
  function Count<T(==)>(s: seq<T>, x: T): (r: nat)
    ensures r <= |s|
    ensures r > 0 <==> x in s
  {
    if s == [] then 0 else Count(s[..|s| - 1], x) + (if s[|s| - 1] == x then 1 else 0)
  }

  lemma {:induction false} CountAppend<T>(a: seq<T>, b: seq<T>, x: T)
    ensures Count(a + b, x) == Count(a, x) + Count(b, x)
    decreases |b|
  {
    if b == [] {
      assert a + b == a;
    } else {
      CountAppend(a, b[..|b| - 1], x);
      assert (a + b)[..|a + b| - 1] == a + b[..|b| - 1];
    }
  }

  predicate NoDups<T(==)>(s: seq<T>) {
    forall i, j :: 0 <= i < j < |s| ==> s[i] != s[j]
  }

  lemma {:induction false} CountNoDups<T>(s: seq<T>, x: T)
    requires NoDups(s)
    ensures Count(s, x) == if x in s then 1 else 0
  {
    if s != [] {
      var p := s[..|s| - 1];
      CountNoDups(p, x);
      if s[|s| - 1] == x {
        assert x !in p by {
          forall i | 0 <= i < |p| ensures p[i] != x {
            assert s[i] != s[|s| - 1];
          }
        }
      } else {
        assert s == p + [s[|s| - 1]];
        assert x in s ==> x in p;
      }
    }
  }
}
