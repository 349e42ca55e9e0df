/** The order `Array.prototype.sort` uses when it is given no comparator:
    elements are compared by their string form, character by character,
    and the sort is stable. Several modules sort this way (sorted map
    keys in src/modules/genomic/overlap.ts, index arrays in
    src/lib/math/hcluster.ts, motif indices in motifs-provider.tsx). */
module StrOrder {
  import opened Seqs

  /** `a <= b` on strings: lexicographic by Unicode scalar value, a proper
      prefix coming first. JavaScript compares UTF-16 code units instead;
      the two orders differ only between characters above U+FFFF and those
      from U+E000 to U+FFFF. */
  predicate LexLe(a: string, b: string)
    decreases |a|
  {
    if a == [] then true
    else if b == [] then false
    else if a[0] != b[0] then a[0] < b[0]
    else LexLe(a[1..], b[1..])
  }

  lemma {:induction false} LexLeRefl(a: string)
    ensures LexLe(a, a)
    decreases |a|
  {
    if a != [] {
      LexLeRefl(a[1..]);
    }
  }

  lemma {:induction false} LexLeTotal(a: string, b: string)
    ensures LexLe(a, b) || LexLe(b, a)
    decreases |a|
  {
    if a != [] && b != [] && a[0] == b[0] {
      LexLeTotal(a[1..], b[1..]);
    }
  }

  lemma {:induction false} LexLeTrans(a: string, b: string, c: string)
    requires LexLe(a, b) && LexLe(b, c)
    ensures LexLe(a, c)
    decreases |a|
  {
    if a != [] && b != [] && c != [] && a[0] == b[0] && b[0] == c[0] {
      LexLeTrans(a[1..], b[1..], c[1..]);
    }
  }

  lemma {:induction false} LexLeAntisym(a: string, b: string)
    requires LexLe(a, b) && LexLe(b, a)
    ensures a == b
    decreases |a|
  {
    if a != [] && b != [] {
      LexLeAntisym(a[1..], b[1..]);
      assert a == [a[0]] + a[1..] && b == [b[0]] + b[1..];
    }
  }

  /** The keys of s appear in non-decreasing string order. */
  predicate SortedBy<T>(s: seq<T>, key: T -> string) {
    forall i, j :: 0 <= i < j < |s| ==> LexLe(key(s[i]), key(s[j]))
  }

  /** x put before the first element whose key is not smaller. */
  function InsertBy<T>(x: T, s: seq<T>, key: T -> string): (r: seq<T>)
    ensures |r| == |s| + 1
  {
    if s == [] then [x]
    else if LexLe(key(x), key(s[0])) then [x] + s
    else [s[0]] + InsertBy(x, s[1..], key)
  }

  /** The stable sort of s by the string form `key`. */
  function SortBy<T>(s: seq<T>, key: T -> string): (r: seq<T>)
    ensures |r| == |s|
  {
    if s == [] then [] else InsertBy(s[0], SortBy(s[1..], key), key)
  }

  lemma {:induction false} InsertByElements<T>(x: T, s: seq<T>, key: T -> string)
    ensures multiset(InsertBy(x, s, key)) == multiset(s) + multiset{x}
  {
    if s != [] && !LexLe(key(x), key(s[0])) {
      InsertByElements(x, s[1..], key);
      assert s == [s[0]] + s[1..];
    }
  }

  lemma {:induction false} InsertBySorted<T>(x: T, s: seq<T>, key: T -> string)
    requires SortedBy(s, key)
    ensures SortedBy(InsertBy(x, s, key), key)
  {
    if s == [] {
    } else if LexLe(key(x), key(s[0])) {
      var r := [x] + s;
      forall i, j | 0 <= i < j < |r| ensures LexLe(key(r[i]), key(r[j])) {
        if i == 0 && j > 1 {
          LexLeTrans(key(x), key(s[0]), key(s[j - 1]));
        }
      }
    } else {
      LexLeTotal(key(x), key(s[0]));
      InsertBySorted(x, s[1..], key);
      InsertByElements(x, s[1..], key);
      var t := InsertBy(x, s[1..], key);
      var r := [s[0]] + t;
      forall j | 0 <= j < |t| ensures LexLe(key(s[0]), key(t[j])) {
        assert t[j] in multiset(t);
        assert t[j] in multiset(s[1..]) || t[j] == x;
        if t[j] != x {
          var k :| 0 <= k < |s[1..]| && s[1..][k] == t[j];
          assert s[k + 1] == t[j];
        }
      }
      forall i, j | 0 <= i < j < |r| ensures LexLe(key(r[i]), key(r[j])) {
        if i > 0 {
          assert r[i] == t[i - 1] && r[j] == t[j - 1];
        }
      }
    }
  }

  /** `SortBy` is sorted and rearranges exactly the elements of s. */
  lemma {:induction false} SortBySpec<T>(s: seq<T>, key: T -> string)
    ensures SortedBy(SortBy(s, key), key)
    ensures multiset(SortBy(s, key)) == multiset(s)
  {
    if s != [] {
      SortBySpec(s[1..], key);
      InsertBySorted(s[0], SortBy(s[1..], key), key);
      InsertByElements(s[0], SortBy(s[1..], key), key);
      assert s == [s[0]] + s[1..];
    }
  }

  /** Sorting fixes the order completely: two sorted arrangements of the
      same strings are equal. */
  lemma {:induction false} SortedUnique(a: seq<string>, b: seq<string>)
    requires SortedBy(a, Id) && SortedBy(b, Id) && multiset(a) == multiset(b)
    ensures a == b
    decreases |a|
  {
    assert |a| == |multiset(a)| == |multiset(b)| == |b|;
    if a != [] {
      SortedHeadFirst(a, b[0]);
      SortedHeadFirst(b, a[0]);
      LexLeAntisym(a[0], b[0]);
      SortedTail(a);
      SortedTail(b);
      MultisetTail(a);
      MultisetTail(b);
      SortedUnique(a[1..], b[1..]);
    }
  }

  lemma MultisetTail<T>(a: seq<T>)
    requires a != []
    ensures multiset(a[1..]) == multiset(a) - multiset{a[0]}
  {
    assert a == [a[0]] + a[1..];
  }

  lemma SortedHeadFirst(a: seq<string>, x: string)
    requires SortedBy(a, Id) && a != [] && x in multiset(a)
    ensures LexLe(a[0], x)
  {
    var j :| 0 <= j < |a| && a[j] == x;
    if j == 0 {
      LexLeRefl(x);
    } else {
      assert LexLe(Id(a[0]), Id(a[j]));
    }
  }

  lemma SortedTail(a: seq<string>)
    requires SortedBy(a, Id) && a != []
    ensures SortedBy(a[1..], Id)
  {
    forall i, j | 0 <= i < j < |a| - 1 ensures LexLe(Id(a[1..][i]), Id(a[1..][j])) {
      assert a[1..][i] == a[i + 1] && a[1..][j] == a[j + 1];
    }
  }

  function Id(s: string): string { s }

  /** `Array.from(keys).sort()` for string keys. */
  function SortStrings(s: seq<string>): (r: seq<string>)
    ensures |r| == |s|
  {
    SortBy(s, Id)
  }

  /** Sorting a list of distinct keys gives a sorted list of the same
      distinct keys. */
  lemma SortedKeys(keys: seq<string>)
    requires NoDups(keys)
    ensures SortedBy(SortStrings(keys), Id) && NoDups(SortStrings(keys))
    ensures forall k :: k in SortStrings(keys) <==> k in keys
  {
    var ks := SortStrings(keys);
    SortBySpec(keys, Id);
    forall k ensures k in ks <==> k in keys {
      assert k in ks <==> k in multiset(ks);
      assert k in keys <==> k in multiset(keys);
    }
    forall i, j | 0 <= i < j < |ks| ensures ks[i] != ks[j] {
      if ks[i] == ks[j] {
        CountNoDups(keys, ks[i]);
        MultisetCount(keys, ks, ks[i]);
        CountTwo(ks, i, j);
      }
    }
  }

  /** Equal multisets count every element alike. */
  lemma MultisetCount(a: seq<string>, b: seq<string>, x: string)
    requires multiset(a) == multiset(b)
    ensures Count(a, x) == Count(b, x)
  {
    CountMultiset(a, x);
    CountMultiset(b, x);
  }

  lemma {:induction false} CountMultiset(a: seq<string>, x: string)
    ensures Count(a, x) == multiset(a)[x]
  {
    if a != [] {
      var init := a[..|a| - 1];
      CountMultiset(init, x);
      assert a == init + [a[|a| - 1]];
    }
  }

  /** An element at two positions is counted twice. */
  lemma {:induction false} CountTwo(s: seq<string>, i: int, j: int)
    requires 0 <= i < j < |s| && s[i] == s[j]
    ensures Count(s, s[i]) >= 2
  {
    var init := s[..|s| - 1];
    assert init[i] == s[i];
    if j < |s| - 1 {
      assert init[j] == s[j];
      CountTwo(init, i, j);
    } else {
      assert s[i] in init;
    }
  }
}
