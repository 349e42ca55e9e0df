/** The per-residue statistics of a lollipop plot
    (`LollipopStats` in src/components/pages/modules/lollipop/lollipop-utils.ts):
    the residue's position and letter, and for every mutation type the set
    of samples carrying it there. The `_countMap` Map is the pair of the
    events in insertion order and the samples of each event. */
module LollipopStatistics {
  import opened Seqs
  import opened StrOrder
  import opened Strs


  /** The map after `set(event, sample)`: the event's set, created empty
      when missing, gains the sample. */
  function Recorded(m: map<string, set<string>>, event: string, sample: string): map<string, set<string>>
  {
    m[event := (if event in m then m[event] else {}) + {sample}]
  }

  /** Recording keeps every other event, and records each (event, sample)
      pair at most once: recording a pair that is already there changes
      nothing, so repeating a call changes nothing. */
  lemma RecordedOnce(m: map<string, set<string>>, event: string, sample: string)
    ensures Recorded(m, event, sample).Keys == m.Keys + {event}
    ensures Recorded(m, event, sample)[event] == (if event in m then m[event] else {}) + {sample}
    ensures forall e | e in m && e != event :: Recorded(m, event, sample)[e] == m[e]
    ensures event in m && sample in m[event] ==> Recorded(m, event, sample) == m
    ensures Recorded(Recorded(m, event, sample), event, sample) == Recorded(m, event, sample)
  {
    if event in m && sample in m[event] {
      assert m[event] + {sample} == m[event];
    }
  }

  /** The number of samples of event k; 0 for an event not seen. */
  function Size(m: map<string, set<string>>, k: string): nat {
    if k in m then |m[k]| else 0
  }

  /** The number of samples over the events ks. */
  function SizeSum(ks: seq<string>, m: map<string, set<string>>): nat {
    if ks == [] then 0 else SizeSum(ks[..|ks| - 1], m) + Size(m, ks[|ks| - 1])
  }

  lemma {:induction false} SizeSumConcat(a: seq<string>, b: seq<string>, m: map<string, set<string>>)
    ensures SizeSum(a + b, m) == SizeSum(a, m) + SizeSum(b, m)
    decreases |b|
  {
    if b == [] {
      assert a + b == a;
    } else {
      SizeSumConcat(a, b[..|b| - 1], m);
      assert (a + b)[..|a + b| - 1] == a + b[..|b| - 1];
    }
  }

  /** The total does not depend on the order of the events. */
  lemma {:induction false} SizeSumPerm(a: seq<string>, b: seq<string>, m: map<string, set<string>>)
    requires multiset(a) == multiset(b)
    ensures SizeSum(a, m) == SizeSum(b, m)
    decreases |a|
  {
    if a == [] {
      assert b == [] by {
        assert |b| == |multiset(b)| == |multiset(a)| == 0;
      }
    } else {
      var x := a[|a| - 1];
      var a' := a[..|a| - 1];
      var j := IndexIn(b, x, a);
      var b' := b[..j] + b[j + 1..];
      MultisetInit(a);
      RemoveAt(b, j);
      SizeSumPerm(a', b', m);
      SizeSumRemove(b, j, m);
    }
  }

  /** A position of x in b, which holds the elements of a. */
  lemma IndexIn(b: seq<string>, x: string, a: seq<string>) returns (j: int)
    requires multiset(a) == multiset(b) && x in a
    ensures 0 <= j < |b| && b[j] == x
  {
    assert x in multiset(b);
    j :| 0 <= j < |b| && b[j] == x;
  }

  lemma MultisetInit(a: seq<string>)
    requires a != []
    ensures multiset(a[..|a| - 1]) == multiset(a) - multiset{a[|a| - 1]}
  {
    assert a == a[..|a| - 1] + [a[|a| - 1]];
  }

  /** Dropping position j leaves the other elements. */
  lemma RemoveAt(b: seq<string>, j: int)
    requires 0 <= j < |b|
    ensures multiset(b[..j] + b[j + 1..]) == multiset(b) - multiset{b[j]}
  {
    assert b == b[..j] + [b[j]] + b[j + 1..];
  }

  /** Dropping position j takes its count off the total. */
  lemma SizeSumRemove(b: seq<string>, j: int, m: map<string, set<string>>)
    requires 0 <= j < |b|
    ensures SizeSum(b, m) == SizeSum(b[..j] + b[j + 1..], m) + Size(m, b[j])
  {
    var x := b[j];
    assert b == b[..j] + [x] + b[j + 1..];
    SizeSumConcat(b[..j], [x], m);
    SizeSumConcat(b[..j] + [x], b[j + 1..], m);
    SizeSumConcat(b[..j], b[j + 1..], m);
    assert SizeSum([x], m) == Size(m, x) by {
      assert [x][..0] == [];
    }
  }

  /** Changing the samples of one event e changes the total by the change
      of e's count, once for every time e is listed. */
  lemma {:induction false} SizeSumExcept(ks: seq<string>, m: map<string, set<string>>,
                                         m2: map<string, set<string>>, e: string)
    requires NoDups(ks)
    requires forall k | k != e :: Size(m, k) == Size(m2, k)
    ensures SizeSum(ks, m2) == SizeSum(ks, m) + (if e in ks then Size(m2, e) - Size(m, e) else 0)
  {
    if ks != [] {
      var init := ks[..|ks| - 1];
      assert ks == init + [ks[|ks| - 1]];
      SizeSumExcept(init, m, m2, e);
      if ks[|ks| - 1] == e {
        assert e !in init by {
          forall i | 0 <= i < |init| ensures init[i] != e {
            assert ks[i] != ks[|ks| - 1];
          }
        }
      }
    }
  }

  /** `set` adds one to the total exactly when the pair is new. */
  lemma RecordedSum(ks: seq<string>, m: map<string, set<string>>, event: string, sample: string)
    requires NoDups(ks) && forall k :: k in m <==> k in ks
    ensures SizeSum(ks + (if event in m then [] else [event]), Recorded(m, event, sample)) ==
            SizeSum(ks, m) + (if event in m && sample in m[event] then 0 else 1)
  {
    var m2 := Recorded(m, event, sample);
    assert forall k | k != event :: Size(m, k) == Size(m2, k);
    SizeSumExcept(ks, m, m2, event);
    if event !in m {
      assert SizeSum(ks + [event], m2) == SizeSum(ks, m2) + Size(m2, event) by {
        assert (ks + [event])[..|ks|] == ks;
      }
      assert Size(m2, event) == 1 by {
        assert m2[event] == {sample};
      }
    } else {
      assert ks + [] == ks;
      if sample in m[event] {
        assert m2[event] == m[event];
      } else {
        assert |m[event] + {sample}| == |m[event]| + 1;
      }
    }
  }

  /** The position of the first entry with the largest count: the entry that
      a stable sort by decreasing count puts first. */
  function FirstMax(cs: seq<(string, nat)>): (k: nat)
    requires cs != []
    ensures k < |cs|
    ensures forall i | 0 <= i < |cs| :: cs[i].1 <= cs[k].1
    ensures forall i | 0 <= i < k :: cs[i].1 < cs[k].1
  {
    if |cs| == 1 then 0
    else
      var m := FirstMax(cs[1..]) + 1;
      if cs[0].1 >= cs[m].1 then 0 else m
  }

  /** The counts added up, as `reduce` does. */
  function CountsTotal(cs: seq<(string, nat)>): nat {
    if cs == [] then 0 else CountsTotal(cs[..|cs| - 1]) + cs[|cs| - 1].1
  }

  /** Counts listed against keys add up to the keys' total. */
  lemma {:induction false} CountsTotalKeys(cs: seq<(string, nat)>, ks: seq<string>, m: map<string, set<string>>)
    requires |cs| == |ks| && forall i | 0 <= i < |cs| :: cs[i].1 == Size(m, ks[i])
    ensures CountsTotal(cs) == SizeSum(ks, m)
  {
    if cs != [] {
      CountsTotalKeys(cs[..|cs| - 1], ks[..|ks| - 1], m);
    }
  }

  /** `LollipopStats`. */
  class LollipopStats {
    const position: int
    const aa: string
    /** The events of `_countMap`, in insertion order. */
    var events: seq<string>
    /** The set of samples of each event. */
    var samples: map<string, set<string>>

    ghost predicate Valid()
      reads this
    {
      NoDups(events) && forall e :: e in samples <==> e in events
    }

    constructor(position: int, aa: string)
      ensures Valid()
      ensures this.position == position && this.aa == aa
      ensures events == [] && samples == map[]
    {
      this.position := position;
      this.aa := aa;
      events := [];
      samples := map[];
    }

    /** `set(event, sample)`: the sample joins the event's set, and `sum`
        grows by one exactly when the pair is new. */
    method Set(event: string, sample: string)
      requires Valid()
      modifies this
      ensures Valid()
      ensures samples == Recorded(old(samples), event, sample)
      ensures events == old(events) + (if event in old(samples) then [] else [event])
      ensures Sum() == old(Sum()) + (if event in old(samples) && sample in old(samples)[event] then 0 else 1)
    {
      SumTotal(this);
      RecordedSum(events, samples, event, sample);
      if event !in samples {
        events := events + [event];
        samples := samples[event := {}];
      }
      samples := samples[event := samples[event] + {sample}];
      SumTotal(this);
    }

    /** `eventCounts`: the events in name order, each with its number of
        distinct samples. */
    function EventCounts(): (r: seq<(string, nat)>)
      reads this
      requires Valid()
      ensures |r| == |events|
      ensures forall i | 0 <= i < |r| :: r[i].0 == SortStrings(events)[i] && r[i].1 == Size(samples, r[i].0)
    {
      var ks := SortStrings(events);
      var sm := samples;
      seq(|ks|, i requires 0 <= i < |ks| => (ks[i], Size(sm, ks[i])))
    }

    /** `maxEvent`: (NA, -1) without events, else the first entry of
        `eventCounts` sorted by decreasing count. */
    function MaxEvent(): (r: (string, int))
      reads this
      requires Valid()
    {
      if |samples| == 0 then (NA, -1)
      else
        var cs := EventCounts();
        var c := cs[FirstMax(cs)];
        (c.0, c.1 as int)
    }

    /** `sum`: the counts of `eventCounts` added up. */
    function Sum(): nat
      reads this
      requires Valid()
    {
      CountsTotal(EventCounts())
    }
  }

  /** `eventCounts` lists every event exactly once, in strictly increasing
      name order, with the size of its sample set. */
  lemma EventCountsSpec(st: LollipopStats)
    requires st.Valid()
    ensures var r := st.EventCounts();
            (forall i | 0 <= i < |r| :: r[i].0 in st.samples && r[i].1 == |st.samples[r[i].0]|) &&
            (forall i, j | 0 <= i < j < |r| :: LexLe(r[i].0, r[j].0) && r[i].0 != r[j].0) &&
            (forall e | e in st.samples :: exists i | 0 <= i < |r| :: r[i].0 == e)
  {
    var r := st.EventCounts();
    var ks := SortStrings(st.events);
    SortedKeys(st.events);
    forall e | e in st.samples ensures exists i | 0 <= i < |r| :: r[i].0 == e {
      var i :| 0 <= i < |ks| && ks[i] == e;
      assert r[i].0 == e;
    }
  }

  /** `maxEvent` is (NA, -1) exactly when nothing is recorded; otherwise it
      is an event with the largest count, the first in name order among
      those that share it. */
  lemma MaxEventSpec(st: LollipopStats)
    requires st.Valid()
    ensures st.events == [] ==> st.MaxEvent() == (NA, -1)
    ensures st.events != [] ==>
              var r := st.MaxEvent();
              r.0 in st.samples && r.1 == |st.samples[r.0]| &&
              (forall e | e in st.samples :: |st.samples[e]| <= r.1) &&
              (forall e | e in st.samples && |st.samples[e]| == r.1 :: LexLe(r.0, e))
  {
    if st.events == [] {
      assert |st.samples| == 0 by {
        assert st.samples.Keys == {};
      }
    } else {
      assert st.events[0] in st.samples;
      assert |st.samples| != 0;
      var cs := st.EventCounts();
      EventCountsSpec(st);
      var k := FirstMax(cs);
      forall e | e in st.samples
        ensures |st.samples[e]| <= cs[k].1
        ensures |st.samples[e]| == cs[k].1 ==> LexLe(cs[k].0, e)
      {
        var i :| 0 <= i < |cs| && cs[i].0 == e;
        if i == k {
          LexLeRefl(e);
        }
      }
    }
  }

  /** `sum` is the number of recorded samples over all events, in any
      order of the events. */
  lemma SumTotal(st: LollipopStats)
    requires st.Valid()
    ensures st.Sum() == SizeSum(st.events, st.samples)
  {
    var ks := SortStrings(st.events);
    var cs := st.EventCounts();
    CountsTotalKeys(cs, ks, st.samples);
    SortBySpec(st.events, Id);
    SizeSumPerm(ks, st.events, st.samples);
  }
}
