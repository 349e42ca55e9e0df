/** `EventCountMap` of src/components/pages/modules/oncoplot/oncoplot-utils.ts:
    a count per event (a mutation type, a clinical category) held in a
    JavaScript `Map`, whose keys keep their insertion order. Counts are
    JavaScript numbers, written here as `real`. */
module EventCounts {
  import opened Seqs
  import opened Strs
  import opened StrOrder

  /** A `Map<string, number>`: the keys in insertion order and the count of
      each. */
  datatype CountMap = CountMap(keys: seq<string>, counts: map<string, real>)

  /** The keys are distinct and are exactly the counted events. */
  ghost predicate WellFormed(m: CountMap) {
    NoDups(m.keys) && forall e :: e in m.counts <==> e in m.keys
  }

  const Empty := CountMap([], map[])

  /** `get(event) ?? 0`. */
  function Get(m: CountMap, event: string): real {
    if event in m.counts then m.counts[event] else 0.0
  }

  /** The map after `set(event, count)`: the event's count grows by count
      from 0; a new event goes last. */
  function Added(m: CountMap, event: string, count: real): (r: CountMap)
    ensures r.counts == m.counts[event := Get(m, event) + count]
  {
    CountMap(if event in m.counts then m.keys else m.keys + [event], m.counts[event := Get(m, event) + count])
  }

  /** `set` keeps the map well formed, adds count to the event and leaves
      every other count and the order of the old keys as they were. */
  lemma AddedSpec(m: CountMap, event: string, count: real)
    requires WellFormed(m)
    ensures var r := Added(m, event, count);
            WellFormed(r) && Get(r, event) == Get(m, event) + count &&
            (forall e | e != event :: Get(r, e) == Get(m, e)) &&
            r.keys == if event in m.keys then m.keys else m.keys + [event]
  {
  }

  // ---------------------------------------------------------------- sum

  /** The total of the counts of keys. */
  function Total(keys: seq<string>, m: CountMap): real {
    if keys == [] then 0.0 else Total(keys[..|keys| - 1], m) + Get(m, keys[|keys| - 1])
  }

  /** `sum`: the total over all entries. */
  function SumCounts(m: CountMap): real {
    Total(m.keys, m)
  }

  /** Changing one count changes the total of distinct keys by the change
      when the key is among them, and not otherwise. */
  lemma {:induction false} TotalChanged(keys: seq<string>, m: CountMap, m': CountMap, event: string)
    requires NoDups(keys)
    requires forall e | e != event :: Get(m', e) == Get(m, e)
    ensures Total(keys, m') == Total(keys, m) + if event in keys then Get(m', event) - Get(m, event) else 0.0
  {
    if keys != [] {
      var init := keys[..|keys| - 1];
      assert NoDups(init);
      TotalChanged(init, m, m', event);
      assert keys == init + [keys[|keys| - 1]];
      assert event == keys[|keys| - 1] ==> event !in init;
    }
  }

  /** `set(event, count)` adds count to `sum`. */
  lemma SumCountsAdded(m: CountMap, event: string, count: real)
    requires WellFormed(m)
    ensures SumCounts(Added(m, event, count)) == SumCounts(m) + count
  {
    var r := Added(m, event, count);
    TotalChanged(m.keys, m, r, event);
    if event !in m.keys {
      assert r.keys == m.keys + [event];
      assert r.keys[..|r.keys| - 1] == m.keys;
    }
  }

  // ---------------------------------------------------------------- events

  /** `events`: the entries sorted by event name. */
  function Events(m: CountMap): (r: seq<(string, real)>)
    ensures |r| == |m.keys|
  {
    var names := SortStrings(m.keys);
    seq(|names|, i requires 0 <= i < |names| => (names[i], Get(m, names[i])))
  }

  /** The entries come in strictly increasing name order, each with its
      count, and name every event exactly once. */
  lemma EventsSpec(m: CountMap)
    requires WellFormed(m)
    ensures var r := Events(m);
            (forall i, j | 0 <= i < j < |r| :: LexLe(r[i].0, r[j].0) && r[i].0 != r[j].0) &&
            (forall i | 0 <= i < |r| :: r[i].1 == Get(m, r[i].0)) &&
            (forall e :: e in m.counts <==> exists i | 0 <= i < |r| :: r[i].0 == e)
  {
    var names := SortStrings(m.keys);
    SortedKeys(m.keys);
    var r := Events(m);
    forall i, j | 0 <= i < j < |r| ensures LexLe(r[i].0, r[j].0) && r[i].0 != r[j].0 {
      assert LexLe(Id(names[i]), Id(names[j]));
    }
    forall e | e in m.counts ensures exists i | 0 <= i < |r| :: r[i].0 == e {
      var i :| 0 <= i < |names| && names[i] == e;
      assert r[i].0 == e;
    }
  }

  // ---------------------------------------------------------------- max

  /** The first of the entries with the largest count. */
  function FirstMax(cs: seq<real>): (k: nat)
    requires |cs| > 0
    ensures k < |cs|
    decreases |cs|
  {
    if |cs| == 1 then 0
    else
      var k := FirstMax(cs[..|cs| - 1]);
      if cs[|cs| - 1] > cs[k] then |cs| - 1 else k
  }

  lemma {:induction false} FirstMaxSpec(cs: seq<real>)
    requires |cs| > 0
    ensures forall i | 0 <= i < |cs| :: cs[i] <= cs[FirstMax(cs)]
    ensures forall i | 0 <= i < FirstMax(cs) :: cs[i] < cs[FirstMax(cs)]
    decreases |cs|
  {
    if |cs| > 1 {
      FirstMaxSpec(cs[..|cs| - 1]);
    }
  }

  /** The counts of the keys, in insertion order. */
  function KeyCounts(m: CountMap): (r: seq<real>)
    ensures |r| == |m.keys|
  {
    seq(|m.keys|, i requires 0 <= i < |m.keys| => Get(m, m.keys[i]))
  }

  /** `maxEvent`: [NA, -1] for an empty map, else the first entry of the
      entries stably sorted by decreasing count. */
  function MaxEvent(m: CountMap): (string, real) {
    if |m.keys| == 0 then (NA, -1.0)
    else
      var k := FirstMax(KeyCounts(m));
      (m.keys[k], Get(m, m.keys[k]))
  }

  /** `maxEvent` is [NA, -1] when there is no event; otherwise it is an
      event with the largest count, inserted no later than any other event
      with that count. */
  lemma MaxEventSpec(m: CountMap)
    requires WellFormed(m)
    ensures m.counts == map[] ==> MaxEvent(m) == (NA, -1.0)
    ensures m.counts != map[] ==>
              var r := MaxEvent(m);
              r.0 in m.counts && r.1 == Get(m, r.0) &&
              (forall i | 0 <= i < |m.keys| :: Get(m, m.keys[i]) <= r.1) &&
              (forall j | 0 <= j < |m.keys| && Get(m, m.keys[j]) == r.1 :: r.0 in m.keys[..j + 1])
  {
    if m.keys != [] {
      assert m.keys[0] in m.counts;
    }
    if m.counts != map[] {
      var e :| e in m.counts;
      assert e in m.keys;
      var cs := KeyCounts(m);
      FirstMaxSpec(cs);
      var k := FirstMax(cs);
      forall i | 0 <= i < |m.keys| ensures Get(m, m.keys[i]) <= Get(m, m.keys[k]) {
        assert cs[i] <= cs[k];
      }
      forall j | 0 <= j < |m.keys| && Get(m, m.keys[j]) == Get(m, m.keys[k]) ensures m.keys[k] in m.keys[..j + 1] {
        assert cs[j] == cs[k];
        assert m.keys[..j + 1][k] == m.keys[k];
      }
    }
  }

  // ---------------------------------------------------------------- dist

  /** `countDist(ids, keepZeros)`: one [id, count] pair per id, missing ids
      counting 0, dropping pairs whose count is not positive unless
      keepZeros. */
  function CountDist(m: CountMap, ids: seq<string>, keepZeros: bool): (r: seq<(string, real)>)
  {
    if ids == [] then []
    else
      var init := CountDist(m, ids[..|ids| - 1], keepZeros);
      var id := ids[|ids| - 1];
      if keepZeros || Get(m, id) > 0.0 then init + [(id, Get(m, id))] else init
  }

  /** With keepZeros there is a pair for every id, in order. */
  lemma {:induction false} CountDistAll(m: CountMap, ids: seq<string>)
    ensures var r := CountDist(m, ids, true);
            |r| == |ids| && forall i | 0 <= i < |ids| :: r[i] == (ids[i], Get(m, ids[i]))
  {
    if ids != [] {
      CountDistAll(m, ids[..|ids| - 1]);
    }
  }

  /** Every pair is an id with its count, positive unless keepZeros, and
      every id with a positive count keeps its pair. */
  lemma {:induction false} CountDistKept(m: CountMap, ids: seq<string>, keepZeros: bool)
    ensures var r := CountDist(m, ids, keepZeros);
            forall p | p in r :: p.0 in ids && p.1 == Get(m, p.0) && (keepZeros || p.1 > 0.0)
    ensures var r := CountDist(m, ids, keepZeros);
            forall i | 0 <= i < |ids| && Get(m, ids[i]) > 0.0 :: (ids[i], Get(m, ids[i])) in r
  {
    if ids != [] {
      var init := ids[..|ids| - 1];
      CountDistKept(m, init, keepZeros);
      forall i | 0 <= i < |init| ensures ids[i] == init[i] { }
    }
  }

  // ---------------------------------------------------------------- class

  /** The object: its `_countMap`. The getters `events`, `maxEvent`, `sum`
      and `countDist` are the functions above applied to it. */
  class EventCountMap {
    var countMap: CountMap

    ghost predicate Valid()
      reads this
    {
      WellFormed(countMap)
    }

    constructor()
      ensures Valid() && countMap == Empty
    {
      countMap := Empty;
    }

    /** `set(event, count)`. */
    method Set(event: string, count: real)
      requires Valid()
      modifies this
      ensures Valid() && countMap == Added(old(countMap), event, count)
      ensures SumCounts(countMap) == SumCounts(old(countMap)) + count
    {
      AddedSpec(countMap, event, count);
      SumCountsAdded(countMap, event, count);
      countMap := Added(countMap, event, count);
    }
  }
}
