/** The state of a clinical track
    (src/components/pages/modules/oncoplot/clinical-utils.ts): `_samples`,
    a `Map` from sample to the counts of its events, and the getters read
    from it (`categories`, `categoriesInUse`, `maxEvent`, the data of one
    sample). */
module ClinicalSamples {
  import opened Wrappers
  import opened Seqs
  import opened StrOrder
  import opened Cell
  import opened EventCounts
  import opened OncoplotEvents
  import OncoplotTable
  import opened ClinicalHeaders

  /** `_samples`: the samples in insertion order and the counts of each. */
  datatype Samples = Samples(keys: seq<string>, maps: map<string, CountMap>)

  /** The samples are distinct, are exactly the mapped ones, and every count
      map is well formed. */
  ghost predicate SamplesOk(d: Samples) {
    NoDups(d.keys) && (forall s :: s in d.maps <==> s in d.keys) &&
    forall s | s in d.maps :: WellFormed(d.maps[s])
  }

  const NoSamples := Samples([], map[])

  /** The counts of a sample, empty when it has none. */
  function CountsOf(d: Samples, sample: string): CountMap {
    if sample in d.maps then d.maps[sample] else Empty
  }

  /** The state after `getEvents(sample)`: an unseen sample gets an empty
      map, added last. */
  function WithSample(d: Samples, sample: string): Samples {
    if sample in d.maps then d else Samples(d.keys + [sample], d.maps[sample := Empty])
  }

  /** The state after `set(sample, event, count)`. */
  function SetCount(d: Samples, sample: string, event: string, count: real): Samples {
    var w := WithSample(d, sample);
    Samples(w.keys, w.maps[sample := Added(CountsOf(d, sample), event, count)])
  }

  /** `getEvents` stores the sample with its counts, so a second call finds
      the same counts and changes nothing. */
  lemma WithSampleSpec(d: Samples, sample: string)
    requires SamplesOk(d)
    ensures var r := WithSample(d, sample);
            SamplesOk(r) && sample in r.maps && r.maps[sample] == CountsOf(d, sample) &&
            WithSample(r, sample) == r &&
            (forall s | s != sample :: CountsOf(r, s) == CountsOf(d, s)) &&
            r.keys == if sample in d.keys then d.keys else d.keys + [sample]
  {
  }

  /** `set` keeps the state well formed, adds count to the sample's event
      and leaves every other sample as it was. */
  lemma SetCountSpec(d: Samples, sample: string, event: string, count: real)
    requires SamplesOk(d)
    ensures var r := SetCount(d, sample, event, count);
            SamplesOk(r) && CountsOf(r, sample) == Added(CountsOf(d, sample), event, count) &&
            Get(CountsOf(r, sample), event) == Get(CountsOf(d, sample), event) + count &&
            (forall s | s != sample :: CountsOf(r, s) == CountsOf(d, s)) &&
            r.keys == if sample in d.keys then d.keys else d.keys + [sample]
  {
    AddedSpec(CountsOf(d, sample), event, count);
  }

  // ------------------------------------------------------------ categories

  /** The event names of the given samples, sample by sample. */
  function EventNames(keys: seq<string>, d: Samples): seq<string> {
    if keys == [] then [] else EventNames(keys[..|keys| - 1], d) + CountsOf(d, keys[|keys| - 1]).keys
  }

  /** `categories`: the declared categories, or when there are none the
      distinct names of all recorded events, sorted. */
  function Categories(declared: seq<string>, d: Samples): seq<string> {
    if |declared| > 0 then declared else SortStrings(OncoplotTable.Distinct(EventNames(d.keys, d)))
  }

  /** An event is named by the given samples exactly when one of them has a
      count for it. */
  lemma {:induction false} EventNamesSpec(keys: seq<string>, d: Samples, e: string)
    requires SamplesOk(d)
    ensures e in EventNames(keys, d) <==> exists s | s in keys :: s in d.maps && e in d.maps[s].counts
  {
    if keys != [] {
      var init := keys[..|keys| - 1];
      var s := keys[|keys| - 1];
      EventNamesSpec(init, d, e);
      assert forall x :: x in keys <==> x in init || x == s;
      if s in d.maps {
        assert e in CountsOf(d, s).keys <==> e in d.maps[s].counts;
      }
    }
  }

  /** Without declared categories, the categories are sorted, distinct and
      are the events some sample has a count for. */
  lemma CategoriesSpec(declared: seq<string>, d: Samples)
    requires SamplesOk(d)
    ensures |declared| > 0 ==> Categories(declared, d) == declared
    ensures |declared| == 0 ==>
              var r := Categories(declared, d);
              SortedBy(r, Id) && NoDups(r) &&
              forall e :: e in r <==> exists s | s in d.maps :: e in d.maps[s].counts
  {
    if |declared| == 0 {
      var names := OncoplotTable.Distinct(EventNames(d.keys, d));
      SortedKeys(names);
      forall e ensures e in Categories(declared, d) <==> exists s | s in d.maps :: e in d.maps[s].counts {
        EventNamesSpec(d.keys, d, e);
      }
    }
  }

  /** A fresh track's categories are the declared ones. */
  lemma CategoriesOfNone(declared: seq<string>)
    ensures Categories(declared, NoSamples) == declared
  {
    if |declared| == 0 {
      assert EventNames([], NoSamples) == [];
      assert OncoplotTable.Distinct([]) == [];
    }
  }

  /** Some sample has a positive count for the event (`eventsInUse`). */
  predicate InUse(d: Samples, e: string) {
    exists s | s in d.maps :: Get(d.maps[s], e) > 0.0
  }

  /** `categories.filter(category => events.has(category))` over the events
      in use. */
  function KeepInUse(cats: seq<string>, d: Samples): seq<string> {
    if cats == [] then []
    else
      var r := KeepInUse(cats[..|cats| - 1], d);
      if InUse(d, cats[|cats| - 1]) then r + [cats[|cats| - 1]] else r
  }

  /** `categoriesInUse`. */
  function CategoriesInUse(declared: seq<string>, d: Samples): seq<string> {
    KeepInUse(Categories(declared, d), d)
  }

  /** The categories in use are the categories that some sample counts
      positively, in the order of the categories: keeping distributes over
      concatenation. */
  lemma {:induction false} KeepInUseSpec(cats: seq<string>, d: Samples)
    ensures forall e :: e in KeepInUse(cats, d) <==> e in cats && InUse(d, e)
    ensures NoDups(cats) ==> NoDups(KeepInUse(cats, d))
    ensures |KeepInUse(cats, d)| <= |cats|
  {
    if cats != [] {
      var init := cats[..|cats| - 1];
      var c := cats[|cats| - 1];
      KeepInUseSpec(init, d);
      assert forall e :: e in cats <==> e in init || e == c;
      assert NoDups(cats) ==> NoDups(init) && c !in init;
    }
  }

  /** Filtering the two halves of a list and joining the results is
      filtering the whole list: the kept categories keep their order. */
  lemma {:induction false} KeepInUseAppend(a: seq<string>, b: seq<string>, d: Samples)
    ensures KeepInUse(a + b, d) == KeepInUse(a, d) + KeepInUse(b, d)
  {
    if b != [] {
      var init := b[..|b| - 1];
      assert (a + b)[..|a + b| - 1] == a + init;
      KeepInUseAppend(a, init, d);
    } else {
      assert a + b == a;
    }
  }

  // ------------------------------------------------------------ maxEvent

  /** The counts of the samples' `maxEvent`s, in sample order. */
  function MaxCounts(d: Samples): (r: seq<real>)
    ensures |r| == |d.keys|
  {
    seq(|d.keys|, i requires 0 <= i < |d.keys| => MaxEvent(CountsOf(d, d.keys[i])).1)
  }

  /** The track's `maxEvent`: the `maxEvent` of the first sample whose own
      largest count is the largest; none (`undefined`) without samples. */
  function TrackMaxEvent(d: Samples): Option<(string, real)> {
    if d.keys == [] then None
    else Some(MaxEvent(CountsOf(d, d.keys[FirstMax(MaxCounts(d))])))
  }

  /** The track's `maxEvent` is that of one of its samples, no sample's is
      larger, and every earlier sample's is smaller. */
  lemma TrackMaxEventSpec(d: Samples)
    ensures TrackMaxEvent(d).None? <==> d.keys == []
    ensures TrackMaxEvent(d).Some? ==>
              exists k | 0 <= k < |d.keys| ::
                TrackMaxEvent(d).value == MaxEvent(CountsOf(d, d.keys[k])) &&
                (forall i | 0 <= i < |d.keys| :: MaxEvent(CountsOf(d, d.keys[i])).1 <= MaxEvent(CountsOf(d, d.keys[k])).1) &&
                (forall i | 0 <= i < k :: MaxEvent(CountsOf(d, d.keys[i])).1 < MaxEvent(CountsOf(d, d.keys[k])).1)
  {
    if d.keys != [] {
      var cs := MaxCounts(d);
      FirstMaxSpec(cs);
      var k := FirstMax(cs);
      forall i | 0 <= i < |d.keys| ensures MaxEvent(CountsOf(d, d.keys[i])).1 <= MaxEvent(CountsOf(d, d.keys[k])).1 {
        assert cs[i] <= cs[k];
      }
      forall i | 0 <= i < k ensures MaxEvent(CountsOf(d, d.keys[i])).1 < MaxEvent(CountsOf(d, d.keys[k])).1 {
        assert cs[i] < cs[k];
      }
    }
  }

  // ------------------------------------------------------------ one sample

  /** `x / total` for JavaScript numbers, where a zero total gives NaN.
      The counts of a distribution track are non-negative, so its total is
      zero only when every count is zero, and then every share is NaN. */
  function Ratio(x: real, total: real): Number {
    if total == 0.0 then NaN else Finite(x / total)
  }

  /** `normCountDist(ids)`: each id with its count divided by the sample's
      total. */
  function NormCountDist(m: CountMap, ids: seq<string>): seq<(string, Number)> {
    var dist := CountDist(m, ids, true);
    seq(|dist|, i requires 0 <= i < |dist| => (dist[i].0, Ratio(dist[i].1, SumCounts(m))))
  }

  /** One pair per id, in order, holding the id's share of the total. */
  lemma NormCountDistSpec(m: CountMap, ids: seq<string>)
    ensures var r := NormCountDist(m, ids);
            |r| == |ids| &&
            forall i | 0 <= i < |ids| :: r[i].0 == ids[i] && r[i].1 == Ratio(Get(m, ids[i]), SumCounts(m))
  {
    CountDistAll(m, ids);
  }

  /** `getClinicalData(sample)` on the sample's counts: a number track gives
      the total, a distribution track the shares of its declared
      categories, any other the sample's `maxEvent`. */
  function ClinicalData(kind: ClinicalDataType, declared: seq<string>, m: CountMap): seq<(string, Number)> {
    match kind
    case NumberTrack => [("counts", Finite(SumCounts(m)))]
    case DistTrack => NormCountDist(m, declared)
    case _ => [(MaxEvent(m).0, Finite(MaxEvent(m).1))]
  }
}
