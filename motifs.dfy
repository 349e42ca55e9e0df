/** The motif list of the gene motifs page
    (src/components/pages/modules/gene/motifs/motifs-provider.tsx): the
    loaded motifs and the order in which they are shown, as indices into
    the motif list. The views read `motifs[motifOrder[k]]` for each k. */
module Motifs {
  import opened Wrappers
  import opened Seqs
  import opened Strs
  import opened StrOrder

  /** `IMotif`: each weight row holds the A, C, G, T weights. */
  datatype Motif = Motif(publicId: string, dataset: string, motifId: string, motifName: string,
                         weights: seq<(real, real, real, real)>)

  /** `IMotifState`. */
  datatype MotifState = MotifState(motifs: seq<Motif>, motifOrder: seq<int>)

  /** `IMotifsAction`; `Unknown` stands for any other action type. */
  datatype MotifAction = SetMotifs(motifs: seq<Motif>) | OrderMotifs(indices: seq<int>)
                       | RemoveMotifs(ids: seq<string>) | Unknown

  /** Every index is a position of the motif list. */
  predicate Indexes(motifs: seq<Motif>, idx: seq<int>) {
    forall k | 0 <= k < |idx| :: 0 <= idx[k] < |motifs|
  }

  /** `idx.map(i => motifs[i])`. */
  function Pick(motifs: seq<Motif>, idx: seq<int>): (r: seq<Motif>)
    requires Indexes(motifs, idx)
    ensures |r| == |idx| && forall k | 0 <= k < |idx| :: r[k] == motifs[idx[k]]
  {
    if idx == [] then []
    else
      assert Indexes(motifs, idx[..|idx| - 1]);
      Pick(motifs, idx[..|idx| - 1]) + [motifs[idx[|idx| - 1]]]
  }

  /** The indices of `order`, in order, whose motif is not removed; a
      failure when an index is not a position of the list (reading
      `publicId` of `undefined`). */
  function KeptIndices(motifs: seq<Motif>, order: seq<int>, removed: set<string>): (r: Result<seq<int>, string>)
    ensures r.Success? <==> Indexes(motifs, order)
    ensures r.Success? ==> |r.value| <= |order| && Indexes(motifs, r.value)
  {
    if order == [] then Success([])
    else
      var i := order[|order| - 1];
      var init := order[..|order| - 1];
      assert forall k | 0 <= k < |init| :: init[k] == order[k];
      if !(0 <= i < |motifs|) then Failure("TypeError")
      else
        var kept :- KeptIndices(motifs, init, removed);
        Success(kept + (if motifs[i].publicId !in removed then [i] else []))
  }

  /** The kept indices are exactly the indices of `order` whose motif keeps
      its id, each position of `order` contributing once and in order:
      keeping the indices of a concatenation keeps those of each part. */
  lemma {:induction false} KeptIndicesSpec(motifs: seq<Motif>, order: seq<int>, removed: set<string>)
    requires Indexes(motifs, order)
    ensures forall k | 0 <= k < |KeptIndices(motifs, order, removed).value| ::
              var x := KeptIndices(motifs, order, removed).value[k];
              x in order && motifs[x].publicId !in removed
    ensures forall k | 0 <= k < |order| && motifs[order[k]].publicId !in removed ::
              order[k] in KeptIndices(motifs, order, removed).value
  {
    if order != [] {
      var init := order[..|order| - 1];
      assert Indexes(motifs, init);
      KeptIndicesSpec(motifs, init, removed);
      var i := order[|order| - 1];
      var kept := KeptIndices(motifs, init, removed).value;
      var r := KeptIndices(motifs, order, removed).value;
      assert r == kept + (if motifs[i].publicId !in removed then [i] else []);
      forall k | 0 <= k < |r| ensures r[k] in order && motifs[r[k]].publicId !in removed {
        if k < |kept| {
          assert kept[k] in init;
          var j :| 0 <= j < |init| && init[j] == kept[k];
          assert order[j] == r[k];
        }
      }
      forall k | 0 <= k < |order| && motifs[order[k]].publicId !in removed ensures order[k] in r {
        if k < |init| {
          assert order[k] == init[k];
        }
      }
    }
  }

  /** The motifs of `shown` whose id is not removed, in order. */
  function WithoutIds(shown: seq<Motif>, removed: set<string>): (r: seq<Motif>)
    ensures |r| <= |shown|
  {
    if shown == [] then []
    else
      var m := shown[|shown| - 1];
      WithoutIds(shown[..|shown| - 1], removed) + (if m.publicId !in removed then [m] else [])
  }

  /** Picking the kept indices shows the shown motifs without the removed
      ones. */
  lemma {:induction false} PickKept(motifs: seq<Motif>, order: seq<int>, removed: set<string>)
    requires Indexes(motifs, order)
    ensures var kept := KeptIndices(motifs, order, removed).value;
            Pick(motifs, kept) == WithoutIds(Pick(motifs, order), removed)
  {
    if order != [] {
      var init := order[..|order| - 1];
      assert Indexes(motifs, init);
      PickKept(motifs, init, removed);
      var shown := Pick(motifs, order);
      assert shown[..|shown| - 1] == Pick(motifs, init);
      var i := order[|order| - 1];
      var kept := KeptIndices(motifs, init, removed).value;
      if motifs[i].publicId !in removed {
        assert Pick(motifs, kept + [i]) == Pick(motifs, kept) + [motifs[i]];
      } else {
        assert kept + [] == kept;
      }
    }
  }

  /** `remove` as written: the kept indices are sorted in place by their
      decimal strings (the default `Array.sort`), the motifs become those
      at the sorted indices, and `motifOrder` becomes the same sorted
      array of original indices. */
  function Removed(state: MotifState, ids: seq<string>): (r: Result<MotifState, string>)
    ensures r.Success? <==> Indexes(state.motifs, state.motifOrder)
  {
    var kept :- KeptIndices(state.motifs, state.motifOrder, set id | id in ids);
    var sorted := SortBy(kept, IntStr);
    SortBySpec(kept, IntStr);
    assert forall k | 0 <= k < |sorted| :: sorted[k] in multiset(kept);
    Success(MotifState(Pick(state.motifs, sorted), sorted))
  }

  /** After `remove` the order lists, sorted by decimal string, exactly the
      old indices whose motif is not removed, each once per occurrence, and
      the motifs are the motifs at those indices. */
  lemma RemovedSpec(state: MotifState, ids: seq<string>)
    requires Indexes(state.motifs, state.motifOrder)
    ensures var r := Removed(state, ids).value;
            var kept := KeptIndices(state.motifs, state.motifOrder, set id | id in ids).value;
            SortedBy(r.motifOrder, IntStr) && multiset(r.motifOrder) == multiset(kept) &&
            |r.motifs| == |r.motifOrder| &&
            forall k | 0 <= k < |r.motifOrder| ::
              0 <= r.motifOrder[k] < |state.motifs| && r.motifs[k] == state.motifs[r.motifOrder[k]] &&
              state.motifs[r.motifOrder[k]].publicId !in ids
  {
    var removed := set id | id in ids;
    var kept := KeptIndices(state.motifs, state.motifOrder, removed).value;
    KeptIndicesSpec(state.motifs, state.motifOrder, removed);
    SortBySpec(kept, IntStr);
    var sorted := SortBy(kept, IntStr);
    forall k | 0 <= k < |sorted| ensures sorted[k] in kept {
      assert sorted[k] in multiset(kept);
    }
  }

  /** `motifReducer`. */
  function MotifReducer(state: MotifState, action: MotifAction): (r: Result<MotifState, string>)
    ensures action.SetMotifs? ==> r == Success(MotifState(action.motifs, Range(0, |action.motifs|)))
    ensures action.OrderMotifs? ==> r == Success(MotifState(state.motifs, action.indices))
    ensures action.RemoveMotifs? ==> (r.Success? <==> Indexes(state.motifs, state.motifOrder))
    ensures action.Unknown? ==> r == Success(state)
  {
    match action
    case SetMotifs(motifs) => Success(MotifState(motifs, Range(0, |motifs|)))
    case OrderMotifs(indices) => Success(state.(motifOrder := indices))
    case RemoveMotifs(ids) => Removed(state, ids)
    case Unknown => Success(state)
  }

  /** A state whose order indexes its motifs. */
  predicate Showable(state: MotifState) {
    Indexes(state.motifs, state.motifOrder)
  }

  /** `set` always leaves a showable state, listing each motif once in
      load order. */
  lemma SetShowable(state: MotifState, motifs: seq<Motif>)
    ensures var r := MotifReducer(state, SetMotifs(motifs)).value;
            Showable(r) && Pick(r.motifs, r.motifOrder) == motifs
  {
    PickIdentity(motifs, Range(0, |motifs|));
  }

  /** As written, `remove` can leave a state that is not showable: with
      motifs "a", "b" shown in order [0, 1], removing "a" leaves the motifs
      ["b"] and the order [1], which points past the end. */
  lemma RemoveBreaksOrder(a: Motif, b: Motif)
    requires a.publicId == "a" && b.publicId == "b"
    ensures var state := MotifState([a, b], [0, 1]);
            var r := MotifReducer(state, RemoveMotifs(["a"]));
            Showable(state) && r.Success? && r.value.motifs == [b] && r.value.motifOrder == [1] &&
            !Showable(r.value)
  {
    var removed := set id | id in ["a"];
    assert "a" in removed && "b" !in removed;
    assert [0, 1][..1] == [0];
    var none: seq<int> := [];
    assert KeptIndices([a, b], [0], removed) == Success(none);
    assert none + [1] == [1];
    assert KeptIndices([a, b], [0, 1], removed) == Success([1]);
  }

  /** `remove` as evidently intended: the motifs still shown, in the order
      they were shown, with the order counting them off. */
  function RemovedInOrder(state: MotifState, ids: seq<string>): (r: Result<MotifState, string>)
    ensures r.Success? <==> Indexes(state.motifs, state.motifOrder)
  {
    var kept :- KeptIndices(state.motifs, state.motifOrder, set id | id in ids);
    Success(MotifState(Pick(state.motifs, kept), Range(0, |kept|)))
  }

  /** The intended `remove` keeps the state showable, and shows what was
      shown before without the removed motifs, in the same order. */
  lemma RemovedInOrderShows(state: MotifState, ids: seq<string>)
    requires Showable(state)
    ensures var r := RemovedInOrder(state, ids).value;
            Showable(r) &&
            Pick(r.motifs, r.motifOrder) == WithoutIds(Pick(state.motifs, state.motifOrder), set id | id in ids)
  {
    var removed := set id | id in ids;
    var kept := KeptIndices(state.motifs, state.motifOrder, removed).value;
    PickKept(state.motifs, state.motifOrder, removed);
    PickIdentity(Pick(state.motifs, kept), Range(0, |kept|));
  }

  /** Counting off a list shows the list. */
  lemma PickIdentity(motifs: seq<Motif>, idx: seq<int>)
    requires |idx| == |motifs| && forall k | 0 <= k < |idx| :: idx[k] == k
    ensures Indexes(motifs, idx) && Pick(motifs, idx) == motifs
  {
    var p := Pick(motifs, idx);
    assert forall k | 0 <= k < |p| :: p[k] == motifs[idx[k]];
  }
}
