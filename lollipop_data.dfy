/** Building a lollipop plot from a mutation table
    (src/components/pages/modules/lollipop/lollipop-utils.ts): the variant
    classification, the reading of protein changes such as "p.V600E" with
    the substitution patterns, and `makeLollipopData`, which fills one
    `LollipopStats` per residue. The cells of the two tables arrive already
    read as text and numbers. */
module LollipopData {
  import opened Wrappers
  import opened Strs
  import opened Proteins
  import opened LollipopPlot
  import opened LollipopStatistics
  import opened Seqs

  const Missense: string := "Missense"
  const Frameshift: string := "Frameshift"
  const Nonsense: string := "Nonsense"
  const Splice: string := "Splice"
  const InframeIndel: string := "Inframe indel"

  /** `DEFAULT_FEATURE_COLOR`. */
  const DefaultFeatureColor: string := "#000000"

  // ---------------------------------------------------------------- variants

  /** `parseVariant`: the type of a variant description, tested without
      regard to case, the first keyword found winning. */
  function ParseVariant(variant: string): (r: string)
  {
    var v := Lower(variant);
    if Contains(v, "missense") then Missense
    else if Contains(v, "frameshift") then Frameshift
    else if Contains(v, "in_frame") then InframeIndel
    else if Contains(v, "splice") then Splice
    else Nonsense
  }

  /** The classification ignores case, and its priority is missense >
      frameshift > in_frame > splice, anything else being Nonsense. */
  lemma ParseVariantSpec(variant: string)
    ensures ParseVariant(Lower(variant)) == ParseVariant(variant)
    ensures var v := Lower(variant);
            (ParseVariant(variant) == Missense <==> Contains(v, "missense")) &&
            (ParseVariant(variant) == Frameshift <==> !Contains(v, "missense") && Contains(v, "frameshift")) &&
            (ParseVariant(variant) == InframeIndel <==>
               !Contains(v, "missense") && !Contains(v, "frameshift") && Contains(v, "in_frame")) &&
            (ParseVariant(variant) == Splice <==>
               !Contains(v, "missense") && !Contains(v, "frameshift") && !Contains(v, "in_frame") &&
               Contains(v, "splice")) &&
            (ParseVariant(variant) == Nonsense <==>
               !Contains(v, "missense") && !Contains(v, "frameshift") && !Contains(v, "in_frame") &&
               !Contains(v, "splice"))
  {
    LowerIsLowerCase(variant);
  }

  // ---------------------------------------------------------------- patterns

  /** The end of the run of non-digits that starts at k. */
  function NonDigitRun(s: string, k: nat): (j: nat)
    requires k <= |s|
    ensures k <= j <= |s|
    ensures forall i | k <= i < j :: !IsDigit(s[i])
    ensures j < |s| ==> IsDigit(s[j])
    decreases |s| - k
  {
    if k < |s| && !IsDigit(s[k]) then NonDigitRun(s, k + 1) else k
  }

  /** The end of the run of digits that starts at k. */
  function DigitRun(s: string, k: nat): (j: nat)
    requires k <= |s|
    ensures k <= j <= |s|
    ensures forall i | k <= i < j :: IsDigit(s[i])
    ensures j < |s| ==> !IsDigit(s[j])
    decreases |s| - k
  {
    if k < |s| && IsDigit(s[k]) then DigitRun(s, k + 1) else k
  }

  /** The three groups of a match. */
  datatype Groups = Groups(first: string, second: string, third: string)

  predicate NoDigits(s: string) {
    forall i | 0 <= i < |s| :: !IsDigit(s[i])
  }

  predicate AllDigits(s: string) {
    forall i | 0 <= i < |s| :: IsDigit(s[i])
  }

  /** s holds piece at k. */
  predicate HoldsAt(s: string, k: nat, piece: string) {
    k + |piece| <= |s| && s[k..k + |piece|] == piece
  }

  /** g is a match of `([^\d]+)(\d+)([^\d]+)` at k: the three groups
      follow each other in s from k on. */
  predicate IsSubMatch(s: string, k: nat, g: Groups) {
    |g.first| > 0 && |g.second| > 0 && |g.third| > 0 &&
    NoDigits(g.first) && AllDigits(g.second) && NoDigits(g.third) &&
    HoldsAt(s, k, g.first) && HoldsAt(s, k + |g.first|, g.second) &&
    HoldsAt(s, k + |g.first| + |g.second|, g.third)
  }

  /** The match of `SUB_REGEX` that starts at k: every group is a maximal
      run, the only way each can be followed by the next. */
  function SubAt(s: string, k: nat): (r: Option<Groups>)
    requires k <= |s|
  {
    var j := NonDigitRun(s, k);
    var l := DigitRun(s, j);
    var m := NonDigitRun(s, l);
    if k < j && j < l && l < m then Some(Groups(s[k..j], s[j..l], s[l..m])) else None
  }

  /** `SubAt` finds a match at k exactly when there is one, and the one it
      finds has the longest last group. */
  lemma SubAtSpec(s: string, k: nat)
    requires k <= |s|
    ensures SubAt(s, k).Some? ==> IsSubMatch(s, k, SubAt(s, k).value)
    ensures forall g | IsSubMatch(s, k, g) ::
              SubAt(s, k).Some? && SubAt(s, k).value.first == g.first && SubAt(s, k).value.second == g.second &&
              |g.third| <= |SubAt(s, k).value.third|
  {
    forall g | IsSubMatch(s, k, g)
      ensures SubAt(s, k).Some? && SubAt(s, k).value.first == g.first && SubAt(s, k).value.second == g.second &&
              |g.third| <= |SubAt(s, k).value.third|
    {
      SubAtOnly(s, k, g);
    }
  }

  /** Any match at k has the runs `SubAt` takes as its first two groups. */
  lemma SubAtOnly(s: string, k: nat, g: Groups)
    requires IsSubMatch(s, k, g)
    ensures var j := NonDigitRun(s, k);
            var l := DigitRun(s, j);
            j == k + |g.first| && l == j + |g.second| && NonDigitRun(s, l) >= l + |g.third|
  {
    var a, b, c := |g.first|, |g.second|, |g.third|;
    PieceChars(s, k, g.first);
    PieceChars(s, k + a, g.second);
    PieceChars(s, k + a + b, g.third);
    NonDigitRunIs(s, k, a);
    DigitRunIs(s, k + a, b);
    NonDigitRunIs(s, k + a + b, c);
  }

  /** The characters of a piece that s holds at k. */
  lemma PieceChars(s: string, k: nat, piece: string)
    requires HoldsAt(s, k, piece)
    ensures forall i | k <= i < k + |piece| :: s[i] == piece[i - k]
  {
    forall i | k <= i < k + |piece| ensures s[i] == piece[i - k] {
      assert s[k..k + |piece|][i - k] == s[i];
    }
  }

  /** A run of a non-digits at k makes the run at k at least that long,
      and exactly that long when a digit follows. */
  lemma NonDigitRunIs(s: string, k: nat, a: nat)
    requires k + a <= |s| && forall i | k <= i < k + a :: !IsDigit(s[i])
    ensures NonDigitRun(s, k) >= k + a
    ensures k + a < |s| && IsDigit(s[k + a]) ==> NonDigitRun(s, k) == k + a
  {
  }

  /** The same for a run of digits. */
  lemma DigitRunIs(s: string, k: nat, a: nat)
    requires k + a <= |s| && forall i | k <= i < k + a :: IsDigit(s[i])
    ensures DigitRun(s, k) >= k + a
    ensures k + a < |s| && !IsDigit(s[k + a]) ==> DigitRun(s, k) == k + a
  {
  }

  /** The first match of `SUB_REGEX` at or after k: `matchAll(...)[0]`. */
  function FirstSub(s: string, k: nat): (r: Option<Groups>)
    requires k <= |s|
    ensures r.Some? ==> exists i | k <= i <= |s| :: SubAt(s, i) == r
    ensures r.None? ==> forall i | k <= i <= |s| :: SubAt(s, i).None?
    decreases |s| - k
  {
    if SubAt(s, k).Some? then SubAt(s, k)
    else if k == |s| then None
    else FirstSub(s, k + 1)
  }

  /** The last '>' in s[j..m] with something after it, or -1: where the
      greedy `[^\d]+` before `>` has to give back. */
  function LastGt(s: string, j: nat, m: nat): (p: int)
    requires j <= m <= |s|
    ensures p == -1 || (j <= p < m - 1 && s[p] == '>')
    ensures forall i | p < i < m - 1 && j <= i :: s[i] != '>'
    decreases m
  {
    if m < j + 2 then -1
    else if s[m - 2] == '>' then m - 2
    else LastGt(s, j, m - 1)
  }

  /** The match of `SUB_V2_REGEX`, `(\d+)([^\d]+)>([^\d]+)`, that starts
      at k: the digits, then a run of non-digits cut at its last '>' that
      leaves a character on each side. */
  function SubV2At(s: string, k: nat): (r: Option<Groups>)
    requires k <= |s|
  {
    var j := DigitRun(s, k);
    var m := NonDigitRun(s, j);
    var p := LastGt(s, j, m);
    if k < j && j < p then Some(Groups(s[k..j], s[j..p], s[p + 1..m])) else None
  }

  /** The first match of `SUB_V2_REGEX` at or after k. */
  function FirstSubV2(s: string, k: nat): (r: Option<Groups>)
    requires k <= |s|
    ensures r.Some? ==> exists i | k <= i <= |s| :: SubV2At(s, i) == r
    ensures r.None? ==> forall i | k <= i <= |s| :: SubV2At(s, i).None?
    decreases |s| - k
  {
    if SubV2At(s, k).Some? then SubV2At(s, k)
    else if k == |s| then None
    else FirstSubV2(s, k + 1)
  }

  /** `s.replace(pat, rep)` for a literal pattern: the first occurrence only. */
  function ReplaceFirst(s: string, pat: string, rep: string): (r: string)
    requires |pat| > 0
    ensures IndexOfStr(s, pat) < 0 ==> r == s
    ensures IndexOfStr(s, pat) >= 0 ==> |r| == |s| - |pat| + |rep|
  {
    var i := IndexOfStr(s, pat);
    if i < 0 then s else s[..i] + rep + s[i + |pat|..]
  }

  // ---------------------------------------------------------------- changes

  /** `IAAVar`. */
  datatype AAVar = AAVar(ref: string, from: string, to: string, position: nat, variant: string, sample: string)

  /** A row of the mutation table: the sample, the protein change and the
      variant description. */
  datatype MutationRow = MutationRow(sample: string, ref: string, variant: string)

  /** One row as written: the first substitution match gives the change;
      without one `matchArray[0]` is `undefined` and reading it throws,
      because `if (matchArray)` holds for every array, empty or not. */
  function ParseChangeAsWritten(row: MutationRow): (r: Result<AAVar, string>)
    ensures r.Failure? <==> FirstSub(ReplaceFirst(row.ref, "p.", ""), 0).None?
  {
    var aa := ReplaceFirst(row.ref, "p.", "");
    match FirstSub(aa, 0)
    case None => Failure("TypeError")
    case Some(g) => Success(AAVar(row.ref, g.first, g.third, DigitsValue(g.second), ParseVariant(row.variant), row.sample))
  }

  /** One row as the code evidently intends: the substitution pattern,
      else the second pattern, else no change (`null`, filtered out). */
  function ParseChange(row: MutationRow): (r: Option<AAVar>)
    ensures var aa := ReplaceFirst(row.ref, "p.", "");
            r.None? <==> FirstSub(aa, 0).None? && FirstSubV2(aa, 0).None?
    ensures r.Some? ==> r.value.ref == row.ref && r.value.sample == row.sample &&
                        r.value.variant == ParseVariant(row.variant)
  {
    var aa := ReplaceFirst(row.ref, "p.", "");
    match FirstSub(aa, 0)
    case Some(g) => Some(AAVar(row.ref, g.first, g.third, DigitsValue(g.second), ParseVariant(row.variant), row.sample))
    case None =>
      match FirstSubV2(aa, 0)
      case Some(g) => Some(AAVar(row.ref, g.second, g.third, DigitsValue(g.first), ParseVariant(row.variant), row.sample))
      case None => None
  }

  /** The two agree wherever the code as written does not throw. */
  lemma ParseChangeAgrees(row: MutationRow)
    ensures ParseChangeAsWritten(row).Success? ==> ParseChange(row) == Some(ParseChangeAsWritten(row).value)
  {
  }

  /** "p.600V>E", a change in the second notation, makes the code as written
      throw, where the intended reading is V to E at residue 600. */
  lemma SecondPatternUnused()
    ensures ParseChangeAsWritten(MutationRow("s1", "p.600V>E", "missense")).Failure?
    ensures ParseChange(MutationRow("s1", "p.600V>E", "missense")) ==
            Some(AAVar("p.600V>E", "V", "E", 600, Missense, "s1"))
  {
    StripP600();
    NoSubIn600();
    V2In600();
    Value600();
    MissenseIsMissense();
  }

  lemma StripP600()
    ensures ReplaceFirst("p.600V>E", "p.", "") == "600V>E"
  {
    assert IndexOfStr("p.600V>E", "p.") == 0;
  }

  /** "600V>E" reads as 600, V and E in the second notation. */
  lemma V2In600()
    ensures FirstSubV2("600V>E", 0) == Some(Groups("600", "V", "E"))
  {
    var s := "600V>E";
    assert DigitRun(s, 0) == 3;
    assert NonDigitRun(s, 3) == 6;
    assert LastGt(s, 3, 6) == 4;
    assert s[0..3] == "600" && s[3..4] == "V" && s[5..6] == "E";
  }

  lemma Value600()
    ensures DigitsValue("600") == 600
  {
    assert "600"[..2] == "60" && "60"[..1] == "6" && "6"[..0] == "";
  }

  /** The variant "missense" reads as a missense change. */
  lemma MissenseIsMissense()
    ensures ParseVariant("missense") == Missense
  {
    LowerOfLowerCase("missense");
    assert Contains("missense", "missense");
  }

  /** "600V>E" has no match of the substitution pattern. */
  lemma NoSubIn600()
    ensures FirstSub("600V>E", 0).None?
  {
    var s := "600V>E";
    assert NonDigitRun(s, 6) == 6;
    assert NonDigitRun(s, 5) == 6;
    assert NonDigitRun(s, 4) == 6;
    assert NonDigitRun(s, 3) == 6;
    assert DigitRun(s, 6) == 6;
    assert DigitRun(s, 3) == 3;
    assert DigitRun(s, 2) == 3;
    assert DigitRun(s, 1) == 3;
    assert NonDigitRun(s, 2) == 2;
    assert NonDigitRun(s, 1) == 1;
    assert NonDigitRun(s, 0) == 0;
    assert SubAt(s, 6).None? && SubAt(s, 5).None? && SubAt(s, 4).None? && SubAt(s, 3).None?;
    assert SubAt(s, 2).None? && SubAt(s, 1).None? && SubAt(s, 0).None?;
  }

  /** The changes the mutation rows give under `parse`, in row order,
      rows without a change dropped: the `map` then `filter` of the rows. */
  function Changes(rows: seq<MutationRow>, parse: MutationRow -> Option<AAVar>): (r: seq<AAVar>)
    ensures |r| <= |rows|
  {
    if rows == [] then []
    else
      var init := Changes(rows[..|rows| - 1], parse);
      match parse(rows[|rows| - 1])
      case Some(c) => init + [c]
      case None => init
  }

  /** Every change comes from a row, and every row with a change
      contributes it. */
  lemma {:induction false} ChangesSpec(rows: seq<MutationRow>, parse: MutationRow -> Option<AAVar>)
    ensures forall c | c in Changes(rows, parse) :: exists i | 0 <= i < |rows| :: parse(rows[i]) == Some(c)
    ensures forall i | 0 <= i < |rows| && parse(rows[i]).Some? :: parse(rows[i]).value in Changes(rows, parse)
  {
    if rows != [] {
      var init := rows[..|rows| - 1];
      ChangesSpec(init, parse);
      forall i | 0 <= i < |init| ensures rows[i] == init[i] { }
    }
  }

  /** The rows' changes as written: the `map` over the rows throws at the
      first row without a substitution match. */
  function ChangesAsWritten(rows: seq<MutationRow>): (r: Result<seq<AAVar>, string>)
    ensures r.Failure? ==> r.error == "TypeError"
    ensures r.Success? ==> |r.value| == |rows|
  {
    if rows == [] then Success([])
    else
      match ChangesAsWritten(rows[..|rows| - 1])
      case Failure(e) => Failure(e)
      case Success(cs) =>
        match ParseChangeAsWritten(rows[|rows| - 1])
        case Failure(e) => Failure(e)
        case Success(c) => Success(cs + [c])
  }

  /** The code as written throws exactly when some row has no substitution
      match. */
  lemma {:induction false} ChangesAsWrittenThrows(rows: seq<MutationRow>)
    ensures ChangesAsWritten(rows).Failure? <==>
              exists i | 0 <= i < |rows| :: ParseChangeAsWritten(rows[i]).Failure?
  {
    if rows != [] {
      var init := rows[..|rows| - 1];
      ChangesAsWrittenThrows(init);
      if ChangesAsWritten(init).Failure? {
        var i :| 0 <= i < |init| && ParseChangeAsWritten(init[i]).Failure?;
        assert init[i] == rows[i];
      } else {
        forall i | 0 <= i < |rows| - 1 ensures ParseChangeAsWritten(rows[i]).Success? {
          assert init[i] == rows[i];
        }
      }
    }
  }

  /** Where the code as written does not throw, every row gives a change,
      the one the intended reading gives too. */
  lemma {:induction false} ChangesAsWrittenAgree(rows: seq<MutationRow>)
    ensures ChangesAsWritten(rows).Success? ==> ChangesAsWritten(rows).value == Changes(rows, ParseChange)
  {
    if rows != [] && ChangesAsWritten(rows).Success? {
      var init := rows[..|rows| - 1];
      var last := rows[|rows| - 1];
      ChangesAsWrittenAgree(init);
      ParseChangeAgrees(last);
    }
  }

  // ---------------------------------------------------------------- stats

  /** The samples of each event that the first n changes record at residue
      p: what `aaStats[p - 1]` holds after them. */
  function SamplesAt(changes: seq<AAVar>, n: nat, p: int): map<string, set<string>>
    requires n <= |changes|
  {
    if n == 0 then map[]
    else
      var c := changes[n - 1];
      var m := SamplesAt(changes, n - 1, p);
      if c.position == p then Recorded(m, c.variant, c.sample) else m
  }

  /** The events that the first n changes record at residue p, in the order
      they first occur. */
  function EventsAt(changes: seq<AAVar>, n: nat, p: int): seq<string>
    requires n <= |changes|
  {
    if n == 0 then []
    else
      var c := changes[n - 1];
      if c.position == p && c.variant !in SamplesAt(changes, n - 1, p) then EventsAt(changes, n - 1, p) + [c.variant]
      else EventsAt(changes, n - 1, p)
  }

  /** A mutation at position p is recorded at residue p and nowhere else: a
      sample carries an event at residue p exactly when one of the changes
      at p says so. */
  lemma {:induction false} SamplesAtSpec(changes: seq<AAVar>, n: nat, p: int, event: string, sample: string)
    requires n <= |changes|
    ensures (event in SamplesAt(changes, n, p) && sample in SamplesAt(changes, n, p)[event]) <==>
            exists i | 0 <= i < n :: changes[i].position == p && changes[i].variant == event &&
                                     changes[i].sample == sample
  {
    if n > 0 {
      SamplesAtSpec(changes, n - 1, p, event, sample);
    }
  }

  /** The event list and the sample map stay in step, as a valid
      `LollipopStats` requires. */
  lemma {:induction false} EventsAtValid(changes: seq<AAVar>, n: nat, p: int)
    requires n <= |changes|
    ensures NoDups(EventsAt(changes, n, p))
    ensures forall e :: e in SamplesAt(changes, n, p) <==> e in EventsAt(changes, n, p)
  {
    if n > 0 {
      EventsAtValid(changes, n - 1, p);
    }
  }

  // ---------------------------------------------------------------- frame

  /** A row of the features table: name, start, end and colour. */
  datatype FeatureRow = FeatureRow(name: string, start: int, end: int, color: string)

  /** `IProteinFeature`. */
  datatype ProteinFeature = ProteinFeature(id: string, name: string, start: int, end: int, color: string,
                                           bgColor: string, show: bool)

  /** `IProteinLabel`. */
  datatype ProteinLabel = ProteinLabel(id: string, name: string, start: int, color: string, show: bool)

  /** The feature a row gives: the row's colour is the background, the
      outline is the default colour, and it is shown. */
  function Feature(row: FeatureRow, id: string): ProteinFeature {
    ProteinFeature(id, row.name, row.start, row.end, DefaultFeatureColor, row.color, true)
  }

  /** The features of the feature rows, in order (`ids(i)` is the fresh id
      of row i); none without a feature table. */
  method MakeFeatures(featureRows: Option<seq<FeatureRow>>, ids: nat -> string) returns (features: seq<ProteinFeature>)
    ensures featureRows.None? ==> features == []
    ensures featureRows.Some? ==>
              |features| == |featureRows.value| &&
              forall i | 0 <= i < |features| :: features[i] == Feature(featureRows.value[i], ids(i))
  {
    features := [];
    if featureRows.Some? {
      var rows := featureRows.value;
      for i := 0 to |rows|
        invariant |features| == i
        invariant forall k | 0 <= k < i :: features[k] == Feature(rows[k], ids(k))
      {
        features := features + [Feature(rows[i], ids(i))];
      }
    }
  }

  /** One new, empty `LollipopStats` per residue, numbered from 1 and
      tagged with the residue's letter. */
  method NewStats(sq: string) returns (stats: seq<LollipopStats>)
    ensures |stats| == |sq|
    ensures forall k, l | 0 <= k < l < |stats| :: stats[k] != stats[l]
    ensures forall k | 0 <= k < |stats| ::
              fresh(stats[k]) && stats[k].Valid() && stats[k].position == k + 1 && stats[k].aa == [sq[k]] &&
              stats[k].samples == map[] && stats[k].events == []
  {
    stats := [];
    for i := 0 to |sq|
      invariant |stats| == i
      invariant forall k, l | 0 <= k < l < i :: stats[k] != stats[l]
      invariant forall k | 0 <= k < i ::
                  fresh(stats[k]) && stats[k].Valid() && stats[k].position == k + 1 && stats[k].aa == [sq[k]] &&
                  stats[k].samples == map[] && stats[k].events == []
    {
      var st := new LollipopStats(i + 1, [sq[i]]);
      stats := stats + [st];
    }
  }

  /** Every change lies on one of the n residues. */
  predicate WithinResidues(changes: seq<AAVar>, n: nat) {
    forall i | 0 <= i < |changes| :: 1 <= changes[i].position <= n
  }

  /** The first c changes lie on one of the n residues. */
  predicate WithinUpTo(changes: seq<AAVar>, c: nat, n: nat)
    requires c <= |changes|
  {
    c == 0 || (WithinUpTo(changes, c - 1, n) && 1 <= changes[c - 1].position <= n)
  }

  lemma {:induction false} WithinUpToAll(changes: seq<AAVar>, c: nat, n: nat)
    requires c <= |changes|
    ensures WithinUpTo(changes, c, n) <==> forall j | 0 <= j < c :: 1 <= changes[j].position <= n
  {
    if c > 0 {
      WithinUpToAll(changes, c - 1, n);
    }
  }

  /** `aaStats[p - 1].set(variant, sample)` for every change in order;
      a change outside the residues throws a TypeError. */
  method ApplyChanges(stats: seq<LollipopStats>, changes: seq<AAVar>) returns (ok: bool)
    requires forall k, l | 0 <= k < l < |stats| :: stats[k] != stats[l]
    requires forall k | 0 <= k < |stats| :: stats[k].samples == map[] && stats[k].events == []
    modifies set k | 0 <= k < |stats| :: stats[k]
    ensures ok <==> WithinResidues(changes, |stats|)
    ensures ok ==> forall k | 0 <= k < |stats| ::
                     stats[k].samples == SamplesAt(changes, |changes|, k + 1) &&
                     stats[k].events == EventsAt(changes, |changes|, k + 1)
  {
    for c := 0 to |changes|
      invariant WithinUpTo(changes, c, |stats|)
      invariant forall k | 0 <= k < |stats| ::
                  stats[k].samples == SamplesAt(changes, c, k + 1) && stats[k].events == EventsAt(changes, c, k + 1)
    {
      var ch := changes[c];
      if !(1 <= ch.position <= |stats|) {
        assert !(1 <= changes[c].position <= |stats|);
        return false;
      }
      var p := ch.position - 1;
      EventsAtValid(changes, c, p + 1);
      label before:
      stats[p].Set(ch.variant, ch.sample);
      forall k | 0 <= k < |stats|
        ensures stats[k].samples == SamplesAt(changes, c + 1, k + 1) &&
                stats[k].events == EventsAt(changes, c + 1, k + 1)
      {
        if k != p {
          assert k < p ==> stats[k] != stats[p];
          assert p < k ==> stats[p] != stats[k];
          assert stats[k].samples == old@before(stats[k].samples);
        }
      }
    }
    WithinUpToAll(changes, |changes|, |stats|);
    ok := true;
  }

  /** `makeLollipopData`: one feature per feature row, no labels, and one
      `LollipopStats` per residue of the protein, numbered from 1 and
      tagged with its letter, holding the changes at that residue. A row
      without a substitution match throws reading `matchArray[0]`, and a
      change outside the protein reads `aaStats[p - 1]` as `undefined` and
      throws. */
  method MakeLollipopData<D>(protein: Protein, featureRows: Option<seq<FeatureRow>>, mutations: seq<MutationRow>,
                             ids: nat -> string, display: D)
    returns (r: Result<LollipopFrame<LollipopStats, ProteinFeature, ProteinLabel, D>, string>)
    ensures r.Success? <==>
              (forall i | 0 <= i < |mutations| :: ParseChangeAsWritten(mutations[i]).Success?) &&
              WithinResidues(Changes(mutations, ParseChange), |protein.sequence|)
    ensures r.Failure? ==> r.error == "TypeError"
    ensures r.Success? ==>
              var df := r.value;
              df.protein == protein && df.labels == [] && df.displayProps == display &&
              (featureRows.None? ==> df.features == []) &&
              (featureRows.Some? ==>
                 |df.features| == |featureRows.value| &&
                 forall i | 0 <= i < |df.features| :: df.features[i] == Feature(featureRows.value[i], ids(i)))
    ensures r.Success? ==>
              var stats := r.value.aaStats;
              var changes := Changes(mutations, ParseChange);
              |stats| == |protein.sequence| &&
              (forall i, j | 0 <= i < j < |stats| :: stats[i] != stats[j]) &&
              forall i | 0 <= i < |stats| ::
                fresh(stats[i]) && stats[i].Valid() &&
                stats[i].position == i + 1 && stats[i].aa == [protein.sequence[i]] &&
                stats[i].samples == SamplesAt(changes, |changes|, i + 1) &&
                stats[i].events == EventsAt(changes, |changes|, i + 1)
  {
    var features := MakeFeatures(featureRows, ids);
    var parsed := ChangesAsWritten(mutations);
    ChangesAsWrittenThrows(mutations);
    ChangesAsWrittenAgree(mutations);
    if parsed.Failure? {
      return Failure("TypeError");
    }
    var changes := parsed.value;
    var stats := NewStats(protein.sequence);
    var ok := ApplyChanges(stats, changes);
    if !ok {
      return Failure("TypeError");
    }
    forall p | 1 <= p <= |stats| {
      EventsAtValid(changes, |changes|, p);
    }
    r := Success(LollipopFrame(protein, stats, features, [], display));
  }
}
