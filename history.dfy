/** The undo/redo history of the table editor
    (src/components/history-provider.tsx): a list of steps, each holding the
    sheets of that moment and the selected sheet, plus a cursor on the
    current step. The reducer builds a new state for every action; nothing
    is updated in place. */
module History {
  import opened Wrappers
  import opened Strs
  import opened Seqs
  import opened BaseFrames

  /** A slot of a step's sheet array: a table, or a hole left by writing
      past the end of the array. */
  datatype Sheet = Loaded(df: Frame) | Hole

  /** `SheetId`: a position, or a name to search for. */
  datatype SheetId = ById(n: int) | ByName(s: string)

  function Min(a: int, b: int): int { if a <= b then a else b }
  function Max(a: int, b: int): int { if a >= b then a else b }

  /** `name.toLowerCase().includes(id.toLowerCase())`. */
  predicate NameHas(name: string, s: string) {
    Contains(Lower(name), Lower(s))
  }

  /** A hole is skipped by `map`/`filter`, so it never matches. */
  predicate SheetHas(sheet: Sheet, s: string) {
    sheet.Loaded? && NameHas(sheet.df.name, s)
  }

  /** `getSheetIndex`: a number is returned unchanged; a name gives the
      first sheet whose name contains it, or -1. */
  function GetSheetIndex(id: SheetId, sheets: seq<Sheet>): (r: int)
    ensures id.ById? ==> r == id.n
    ensures id.ByName? ==> (r == -1 <==> forall i :: 0 <= i < |sheets| ==> !SheetHas(sheets[i], id.s))
    ensures id.ByName? && r != -1 ==>
              0 <= r < |sheets| && SheetHas(sheets[r], id.s) &&
              forall i :: 0 <= i < r ==> !SheetHas(sheets[i], id.s)
  {
    match id
    case ById(n) => n
    case ByName(s) =>
      var p := (i: nat) => i < |sheets| && SheetHas(sheets[i], s);
      var r := FirstWhere(|sheets|, p);
      assert forall i :: 0 <= i < |sheets| ==> p(i) == SheetHas(sheets[i], s);
      r
  }

  /** A step position as a JavaScript number holds it here: an integer, or
      NaN, which is what `undefined` becomes once it goes through
      arithmetic or `Math.min`/`Math.max`. */
  datatype Position = At(i: int) | NotANumber

  /** `Math.min(p, k)`: NaN wins. */
  function MinAt(p: Position, k: int): (r: Position)
    ensures p.At? <==> r.At?
    ensures p.At? ==> r.i <= p.i && r.i <= k && (r.i == p.i || r.i == k)
  {
    match p
    case At(i) => At(Min(i, k))
    case NotANumber => NotANumber
  }

  /** `Math.max(k, p)`: NaN wins. */
  function MaxAt(k: int, p: Position): (r: Position)
    ensures p.At? <==> r.At?
    ensures p.At? ==> r.i >= p.i && r.i >= k && (r.i == p.i || r.i == k)
  {
    match p
    case At(i) => At(Max(k, i))
    case NotANumber => NotANumber
  }

  /** `p + k`: NaN stays NaN. */
  function Shift(p: Position, k: int): (r: Position)
    ensures p.At? <==> r.At?
    ensures p.At? ==> r.i == p.i + k
  {
    match p
    case At(i) => At(i + k)
    case NotANumber => NotANumber
  }

  /** `HistoryStep`: its position, name, sheets and selected sheet. */
  datatype Step = Step(index: Position, name: string, sheets: seq<Sheet>, sheetIndex: int)

  /** The `HistoryStep` constructor: the selected sheet is the looked-up
      one, but never past the last sheet. */
  function MakeStep(index: Position, name: string, sheets: seq<Sheet>, id: SheetId): (r: Step)
    ensures r.index == index && r.name == name && r.sheets == sheets
    ensures r.sheetIndex <= |sheets| - 1
    ensures GetSheetIndex(id, sheets) < |sheets| ==> r.sheetIndex == GetSheetIndex(id, sheets)
    ensures GetSheetIndex(id, sheets) >= |sheets| ==> r.sheetIndex == |sheets| - 1
  {
    Step(index, name, sheets, Min(|sheets| - 1, GetSheetIndex(id, sheets)))
  }

  function Loadeds(dfs: seq<Frame>): (r: seq<Sheet>)
    ensures |r| == |dfs| && forall k :: 0 <= k < |dfs| ==> r[k] == Loaded(dfs[k])
  {
    seq(|dfs|, k requires 0 <= k < |dfs| => Loaded(dfs[k]))
  }

  /** `HistoryState`: the steps and the cursor. */
  datatype State = State(steps: seq<Step>, cursor: Position)

  /** The cursor is on a step, so `currentStep` exists. */
  predicate Valid(s: State) {
    s.cursor.At? && 0 <= s.cursor.i < |s.steps|
  }

  /** Every step records its own position. */
  predicate Indexed(s: State) {
    forall i :: 0 <= i < |s.steps| ==> s.steps[i].index == At(i)
  }

  // ------------------------------------------------------------ step look-up

  predicate StepHas(steps: seq<Step>, i: nat, s: string) {
    i < |steps| && NameHas(steps[i].name, s)
  }

  /** `getStepIndex` as written: with at least one step it returns the
      first match, which is `undefined` (None here) when no step matches;
      -1 only when there are no steps at all. The reducer uses this one. */
  function GetStepIndexAsWritten(id: SheetId, steps: seq<Step>): (r: Option<int>)
    ensures id.ById? ==> r == Some(id.n)
    ensures id.ByName? && |steps| == 0 ==> r == Some(-1)
    ensures id.ByName? && |steps| > 0 ==>
              (r.None? <==> forall i :: 0 <= i < |steps| ==> !NameHas(steps[i].name, id.s))
    ensures id.ByName? && r.Some? && |steps| > 0 ==>
              0 <= r.value < |steps| && NameHas(steps[r.value].name, id.s) &&
              forall i :: 0 <= i < r.value ==> !NameHas(steps[i].name, id.s)
  {
    match id
    case ById(n) => Some(n)
    case ByName(s) =>
      var ms := IndicesWhere(|steps|, Matching(steps, s));
      MatchesMeaning(steps, s, ms);
      if |steps| > 0 then (if |ms| > 0 then Some(ms[0]) else None) else Some(-1)
  }

  /** The positions whose step name contains s, as a predicate. */
  function Matching(steps: seq<Step>, s: string): nat -> bool {
    (i: nat) => StepHas(steps, i, s)
  }

  /** The matching positions are empty exactly when no step name contains
      s, and otherwise their head is the first match. */
  lemma MatchesMeaning(steps: seq<Step>, s: string, ms: seq<nat>)
    requires ms == IndicesWhere(|steps|, Matching(steps, s))
    ensures |ms| == 0 <==> forall i :: 0 <= i < |steps| ==> !NameHas(steps[i].name, s)
    ensures |ms| > 0 ==> ms[0] < |steps| && NameHas(steps[ms[0]].name, s)
    ensures |ms| > 0 ==> forall i :: 0 <= i < ms[0] ==> !NameHas(steps[i].name, s)
  {
    var p := Matching(steps, s);
    if |ms| > 0 {
      assert p(ms[0]);
    }
    forall i | 0 <= i < |steps| && NameHas(steps[i].name, s) ensures i in ms && ms[0] <= i {
      assert p(i);
      var k :| 0 <= k < |ms| && ms[k] == i;
      if k > 0 {
        assert ms[0] < ms[k];
      }
    }
  }

  /** A name that no step holds yields `undefined` rather than -1. */
  lemma StepIndexAsWrittenUndefined(f: Frame)
    ensures GetStepIndexAsWritten(ByName("x"), [Step(At(0), "Load", [Loaded(f)], 0)]).None?
  {
    var steps := [Step(At(0), "Load", [Loaded(f)], 0)];
    assert Lower("x") == "x" && Lower("Load") == "load";
    assert !Contains("ad", "x") && !Contains("load", "x");
    assert !NameHas(steps[0].name, "x");
  }

  /** `getStepIndex` as intended: a number unchanged; a name gives the first
      step whose name contains it, or -1. */
  function GetStepIndex(id: SheetId, steps: seq<Step>): (r: int)
    ensures id.ById? ==> r == id.n
    ensures id.ByName? ==> (r == -1 <==> forall i :: 0 <= i < |steps| ==> !NameHas(steps[i].name, id.s))
    ensures id.ByName? && r != -1 ==>
              0 <= r < |steps| && NameHas(steps[r].name, id.s) &&
              forall i :: 0 <= i < r ==> !NameHas(steps[i].name, id.s)
  {
    match id
    case ById(n) => n
    case ByName(s) =>
      var p := (i: nat) => StepHas(steps, i, s);
      var r := FirstWhere(|steps|, p);
      assert forall i :: 0 <= i < |steps| ==> p(i) == NameHas(steps[i].name, s);
      r
  }

  /** The two agree on every input except a name no step holds, where the
      written one gives `undefined` and the intended one -1. */
  lemma StepIndexAgrees(id: SheetId, steps: seq<Step>)
    ensures id.ById? || |steps| == 0 || GetStepIndex(id, steps) != -1 ==>
              GetStepIndexAsWritten(id, steps) == Some(GetStepIndex(id, steps))
    ensures id.ByName? && |steps| > 0 && GetStepIndex(id, steps) == -1 ==>
              GetStepIndexAsWritten(id, steps).None?
  {
  }

  // ------------------------------------------------------------ actions

  datatype Action =
    | Undo
    | Redo
    | Reset(name: string, sheets: seq<Frame>)
    | AddStep(name: string, sheets: seq<Frame>, stepSheetId: Option<SheetId>)
    | AddSheets(sheets: seq<Frame>)
    | GotoSheet(sheetId: SheetId)
    | ReplaceSheet(sheetId: SheetId, sheet: Frame)
    | Goto(stepId: SheetId)
    | Remove(stepId: SheetId)
    | Clear

  /** `addStep`: keep the steps up to the cursor, append the new step
      (first sheet selected) and move onto it. The action's `sheetId` is
      not passed on. From a NaN cursor `slice(0, NaN)` keeps nothing and
      the new step's position is NaN too. */
  function AddStepTo(s: State, name: string, sheets: seq<Frame>): State {
    var i := Shift(s.cursor, 1);
    var kept := if i.At? then Slice(s.steps, 0, i.i) else [];
    State(kept + [MakeStep(i, name, Loadeds(sheets), ById(0))], i)
  }

  /** `removeStep` as written: -1 leaves the state alone; an `undefined`
      step makes `slice(0, undefined)` the whole list and `slice(NaN)` the
      whole list again, and the cursor NaN; otherwise the step is dropped
      and the cursor becomes the smaller of itself and the step before. */
  function RemoveStepAsWritten(s: State, id: SheetId): State {
    match GetStepIndexAsWritten(id, s.steps)
    case None => State(s.steps + s.steps, NotANumber)
    case Some(step) =>
      if step == -1 then s
      else State(Slice(s.steps, 0, step) + SliceFrom(s.steps, step + 1), MinAt(s.cursor, step - 1))
  }

  /** `removeStep` over the intended look-up: an unknown name gives -1,
      which leaves the state alone. */
  function RemoveStep(s: State, id: SheetId): (r: State)
    ensures GetStepIndex(id, s.steps) == -1 ==> r == s
    ensures 0 <= GetStepIndex(id, s.steps) < |s.steps| ==>
              var step := GetStepIndex(id, s.steps);
              r.steps == s.steps[..step] + s.steps[step + 1..] && r.cursor == MinAt(s.cursor, step - 1)
  {
    var step := GetStepIndex(id, s.steps);
    if step == -1 then s
    else State(Slice(s.steps, 0, step) + SliceFrom(s.steps, step + 1), MinAt(s.cursor, step - 1))
  }

  /** `addSheets`: the current step gets the new sheets after its own, with
      the sheet at (old count + 1) selected; reading `currentStep` of a
      state whose cursor is off the steps fails. */
  function AddSheetsTo(s: State, sheets: seq<Frame>): Option<State> {
    if !Valid(s) then None
    else
      var c := s.cursor.i;
      var cs := s.steps[c];
      var step := MakeStep(At(c), cs.name, cs.sheets + Loadeds(sheets), ById(|cs.sheets| + 1));
      Some(State(s.steps[..c] + [step] + s.steps[c + 1..], At(c)))
  }

  /** `changeSheet`: an unknown sheet leaves the state as it is; otherwise
      the current step is rebuilt with that sheet selected. */
  function ChangeSheet(s: State, id: SheetId): Option<State> {
    if !Valid(s) then None
    else
      var c := s.cursor.i;
      var cs := s.steps[c];
      var si := GetSheetIndex(id, cs.sheets);
      if si == -1 then Some(s)
      else Some(State(s.steps[c := MakeStep(At(c), cs.name, cs.sheets, ById(si))], At(c)))
  }

  /** `sheets[i] = sheet` on a JavaScript array: a position inside replaces,
      one past the end extends the array through holes, a negative one
      leaves the elements alone. */
  function Store(a: seq<Sheet>, i: int, v: Sheet): (r: seq<Sheet>)
    ensures 0 <= i < |a| ==> |r| == |a| && r[i] == v && forall k :: 0 <= k < |a| && k != i ==> r[k] == a[k]
    ensures i >= |a| ==> |r| == i + 1 && r[i] == v && r[..|a|] == a
    ensures i < 0 ==> r == a
  {
    if i < 0 then a
    else if i < |a| then a[i := v]
    else a + seq(i - |a|, _ => Hole) + [v]
  }

  /** `replaceSheet`: the steps after the cursor are dropped, and the
      current step is replaced by one whose matching sheet is the new one
      (or which gains it at the end), selected through the given id. */
  function ReplaceSheetIn(s: State, id: SheetId, sheet: Frame): Option<State> {
    if !Valid(s) then None
    else
      var c := s.cursor.i;
      var kept := s.steps[..c];
      var cs := s.steps[c];
      var idx := GetSheetIndex(id, cs.sheets);
      var sheets := if idx != -1 then Store(cs.sheets, idx, Loaded(sheet)) else cs.sheets + [Loaded(sheet)];
      Some(State(kept + [MakeStep(At(|kept|), cs.name, sheets, id)], At(|kept|)))
  }

  /** `defaultHistory`: one step holding the default sheet, which is given
      here as `inf`. */
  function DefaultHistory(inf: Frame): seq<Step> {
    [MakeStep(At(0), "Load default sheet", [Loaded(inf)], ById(0))]
  }

  /** `goto`: the looked-up step clamped to the steps; an `undefined` one
      makes the cursor NaN. */
  function GotoStep(s: State, id: SheetId): State {
    match GetStepIndexAsWritten(id, s.steps)
    case Some(step) => State(s.steps, At(Max(0, Min(|s.steps| - 1, step))))
    case None => State(s.steps, NotANumber)
  }

  /** `historyReducer`; None where the source fails reading a step that is
      not there. */
  function Reduce(s: State, a: Action, inf: Frame): Option<State> {
    match a
    case Undo => Some(State(s.steps, MaxAt(0, Shift(s.cursor, -1))))
    case Redo => Some(State(s.steps, MinAt(Shift(s.cursor, 1), |s.steps| - 1)))
    case Goto(id) => Some(GotoStep(s, id))
    case AddStep(name, sheets, _) => Some(AddStepTo(s, name, sheets))
    case AddSheets(sheets) => AddSheetsTo(s, sheets)
    case GotoSheet(id) => ChangeSheet(s, id)
    case ReplaceSheet(id, sheet) => ReplaceSheetIn(s, id, sheet)
    case Reset(name, sheets) => Some(State([MakeStep(At(0), name, Loadeds(sheets), ById(0))], At(0)))
    case Remove(id) => Some(RemoveStepAsWritten(s, id))
    case Clear => Some(State(DefaultHistory(inf), At(0)))
  }

  // ------------------------------------------------------------ properties

  /** `undo` steps back but not below the first step, `redo` forward but
      not past the last; neither touches the steps. */
  lemma UndoRedo(s: State, inf: Frame)
    requires Valid(s)
    ensures var u := Reduce(s, Undo, inf).value;
      u.steps == s.steps && Valid(u) && u.cursor == At(if s.cursor.i > 0 then s.cursor.i - 1 else 0)
    ensures var r := Reduce(s, Redo, inf).value;
      r.steps == s.steps && Valid(r) && r.cursor == At(if s.cursor.i < |s.steps| - 1 then s.cursor.i + 1 else s.cursor.i)
  {
  }

  /** `goto` a number or a name some step holds lands on a step whenever
      there is one: the looked-up step when it exists, otherwise the nearer
      end. A name no step holds makes the cursor NaN. */
  lemma GotoClamps(s: State, id: SheetId, inf: Frame)
    requires |s.steps| > 0
    ensures Reduce(s, Goto(id), inf).value.steps == s.steps
    ensures var g := Reduce(s, Goto(id), inf).value;
      var step := GetStepIndex(id, s.steps);
      (id.ById? || step != -1) ==>
        Valid(g) &&
        (0 <= step < |s.steps| ==> g.cursor == At(step)) &&
        (step < 0 ==> g.cursor == At(0)) &&
        (step >= |s.steps| ==> g.cursor == At(|s.steps| - 1))
    ensures id.ByName? && GetStepIndex(id, s.steps) == -1 ==>
              Reduce(s, Goto(id), inf).value.cursor == NotANumber
  {
    StepIndexAgrees(id, s.steps);
  }

  /** A name no step holds: `goto` leaves the cursor NaN and `remove`
      doubles the steps and leaves the cursor NaN; from there `undo` and
      `redo` keep it NaN and `add_sheets` fails, until a `goto` that finds
      its step puts the cursor back. */
  lemma UnknownStepName(s: State, name: string, inf: Frame)
    requires |s.steps| > 0
    requires forall i :: 0 <= i < |s.steps| ==> !NameHas(s.steps[i].name, name)
    ensures var g := Reduce(s, Goto(ByName(name)), inf).value;
      g == State(s.steps, NotANumber) &&
      Reduce(g, Undo, inf).value == g && Reduce(g, Redo, inf).value == g &&
      Reduce(g, AddSheets([]), inf).None? &&
      Valid(Reduce(g, Goto(ById(0)), inf).value)
    ensures Reduce(s, Remove(ByName(name)), inf).value == State(s.steps + s.steps, NotANumber)
  {
  }

  /** An unknown step name given to `remove`, with the intended look-up,
      leaves the history as it was. */
  lemma RemoveUnknownIntended(s: State, name: string)
    requires forall i :: 0 <= i < |s.steps| ==> !NameHas(s.steps[i].name, name)
    ensures RemoveStep(s, ByName(name)) == s
  {
  }

  /** `add_step` drops the steps after the cursor, appends the new step and
      makes it current; it is the last step and records its position. */
  lemma AddStepTruncates(s: State, name: string, sheets: seq<Frame>, id: Option<SheetId>, inf: Frame)
    requires Valid(s)
    ensures var r := Reduce(s, AddStep(name, sheets, id), inf).value;
      Valid(r) && |r.steps| == s.cursor.i + 2 && r.cursor == At(|r.steps| - 1) &&
      r.steps[..s.cursor.i + 1] == s.steps[..s.cursor.i + 1] &&
      r.steps[r.cursor.i].name == name && r.steps[r.cursor.i].sheets == Loadeds(sheets) &&
      r.steps[r.cursor.i].index == r.cursor &&
      (|sheets| > 0 ==> r.steps[r.cursor.i].sheetIndex == 0)
  {
    var r := Reduce(s, AddStep(name, sheets, id), inf).value;
    assert r.steps == s.steps[..s.cursor.i + 1] + [r.steps[r.cursor.i]];
  }

  /** Undoing an added step returns to the step it was added after, and
      redoing comes back to it. */
  lemma UndoAddStep(s: State, name: string, sheets: seq<Frame>, id: Option<SheetId>, inf: Frame)
    requires Valid(s)
    ensures var r := Reduce(s, AddStep(name, sheets, id), inf).value;
      var u := Reduce(r, Undo, inf).value;
      u.cursor == s.cursor && u.steps[..s.cursor.i + 1] == s.steps[..s.cursor.i + 1] &&
      Reduce(u, Redo, inf).value == r
  {
    AddStepTruncates(s, name, sheets, id, inf);
  }

  /** `reset` leaves one step, at position 0, holding the given sheets;
      `clear` the same with the default sheet. */
  lemma ResetClear(s: State, name: string, sheets: seq<Frame>, inf: Frame)
    ensures var r := Reduce(s, Reset(name, sheets), inf).value;
      |r.steps| == 1 && r.cursor == At(0) && r.steps[0].index == At(0) &&
      r.steps[0].name == name && r.steps[0].sheets == Loadeds(sheets)
    ensures var c := Reduce(s, Clear, inf).value;
      |c.steps| == 1 && c.cursor == At(0) && c.steps[0].index == At(0) &&
      c.steps[0].sheets == [Loaded(inf)] && c.steps[0].sheetIndex == 0
  {
  }

  /** `goto_sheet` with an unknown sheet changes nothing; otherwise only the
      selected sheet of the current step changes. */
  lemma GotoSheetOnlySelects(s: State, id: SheetId, inf: Frame)
    requires Valid(s)
    ensures var r := Reduce(s, GotoSheet(id), inf);
      r.Some? &&
      (GetSheetIndex(id, s.steps[s.cursor.i].sheets) == -1 ==> r.value == s) &&
      |r.value.steps| == |s.steps| && r.value.cursor == s.cursor &&
      (forall i :: 0 <= i < |s.steps| && i != s.cursor.i ==> r.value.steps[i] == s.steps[i]) &&
      r.value.steps[s.cursor.i].name == s.steps[s.cursor.i].name &&
      r.value.steps[s.cursor.i].sheets == s.steps[s.cursor.i].sheets
    ensures Indexed(s) ==> Indexed(Reduce(s, GotoSheet(id), inf).value)
  {
  }

  /** `add_sheets` appends to the current step's sheets only; the other
      steps, the cursor and the step's name stay as they were. */
  lemma AddSheetsAppends(s: State, sheets: seq<Frame>, inf: Frame)
    requires Valid(s)
    ensures var r := Reduce(s, AddSheets(sheets), inf);
      r.Some? && Valid(r.value) && |r.value.steps| == |s.steps| && r.value.cursor == s.cursor &&
      (forall i :: 0 <= i < |s.steps| && i != s.cursor.i ==> r.value.steps[i] == s.steps[i]) &&
      r.value.steps[s.cursor.i].name == s.steps[s.cursor.i].name &&
      r.value.steps[s.cursor.i].sheets == s.steps[s.cursor.i].sheets + Loadeds(sheets)
  {
    var c := s.cursor.i;
    var r := Reduce(s, AddSheets(sheets), inf).value;
    forall i | 0 <= i < |s.steps| && i != c ensures r.steps[i] == s.steps[i] {
      if i > c {
        assert r.steps[i] == s.steps[c + 1..][i - c - 1];
      }
    }
  }

  /** `replace_sheet` drops the steps after the cursor and makes the rebuilt
      step current and last: a sheet found by name is replaced in place,
      an unknown name appends the sheet. */
  lemma ReplaceSheetMeaning(s: State, id: SheetId, sheet: Frame, inf: Frame)
    requires Valid(s)
    ensures var r := Reduce(s, ReplaceSheet(id, sheet), inf);
      var c := s.cursor.i;
      var old_sheets := s.steps[c].sheets;
      var idx := GetSheetIndex(id, old_sheets);
      r.Some? && Valid(r.value) && r.value.cursor == s.cursor && |r.value.steps| == c + 1 &&
      r.value.steps[..c] == s.steps[..c] &&
      r.value.steps[c].index == s.cursor &&
      r.value.steps[c].name == s.steps[c].name &&
      (idx == -1 ==> r.value.steps[c].sheets == old_sheets + [Loaded(sheet)]) &&
      (0 <= idx < |old_sheets| ==>
         |r.value.steps[c].sheets| == |old_sheets| &&
         r.value.steps[c].sheets[idx] == Loaded(sheet) &&
         forall k :: 0 <= k < |old_sheets| && k != idx ==> r.value.steps[c].sheets[k] == old_sheets[k])
  {
  }

  /** `remove` of an existing step drops exactly that step; the cursor
      becomes min(cursor, step - 1). */
  lemma RemoveDrops(s: State, id: SheetId, inf: Frame)
    requires 0 <= GetStepIndex(id, s.steps) < |s.steps|
    ensures var step := GetStepIndex(id, s.steps);
      var r := Reduce(s, Remove(id), inf).value;
      r.steps == s.steps[..step] + s.steps[step + 1..] &&
      r.cursor == MinAt(s.cursor, step - 1)
  {
    StepIndexAgrees(id, s.steps);
  }

  /** Removing the first step puts the cursor at -1, off the steps, from
      where `add_sheets`, `goto_sheet` and `replace_sheet` fail. */
  lemma RemoveFirstStep(s: State, inf: Frame)
    requires Valid(s) && |s.steps| > 1
    ensures var r := Reduce(s, Remove(ById(0)), inf).value;
      r.cursor == At(-1) && !Valid(r) && Reduce(r, AddSheets([]), inf).None?
  {
  }

  /** Every action but `remove`, and but `goto` a name no step holds, keeps
      the cursor on a step and every step at its own position. */
  lemma ReducePreservesValid(s: State, a: Action, inf: Frame)
    requires Valid(s) && Indexed(s) && !a.Remove?
    requires a.Goto? && a.stepId.ByName? ==> GetStepIndex(a.stepId, s.steps) != -1
    ensures Reduce(s, a, inf).Some?
    ensures Valid(Reduce(s, a, inf).value) && Indexed(Reduce(s, a, inf).value)
  {
    match a
    case Goto(id) =>
      GotoClamps(s, id, inf);
    case AddStep(name, sheets, id) =>
      AddStepTruncates(s, name, sheets, id, inf);
    case AddSheets(sheets) =>
      AddSheetsAppends(s, sheets, inf);
    case GotoSheet(id) =>
      GotoSheetOnlySelects(s, id, inf);
    case ReplaceSheet(id, sheet) =>
      ReplaceSheetMeaning(s, id, sheet, inf);
      var r := Reduce(s, a, inf).value;
      assert forall i :: 0 <= i < s.cursor.i ==> r.steps[i] == r.steps[..s.cursor.i][i];
    case _ =>
  }
}
