/** The worksheet's bounded undo history with transactions.

    A snapshot is the whole worksheet.  Restoring one forces the system-owned status column hidden.
    Python compares snapshots item by item, and cloned items always count as different; so whether two
    equal worksheets are taken for different is left open, while different ones always are.
 */
module History {
  import opened Wrappers

  const LIMIT := 100

  datatype Row = Row(height: int, hidden: bool, items: seq<string>)

  datatype Sheet = Sheet(rows: seq<Row>, hiddenColumns: seq<bool>)

  /** The status column exists and is hidden. */
  predicate StatusHidden(sheet: Sheet, status: nat) {
    status < |sheet.hiddenColumns| && sheet.hiddenColumns[status]
  }

  function Restored(sheet: Sheet, status: nat): Sheet {
    sheet.(hiddenColumns := seq(|sheet.hiddenColumns|,
      i requires 0 <= i < |sheet.hiddenColumns| => sheet.hiddenColumns[i] || i == status))
  }

  /** Restoring a snapshot is exact just when the status column was hidden in it (or missing). */
  lemma RestoreIsExact(sheet: Sheet, status: nat)
    ensures Restored(sheet, status) == sheet <==> (status < |sheet.hiddenColumns| ==> sheet.hiddenColumns[status])
  {
    if status < |sheet.hiddenColumns| {
      assert Restored(sheet, status).hiddenColumns[status];
    }
    if status < |sheet.hiddenColumns| ==> sheet.hiddenColumns[status] {
      assert Restored(sheet, status).hiddenColumns == sheet.hiddenColumns;
    }
  }

  /** Hiding acts on the given columns, revealing on all; the status column is never touched. */
  function HideColumns(sheet: Sheet, columns: set<int>, hidden: bool, status: nat): Sheet {
    sheet.(hiddenColumns := seq(|sheet.hiddenColumns|,
      i requires 0 <= i < |sheet.hiddenColumns| =>
        if i == status || (hidden && i !in columns) then sheet.hiddenColumns[i] else hidden))
  }

  // ----- the state machine -----

  datatype State = State(grid: Sheet, undo: seq<Sheet>, redo: seq<Sheet>, last: Sheet, open: Option<Sheet>)

  datatype Step =
    | Edit(rows: seq<Row>)
    | SetColumnsHidden(columns: set<int>, hidden: bool, differs: bool)
    | Begin
    | Commit(differs: bool)
    | Undo
    | Redo
    | Reset

  function Trim(stack: seq<Sheet>): (trimmed: seq<Sheet>)
    ensures |trimmed| <= LIMIT
  {
    if |stack| <= LIMIT then stack else stack[|stack| - LIMIT..]
  }

  /** An edit of the cells; outside a transaction it is recorded as it happens. */
  function DoEdit(s: State, rows: seq<Row>): State {
    var grid := s.grid.(rows := rows);
    if s.open.Some? then s.(grid := grid)
    else s.(grid := grid, undo := Trim(s.undo + [s.last]), redo := [], last := grid)
  }

  function DoBegin(s: State): State {
    if s.open.Some? then s else s.(open := Some(s.grid))
  }

  function DoCommit(s: State, differs: bool): State {
    match s.open
    case None => s
    case Some(before) =>
      if differs || s.grid != before then s.(open := None, undo := Trim(s.undo + [before]), redo := [], last := s.grid)
      else s.(open := None, last := s.grid)
  }

  function DoUndo(s: State, status: nat): State {
    if s.undo == [] then s
    else
      var grid := Restored(s.undo[|s.undo| - 1], status);
      s.(grid := grid, undo := s.undo[..|s.undo| - 1], redo := s.redo + [s.grid], last := grid)
  }

  function DoRedo(s: State, status: nat): State {
    if s.redo == [] then s
    else
      var grid := Restored(s.redo[|s.redo| - 1], status);
      s.(grid := grid, redo := s.redo[..|s.redo| - 1], undo := s.undo + [s.grid], last := grid)
  }

  function DoReset(s: State): State {
    s.(undo := [], redo := [], open := None, last := s.grid)
  }

  /** set_selected_columns_hidden: a transaction around hiding or revealing columns. */
  function DoHide(s: State, columns: set<int>, hidden: bool, differs: bool, status: nat): State {
    if hidden && columns <= {status} then s
    else
    var b := DoBegin(s);
    DoCommit(b.(grid := HideColumns(b.grid, columns, hidden, status)), differs)
  }

  function Next(s: State, step: Step, status: nat): State {
    match step
    case Edit(rows) => DoEdit(s, rows)
    case SetColumnsHidden(columns, hidden, differs) => DoHide(s, columns, hidden, differs, status)
    case Begin => DoBegin(s)
    case Commit(differs) => DoCommit(s, differs)
    case Undo => DoUndo(s, status)
    case Redo => DoRedo(s, status)
    case Reset => DoReset(s)
  }

  function Run(s: State, steps: seq<Step>, status: nat): State
    decreases |steps|
  {
    if steps == [] then s else Run(Next(s, steps[0], status), steps[1..], status)
  }

  function Fresh(grid: Sheet): State {
    State(grid, [], [], grid, None)
  }

  // ----- what every reachable state satisfies -----

  /** Everything that can be shown or restored has the status column hidden, the two stacks together hold
      at most LIMIT snapshots, and outside transactions the last snapshot is the worksheet. */
  ghost predicate Inv(s: State, status: nat) {
    && StatusHidden(s.grid, status) && StatusHidden(s.last, status)
    && (s.open.Some? ==> StatusHidden(s.open.value, status))
    && (forall i :: 0 <= i < |s.undo| ==> StatusHidden(s.undo[i], status))
    && (forall i :: 0 <= i < |s.redo| ==> StatusHidden(s.redo[i], status))
    && |s.undo| + |s.redo| <= LIMIT
    && (s.open.None? ==> s.last == s.grid)
  }

  lemma HideKeepsStatus(sheet: Sheet, columns: set<int>, hidden: bool, status: nat)
    requires StatusHidden(sheet, status)
    ensures StatusHidden(HideColumns(sheet, columns, hidden, status), status)
  {
  }

  lemma TravelKeepsInv(s: State, status: nat)
    requires Inv(s, status)
    ensures Inv(DoUndo(s, status), status) && Inv(DoRedo(s, status), status)
  {
    if s.undo != [] { RestoreIsExact(s.undo[|s.undo| - 1], status); }
    if s.redo != [] { RestoreIsExact(s.redo[|s.redo| - 1], status); }
  }

  lemma RecordingKeepsInv(s: State, rows: seq<Row>, differs: bool, status: nat)
    requires Inv(s, status)
    ensures Inv(DoEdit(s, rows), status) && Inv(DoBegin(s), status) && Inv(DoCommit(s, differs), status)
  {
  }

  lemma StepKeepsInv(s: State, step: Step, status: nat)
    requires Inv(s, status)
    ensures Inv(Next(s, step, status), status)
  {
    match step
    case Edit(rows) => RecordingKeepsInv(s, rows, false, status);
    case SetColumnsHidden(columns, hidden, differs) =>
      HideKeepsStatus(s.grid, columns, hidden, status);
      var b := DoBegin(s);
      RecordingKeepsInv(b.(grid := HideColumns(b.grid, columns, hidden, status)), [], differs, status);
    case Begin => RecordingKeepsInv(s, [], false, status);
    case Commit(differs) => RecordingKeepsInv(s, [], differs, status);
    case Undo => TravelKeepsInv(s, status);
    case Redo => TravelKeepsInv(s, status);
    case _ =>
  }

  /** Over every run of edits, nested transactions, undos and redos. */
  lemma {:induction false} RunKeepsInv(s: State, steps: seq<Step>, status: nat)
    requires Inv(s, status)
    ensures Inv(Run(s, steps, status), status)
    decreases |steps|
  {
    if steps != [] {
      StepKeepsInv(s, steps[0], status);
      RunKeepsInv(Next(s, steps[0], status), steps[1..], status);
    }
  }

  /** The history is reset when a date's rows are loaded, the status column being hidden by then; from there
      every state satisfies the invariant. */
  lemma StartedKeepsInv(grid: Sheet, steps: seq<Step>, status: nat)
    requires StatusHidden(grid, status)
    ensures Inv(Run(Fresh(grid), steps, status), status)
  {
    RunKeepsInv(Fresh(grid), steps, status);
  }

  function Reverse(stack: seq<Sheet>): seq<Sheet> {
    if stack == [] then [] else [stack[|stack| - 1]] + Reverse(stack[..|stack| - 1])
  }

  /** Past, present and future: what undoing and redoing moves along. */
  function Timeline(s: State): seq<Sheet> {
    s.undo + [s.grid] + Reverse(s.redo)
  }

  /** Undo and redo move along the timeline without changing it, and undo each other. */
  lemma UndoKeepsTimeline(s: State, status: nat)
    requires Inv(s, status)
    ensures Timeline(DoUndo(s, status)) == Timeline(s) == Timeline(DoRedo(s, status))
    ensures s.undo != [] ==> DoRedo(DoUndo(s, status), status) == s.(last := s.grid)
    ensures s.redo != [] ==> DoUndo(DoRedo(s, status), status) == s.(last := s.grid)
  {
    RestoreIsExact(s.grid, status);
    if s.undo != [] {
      var u := s.undo[|s.undo| - 1];
      RestoreIsExact(u, status);
      assert s.undo == s.undo[..|s.undo| - 1] + [u];
      assert (s.redo + [s.grid])[..|s.redo|] == s.redo;
      assert Reverse(s.redo + [s.grid]) == [s.grid] + Reverse(s.redo);
    }
    if s.redo != [] {
      var r := s.redo[|s.redo| - 1];
      RestoreIsExact(r, status);
      assert s.redo == s.redo[..|s.redo| - 1] + [r];
      assert (s.undo + [s.grid])[..|s.undo|] == s.undo;
    }
  }

  /** Any mixture of undos and redos keeps the timeline. */
  lemma {:induction false} TravelKeepsTimeline(s: State, steps: seq<Step>, status: nat)
    requires Inv(s, status) && forall i :: 0 <= i < |steps| ==> steps[i].Undo? || steps[i].Redo?
    ensures Timeline(Run(s, steps, status)) == Timeline(s)
    decreases |steps|
  {
    if steps != [] {
      UndoKeepsTimeline(s, status);
      StepKeepsInv(s, steps[0], status);
      TravelKeepsTimeline(Next(s, steps[0], status), steps[1..], status);
    }
  }

  // ----- compound edits -----

  predicate Inside(step: Step) {
    step.Edit? || step.Begin?
  }

  /** Inside an open transaction edits and further beginnings only change the cells. */
  lemma {:induction false} InsideOnlyEdits(s: State, steps: seq<Step>, status: nat)
    requires s.open.Some? && forall i :: 0 <= i < |steps| ==> Inside(steps[i])
    ensures Run(s, steps, status) == s.(grid := Run(s, steps, status).grid)
    decreases |steps|
  {
    if steps != [] { InsideOnlyEdits(Next(s, steps[0], status), steps[1..], status); }
  }

  lemma {:induction false} RunAppend(s: State, steps: seq<Step>, more: seq<Step>, status: nat)
    ensures Run(s, steps + more, status) == Run(Run(s, steps, status), more, status)
    decreases |steps|
  {
    if steps == [] {
      assert steps + more == more;
    } else {
      assert (steps + more)[0] == steps[0] && (steps + more)[1..] == steps[1..] + more;
      RunAppend(Next(s, steps[0], status), steps[1..], more, status);
    }
  }

  /** A compound edit up to its first commit. */
  function Opening(pre: seq<Step>, differs: bool): seq<Step> {
    [Begin] + pre + [Commit(differs)]
  }

  /** A compound edit, from its first Begin to the first Commit, adds one entry, or none when it is not
      seen to change anything; and one undo takes all of it back. */
  lemma CompoundIsOneEntry(s: State, steps: seq<Step>, differs: bool, status: nat)
    requires Inv(s, status) && s.open.None?
    requires forall i :: 0 <= i < |steps| ==> Inside(steps[i])
    ensures var t := Run(s, Opening(steps, differs), status);
            var changed := differs || t.grid != s.grid;
            && t.open.None? && t.last == t.grid
            && t.undo == (if changed then Trim(s.undo + [s.grid]) else s.undo)
            && t.redo == (if changed then [] else s.redo)
            && (changed ==> DoUndo(t, status).grid == s.grid)
  {
    var b := DoBegin(s);
    var all := Opening(steps, differs);
    assert all[0] == Begin && all[1..] == steps + [Commit(differs)];
    RunAppend(b, steps, [Commit(differs)], status);
    InsideOnlyEdits(b, steps, status);
    var m := Run(b, steps, status);
    assert [Commit(differs)][1..] == [];
    assert Run(m, [Commit(differs)], status) == DoCommit(m, differs);
    RestoreIsExact(s.grid, status);
  }

  // ----- hiding columns, and resetting -----

  function HiddenOnes(sheet: Sheet): set<int> {
    set i | 0 <= i < |sheet.hiddenColumns| && sheet.hiddenColumns[i]
  }

  /** Hiding adds the columns asked for to the hidden ones, except the status column; revealing leaves none hidden
      but the status column; nothing else changes. */
  lemma HideIsExact(sheet: Sheet, columns: set<int>, hidden: bool, status: nat)
    requires StatusHidden(sheet, status)
    ensures var after := HideColumns(sheet, columns, hidden, status);
            && after.rows == sheet.rows && |after.hiddenColumns| == |sheet.hiddenColumns|
            && HiddenOnes(after) ==
                 if hidden then HiddenOnes(sheet) + set i | i in columns && 0 <= i < |sheet.hiddenColumns|
                 else {status}
  {
  }

  /** Hiding or revealing outside a transaction is one entry at most, and one undo takes it back. */
  lemma HideIsUndone(s: State, columns: set<int>, hidden: bool, differs: bool, status: nat)
    requires Inv(s, status) && s.open.None?
    ensures var t := DoHide(s, columns, hidden, differs, status);
            var asked := HideColumns(s.grid, columns, hidden, status);
            && t.open.None? && t.last == t.grid
            && (t.grid == asked || (hidden && columns <= {status} && t == s))
            && (t.grid != s.grid ==> t.undo == Trim(s.undo + [s.grid]) && t.redo == [])
            && (t.grid != s.grid ==> DoUndo(t, status).grid == s.grid)
  {
    RestoreIsExact(s.grid, status);
  }

  /** After a reset there is nothing to undo or redo, and no transaction is open. */
  lemma ResetForgets(s: State, status: nat)
    ensures var t := DoReset(s);
            t.grid == s.grid && t == Fresh(s.grid) && DoUndo(t, status) == t && DoRedo(t, status) == t
  {
  }

  /** An edit outside a transaction is one entry, drops what could be redone, and one undo takes it back. */
  lemma EditIsUndone(s: State, rows: seq<Row>, status: nat)
    requires Inv(s, status) && s.open.None?
    ensures var t := DoEdit(s, rows);
            && t.grid.rows == rows && t.grid.hiddenColumns == s.grid.hiddenColumns && t.redo == []
            && t.undo == Trim(s.undo + [s.grid]) && DoUndo(t, status).grid == s.grid
  {
    RestoreIsExact(s.grid, status);
  }

  // ----- nested compound edits -----

  predicate Recording(step: Step) {
    step.Edit? || step.Begin? || step.Commit?
  }

  /** What a step pushes on the undo stack. */
  function Recorded(s: State, step: Step): seq<Sheet> {
    match step
    case Edit(_) => if s.open.None? then [s.last] else []
    case Commit(differs) => if s.open.Some? && (differs || s.grid != s.open.value) then [s.open.value] else []
    case _ => []
  }

  function Entries(s: State, steps: seq<Step>, status: nat): seq<Sheet>
    decreases |steps|
  {
    if steps == [] then [] else Recorded(s, steps[0]) + Entries(Next(s, steps[0], status), steps[1..], status)
  }

  /** No cell is edited while the transaction is closed, and no commit sees a difference. */
  predicate Quiet(s: State, steps: seq<Step>, status: nat)
    decreases |steps|
  {
    steps == [] || (
      && (steps[0].Edit? ==> s.open.Some?)
      && (steps[0].Commit? && s.open.Some? ==> !steps[0].differs && s.grid == s.open.value)
      && Quiet(Next(s, steps[0], status), steps[1..], status))
  }

  lemma {:induction false} QuietRecordsNothing(s: State, steps: seq<Step>, status: nat)
    requires forall i :: 0 <= i < |steps| ==> Recording(steps[i])
    ensures Quiet(s, steps, status) <==> Entries(s, steps, status) == []
    decreases |steps|
  {
    if steps != [] { QuietRecordsNothing(Next(s, steps[0], status), steps[1..], status); }
  }

  lemma {:induction false} EntriesAppend(s: State, steps: seq<Step>, more: seq<Step>, status: nat)
    ensures Entries(s, steps + more, status) == Entries(s, steps, status) + Entries(Run(s, steps, status), more, status)
    decreases |steps|
  {
    if steps == [] {
      assert steps + more == more;
    } else {
      assert (steps + more)[0] == steps[0] && (steps + more)[1..] == steps[1..] + more;
      EntriesAppend(Next(s, steps[0], status), steps[1..], more, status);
    }
  }

  lemma {:induction false} InsideRecordsNothing(s: State, steps: seq<Step>, status: nat)
    requires s.open.Some? && forall i :: 0 <= i < |steps| ==> Inside(steps[i])
    ensures Entries(s, steps, status) == []
    decreases |steps|
  {
    if steps != [] { InsideRecordsNothing(Next(s, steps[0], status), steps[1..], status); }
  }

  lemma TrimAgain(a: seq<Sheet>, b: seq<Sheet>)
    ensures Trim(Trim(a) + b) == Trim(a + b)
  {
    if |a| > LIMIT {
      assert a == a[..|a| - LIMIT] + Trim(a);
    }
  }

  lemma StepPushes(s: State, step: Step, status: nat)
    requires |s.undo| <= LIMIT && Recording(step)
    ensures Next(s, step, status).undo == Trim(s.undo + Recorded(s, step))
  {
    assert s.undo + [] == s.undo;
  }

  lemma PushAgain(stack: seq<Sheet>, now: seq<Sheet>, later: seq<Sheet>)
    ensures Trim(Trim(stack + now) + later) == Trim(stack + (now + later))
  {
    TrimAgain(stack + now, later);
    assert stack + now + later == stack + (now + later);
  }

  /** The undo stack holds the newest hundred of what was on it and what the steps have pushed. */
  lemma {:induction false} UndoHoldsEntries(s: State, steps: seq<Step>, status: nat)
    requires |s.undo| <= LIMIT && forall i :: 0 <= i < |steps| ==> Recording(steps[i])
    ensures Run(s, steps, status).undo == Trim(s.undo + Entries(s, steps, status))
    ensures |s.undo + Entries(s, steps, status)| >= 100 ==> |Run(s, steps, status).undo| == 100
    decreases |steps|
  {
    if steps == [] {
      assert s.undo + [] == s.undo;
    } else {
      var t := Next(s, steps[0], status);
      StepPushes(s, steps[0], status);
      UndoHoldsEntries(t, steps[1..], status);
      PushAgain(s.undo, Recorded(s, steps[0]), Entries(t, steps[1..], status));
    }
  }

  lemma OpeningRecords(s: State, pre: seq<Step>, differs: bool, status: nat)
    requires Inv(s, status) && s.open.None? && forall i :: 0 <= i < |pre| ==> Inside(pre[i])
    ensures var t := Run(s, Opening(pre, differs), status);
            Entries(s, Opening(pre, differs), status) == if differs || t.grid != s.grid then [s.grid] else []
  {
    var b := DoBegin(s);
    var rest := pre + [Commit(differs)];
    assert Opening(pre, differs)[0] == Begin && Opening(pre, differs)[1..] == rest;
    EntriesAppend(b, pre, [Commit(differs)], status);
    RunAppend(b, pre, [Commit(differs)], status);
    InsideRecordsNothing(b, pre, status);
    InsideOnlyEdits(b, pre, status);
    var m := Run(b, pre, status);
    assert [Commit(differs)][1..] == [];
    assert Entries(m, [Commit(differs)], status) == Recorded(m, Commit(differs));
    assert Run(m, [Commit(differs)], status) == DoCommit(m, differs);
  }

  /** A compound edit with anything nested in it: its first commit records the worksheet as it was, if it sees
      a difference, and what comes behind that commit records whatever is not quiet.  So a compound edit that
      changes something adds one entry exactly when the rest is quiet, and then one undo takes all of it back. */
  lemma NestedCompound(s: State, pre: seq<Step>, differs: bool, post: seq<Step>, last: bool, status: nat)
    requires Inv(s, status) && s.open.None?
    requires forall i :: 0 <= i < |pre| ==> Inside(pre[i])
    requires forall i :: 0 <= i < |post| ==> Recording(post[i])
    ensures var t := Run(s, Opening(pre, differs), status);
            var rest := post + [Commit(last)];
            var all := Opening(pre, differs) + rest;
            var added := Entries(s, all, status);
            var changed := differs || t.grid != s.grid;
            && Run(s, all, status).undo == Trim(s.undo + added)
            && added == (if changed then [s.grid] else []) + Entries(t, rest, status)
            && (changed ==> (|added| <= 1 <==> Quiet(t, rest, status)))
            && (!changed ==> (added == [] <==> Quiet(t, rest, status)))
            && (changed && Quiet(t, rest, status) ==> DoUndo(Run(s, all, status), status).grid == s.grid)
  {
    var t := Run(s, Opening(pre, differs), status);
    var rest := post + [Commit(last)];
    var all := Opening(pre, differs) + rest;
    EntriesAppend(s, Opening(pre, differs), rest, status);
    OpeningRecords(s, pre, differs, status);
    QuietRecordsNothing(t, rest, status);
    assert forall i :: 0 <= i < |all| ==> Recording(all[i]);
    UndoHoldsEntries(s, all, status);
    RestoreIsExact(s.grid, status);
  }

  /** With nothing between the inner commit and the outer one, as when images are pasted, one entry is added at
      most, and the outer commit does nothing. */
  lemma NothingBehindIsOneEntry(s: State, pre: seq<Step>, differs: bool, last: bool, status: nat)
    requires Inv(s, status) && s.open.None?
    requires forall i :: 0 <= i < |pre| ==> Inside(pre[i])
    ensures |Entries(s, Opening(pre, differs) + [Commit(last)], status)| <= 1
    ensures Run(s, Opening(pre, differs) + [Commit(last)], status) == Run(s, Opening(pre, differs), status)
  {
    var t := Run(s, Opening(pre, differs), status);
    CompoundIsOneEntry(s, pre, differs, status);
    NestedCompound(s, pre, differs, [], last, status);
    assert [] + [Commit(last)] == [Commit(last)] && [Commit(last)][1..] == [];
    RunAppend(s, Opening(pre, differs), [Commit(last)], status);
    assert DoCommit(t, last) == t;
    assert Quiet(t, [Commit(last)], status);
  }

  /** An edit behind the inner commit is an entry of its own. */
  lemma InnerCommitClosesOuter(s: State, first: seq<Row>, second: seq<Row>, third: seq<Row>, status: nat)
    requires Inv(s, status) && s.open.None?
    ensures var nested := [Begin, Edit(first), Begin, Edit(second), Commit(true), Edit(third), Commit(true)];
            Run(s, nested, status).undo == Trim(s.undo + [s.grid, s.grid.(rows := second)])
  {
    var pre := [Edit(first), Begin, Edit(second)];
    var nested := [Begin, Edit(first), Begin, Edit(second), Commit(true), Edit(third), Commit(true)];
    assert Opening(pre, true) + ([Edit(third)] + [Commit(true)]) == nested;
    BehindInnerCommit(s, first, second, pre, status);
    EditBehind(s, pre, third, nested, s.grid.(rows := second), status);
  }

  lemma EditBehind(s: State, pre: seq<Step>, third: seq<Row>, nested: seq<Step>, inner: Sheet, status: nat)
    requires Inv(s, status) && s.open.None? && forall i :: 0 <= i < |pre| ==> Inside(pre[i])
    requires nested == Opening(pre, true) + ([Edit(third)] + [Commit(true)])
    requires Run(s, Opening(pre, true), status).open.None? && Run(s, Opening(pre, true), status).last == inner
    ensures Run(s, nested, status).undo == Trim(s.undo + [s.grid, inner])
  {
    var rest := [Edit(third)] + [Commit(true)];
    NestedCompound(s, pre, true, [Edit(third)], true, status);
    EditThenCommit(Run(s, Opening(pre, true), status), third, rest, status);
    assert [s.grid] + [inner] == [s.grid, inner];
  }

  lemma BehindInnerCommit(s: State, first: seq<Row>, second: seq<Row>, pre: seq<Step>, status: nat)
    requires s.open.None? && pre == [Edit(first), Begin, Edit(second)]
    ensures var t := Run(s, Opening(pre, true), status);
            t.open.None? && t.last == s.grid.(rows := second)
  {
    RunInside(DoBegin(s), first, second, status);
    InsideThenCommit(s, pre, status);
  }

  lemma EditThenCommit(t: State, rows: seq<Row>, rest: seq<Step>, status: nat)
    requires t.open.None? && rest == [Edit(rows)] + [Commit(true)]
    ensures Entries(t, rest, status) == [t.last]
  {
    assert rest[1..] == [Commit(true)] && [Commit(true)][1..] == [];
    assert Entries(DoEdit(t, rows), [Commit(true)], status) == [];
  }

  lemma InsideThenCommit(s: State, pre: seq<Step>, status: nat)
    ensures Run(s, Opening(pre, true), status) == DoCommit(Run(DoBegin(s), pre, status), true)
  {
    assert Opening(pre, true)[0] == Begin && Opening(pre, true)[1..] == pre + [Commit(true)];
    RunAppend(DoBegin(s), pre, [Commit(true)], status);
    assert [Commit(true)][1..] == [];
  }

  lemma RunInside(s: State, first: seq<Row>, second: seq<Row>, status: nat)
    requires s.open.Some?
    ensures Run(s, [Edit(first), Begin, Edit(second)], status) == s.(grid := s.grid.(rows := second))
  {
    var steps := [Edit(first), Begin, Edit(second)];
    assert steps[1..] == [Begin, Edit(second)] && steps[1..][1..] == [Edit(second)] && [Edit(second)][1..] == [];
    var a := DoEdit(s, first);
    assert Run(DoBegin(a), [Edit(second)], status) == DoEdit(DoBegin(a), second);
    assert Run(a, steps[1..], status) == DoEdit(DoBegin(a), second);
  }

  // ----- the worksheet itself -----

  class SpreadsheetEntryGrid {
    const status: nat
    var grid: Sheet
    var undoStack: seq<Sheet>
    var redoStack: seq<Sheet>
    var lastSnapshot: Sheet
    var transaction: Option<Sheet>

    ghost function View(): State
      reads this
    {
      State(grid, undoStack, redoStack, lastSnapshot, transaction)
    }

    constructor (grid: Sheet, status: nat)
      ensures this.status == status && View() == Fresh(grid)
    {
      this.status, this.grid, undoStack, redoStack, lastSnapshot, transaction := status, grid, [], [], grid, None;
    }

    method Snapshot() returns (snapshot: Sheet)
      ensures snapshot == grid
    {
      snapshot := grid;
    }

    method RestoreSnapshot(snapshot: Sheet)
      modifies this`grid, this`lastSnapshot
      ensures grid == lastSnapshot == Restored(snapshot, status)
    {
      var hidden := [];
      for column := 0 to |snapshot.hiddenColumns|
        invariant |hidden| == column
        invariant forall i :: 0 <= i < column ==> hidden[i] == (snapshot.hiddenColumns[i] || i == status)
      {
        hidden := hidden + [snapshot.hiddenColumns[column] || column == status];
      }
      assert hidden == Restored(snapshot, status).hiddenColumns;
      grid := snapshot.(hiddenColumns := hidden);
      lastSnapshot := Snapshot();
    }

    /** A change of cells, followed by the recording that the change signal triggers. */
    method EditCells(rows: seq<Row>)
      modifies this
      ensures View() == DoEdit(old(View()), rows)
    {
      grid := grid.(rows := rows);
      RecordItemChange();
    }

    method RecordItemChange()
      modifies this`undoStack, this`redoStack, this`lastSnapshot
      ensures transaction.Some? ==> View() == old(View())
      ensures transaction.None? ==>
        View() == old(View()).(undo := Trim(old(undoStack) + [old(lastSnapshot)]), redo := [], last := grid)
    {
      if transaction.Some? {
        return;
      }
      undoStack := undoStack + [lastSnapshot];
      undoStack := Trim(undoStack);
      redoStack := [];
      lastSnapshot := Snapshot();
    }

    method BeginHistoryTransaction()
      modifies this`transaction
      ensures View() == DoBegin(old(View()))
    {
      if transaction.None? {
        var snapshot := Snapshot();
        transaction := Some(snapshot);
      }
    }

    method CommitHistoryTransaction(differs: bool)
      modifies this
      ensures View() == DoCommit(old(View()), differs)
    {
      if transaction.None? {
        return;
      }
      var before := transaction.value;
      transaction := None;
      var current := Snapshot();
      if differs || current != before {
        undoStack := undoStack + [before];
        undoStack := Trim(undoStack);
        redoStack := [];
      }
      lastSnapshot := current;
    }

    method SetSelectedColumnsHidden(columns: set<int>, hidden: bool, differs: bool)
      modifies this
      ensures View() == DoHide(old(View()), columns, hidden, differs, status)
    {
      if hidden && columns <= {status} {
        return;
      }
      BeginHistoryTransaction();
      grid := HideColumns(grid, columns, hidden, status);
      CommitHistoryTransaction(differs);
    }

    method UndoLast()
      modifies this
      ensures View() == DoUndo(old(View()), status)
    {
      if |undoStack| == 0 {
        return;
      }
      var current := Snapshot();
      redoStack := redoStack + [current];
      var snapshot := undoStack[|undoStack| - 1];
      undoStack := undoStack[..|undoStack| - 1];
      RestoreSnapshot(snapshot);
    }

    method RedoLast()
      modifies this
      ensures View() == DoRedo(old(View()), status)
    {
      if |redoStack| == 0 {
        return;
      }
      var current := Snapshot();
      undoStack := undoStack + [current];
      var snapshot := redoStack[|redoStack| - 1];
      redoStack := redoStack[..|redoStack| - 1];
      RestoreSnapshot(snapshot);
    }

    method ResetHistory()
      modifies this
      ensures View() == DoReset(old(View()))
    {
      undoStack, redoStack, transaction := [], [], None;
      lastSnapshot := Snapshot();
    }
  }
}
