/** What every run keeps: the parked primary screen, the cursor bounds, the
    scrolling region, and mouse tracking as a machine of its own. */
module AltScreen {
  import opened Sequences
  import opened Cells
  import opened Screens

  // ---- the alternate-screen bracket --------------------------------------

  const ENTER := OpSetPrivateMode(PrivateMode.AltScreen)
  const LEAVE := OpUnsetPrivateMode(PrivateMode.AltScreen)

  /** `home` is the primary screen parked behind the alternate screen `s`. */
  predicate Parked(home: Screen, s: Screen) {
    && s.usingAlt && s.altGrid == Some(home.grid) && s.switchState == Some(SwitchOf(home))
    && s.rows == home.rows && s.cols == home.cols
    && s.exitCode == home.exitCode && s.exitDirty == home.exitDirty
  }

  predicate SameHistory(s: Screen, t: Screen) {
    s.scrollback == t.scrollback && s.log == t.log && s.capacity == t.capacity
  }

  /** Neither ED 3 nor a capacity change: the two operations that edit history. */
  predicate KeepsHistory(op: Op) {
    op != OpClearScreen(Saved) && !op.OpSetCapacity?
  }

  lemma StepStaysParked(home: Screen, s: Screen, op: Op)
    requires Inv(s) && Legal(op, s.rows) && Parked(home, s) && op != LEAVE
    ensures Parked(home, Step(s, op))
    ensures KeepsHistory(op) ==> SameHistory(s, Step(s, op))
  {
    if IsEdit(op) {
      EditStaysParked(home, s, EditStep(s, op));
    } else {
      StateStepStaysParked(home, s, op);
    }
  }

  lemma EditStaysParked(home: Screen, s: Screen, t: Screen)
    requires Parked(home, s) && Edits(s, t)
    ensures Parked(home, t) && SameHistory(s, t)
  {
  }

  lemma StateStepStaysParked(home: Screen, s: Screen, op: Op)
    requires Inv(s) && Legal(op, s.rows) && !IsEdit(op) && Parked(home, s) && op != LEAVE
    ensures Parked(home, StateStep(s, op))
    ensures KeepsHistory(op) ==> SameHistory(s, StateStep(s, op))
  {
  }

  lemma {:induction false} RunStaysParked(home: Screen, s: Screen, ops: seq<Op>)
    requires Inv(s) && AllLegal(ops, s.rows) && Parked(home, s) && LEAVE !in ops
    ensures Parked(home, Run(s, ops))
    ensures (forall op :: op in ops ==> KeepsHistory(op)) ==> SameHistory(s, Run(s, ops))
    decreases |ops|
  {
    if ops != [] {
      StepStaysParked(home, s, ops[0]);
      RunStaysParked(home, Step(s, ops[0]), ops[1..]);
    }
  }

  /** What is left of the inside of a bracket after leaving it. */
  function Returned(home: Screen, inside: Screen): Screen {
    home.(tabStops := inside.tabStops, insertMode := inside.insertMode, mouse := inside.mouse,
          scrollback := inside.scrollback, log := inside.log, capacity := inside.capacity)
  }

  lemma LeavingReturns(home: Screen, inside: Screen)
    requires Inv(home) && !home.usingAlt && Inv(inside) && Parked(home, inside)
    ensures Step(inside, LEAVE) == Returned(home, inside)
  {
  }

  lemma EnteringParks(home: Screen)
    requires Inv(home) && !home.usingAlt
    ensures Step(home, ENTER) == EnterAlt(home) && Parked(home, EnterAlt(home)) && SameHistory(home, EnterAlt(home))
  {
  }

  /** ESC[?1049h, any run that does not leave (nested 1049h and RIS included),
      ESC[?1049l: the primary screen is back exactly. Only state that is shared by
      both screens keeps what the run made of it, and history is untouched
      throughout unless ED 3 or a capacity change edits it. */
  lemma AltBracketRestoresPrimary(home: Screen, ops: seq<Op>)
    requires Inv(home) && !home.usingAlt && AllLegal(ops, home.rows) && LEAVE !in ops
    ensures AllLegal([ENTER] + ops + [LEAVE], home.rows)
    ensures Run(home, [ENTER] + ops + [LEAVE]) == Returned(home, Run(EnterAlt(home), ops))
    ensures (forall op :: op in ops ==> KeepsHistory(op)) ==>
              forall k :: 0 <= k <= |ops| ==> SameHistory(home, Run(EnterAlt(home), ops[..k]))
  {
    hide Inv, Step, EnterAlt, LeaveAlt, Returned, Parked, SameHistory;
    var alt := EnterAlt(home);
    EnteringParks(home);
    RunStaysParked(home, alt, ops);
    var inside := Run(alt, ops);
    LeavingReturns(home, inside);
    RunOne(home, ENTER);
    RunOne(inside, LEAVE);
    RunAppend(home, [ENTER], ops);
    RunAppend(home, [ENTER] + ops, [LEAVE]);
    if forall op :: op in ops ==> KeepsHistory(op) {
      forall k | 0 <= k <= |ops| ensures SameHistory(home, Run(alt, ops[..k])) {
        RunStaysParked(home, alt, ops[..k]);
        SameHistoryTrans(home, alt, Run(alt, ops[..k]));
      }
    }
  }

  lemma SameHistoryTrans(a: Screen, b: Screen, c: Screen)
    requires SameHistory(a, b) && SameHistory(b, c)
    ensures SameHistory(a, c)
  {
  }

  // ---- cursor bounds -----------------------------------------------------

  predicate CursorInside(c: Cursor, cols: nat) {
    c.col <= cols
  }

  /** Wrapping is on and every cursor, live or saved, is at most one past the last column. */
  predicate WrapInv(s: Screen) {
    && Inv(s) && 2 <= s.cols && s.modes.lineWrap && s.cursorCol <= s.cols
    && (s.savedCursor.Some? ==> CursorInside(s.savedCursor.value, s.cols))
    && (s.usingAlt ==>
          var w := s.switchState.value;
          CursorInside(w.cursor, s.cols) && w.modes.lineWrap
          && (w.savedCursor.Some? ==> CursorInside(w.savedCursor.value, s.cols)))
  }

  const WRAP_OFF := OpUnsetPrivateMode(PrivateMode.LineWrap)

  lemma StepKeepsWrapInv(s: Screen, op: Op)
    requires WrapInv(s) && Legal(op, s.rows) && op != WRAP_OFF
    ensures WrapInv(Step(s, op))
  {
    if IsEdit(op) {
      EditKeepsWrapInv(s, EditStep(s, op));
    } else {
      StateStepKeepsWrapInv(s, op);
    }
  }

  lemma EditKeepsWrapInv(s: Screen, t: Screen)
    requires WrapInv(s) && Inv(t) && Edits(s, t)
    ensures WrapInv(t)
  {
  }

  lemma StateStepKeepsWrapInv(s: Screen, op: Op)
    requires WrapInv(s) && Legal(op, s.rows) && !IsEdit(op) && op != WRAP_OFF
    ensures WrapInv(StateStep(s, op))
  {
    hide Inv, WithCharset, BlankGrid, Edits, SetPrivateMode, UnsetPrivateMode;
    if op.OpSetPrivateMode? {
      SetModeKeepsWrapInv(s, op.mode);
    } else if op.OpUnsetPrivateMode? {
      UnsetModeKeepsWrapInv(s, op.mode);
    }
  }

  lemma SetModeKeepsWrapInv(s: Screen, mode: PrivateMode)
    requires WrapInv(s)
    ensures WrapInv(SetPrivateMode(s, mode))
  {
    hide Inv, SetMouse, BlankGrid;
  }

  lemma UnsetModeKeepsWrapInv(s: Screen, mode: PrivateMode)
    requires WrapInv(s) && mode != PrivateMode.LineWrap
    ensures WrapInv(UnsetPrivateMode(s, mode))
  {
    hide Inv, UnsetMouse;
  }

  lemma {:induction false} WrapOnKeepsCursorInside(s: Screen, ops: seq<Op>)
    requires WrapInv(s) && AllLegal(ops, s.rows) && WRAP_OFF !in ops
    ensures WrapInv(Run(s, ops))
    decreases |ops|
  {
    if ops != [] {
      StepKeepsWrapInv(s, ops[0]);
      WrapOnKeepsCursorInside(Step(s, ops[0]), ops[1..]);
    }
  }

  /** The looser bound cols + 1 of the invariant is reached: by a wide character in
      the last column with wrapping off, and in a one-column terminal even with it on. */
  lemma WideCharPassesTheMarginIff(s: Screen, ch: char)
    requires Inv(s)
    ensures Print(s, ch, 2).cursorCol == s.cols + 1
            <==> s.cols == 1 || (!s.modes.lineWrap && s.cols <= s.cursorCol + 1)
  {
    var a := WrapPending(s);
    var b := WrapWide(a, 2);
    assert Print(s, ch, 2).cursorCol == b.cursorCol + 2;
  }

  /** DECSTBM clamps only the bottom, so it keeps the invariant exactly when the
      requested top is not below the resulting bottom. */
  lemma SetRegionKeepsInvariantIff(s: Screen, top: nat, bottom: Option<nat>)
    requires Inv(s)
    ensures Inv(SetRegion(s, top, bottom)) <==> Legal(OpSetRegion(top, bottom), s.rows)
  {
  }

  /** A request a program can send to a fresh 24-row terminal that breaks it. */
  lemma RegionTopIsNotClamped()
    ensures Inv(Fresh(24, 80)) && !Inv(SetRegion(Fresh(24, 80), 10, Some(3)))
  {
    SetRegionKeepsInvariantIff(Fresh(24, 80), 10, Some(3));
  }

  // ---- mouse tracking ----------------------------------------------------

  /** What one operation does to the mouse modes, whatever the rest of the state. */
  function MouseStep(m: Mouse, op: Op): Mouse {
    match op
    case OpSetPrivateMode(mode) => SetMouse(m, mode)
    case OpUnsetPrivateMode(mode) => UnsetMouse(m, mode)
    case OpReset => MOUSE_OFF
    case _ => m
  }

  function MouseRun(m: Mouse, ops: seq<Op>): Mouse
    decreases |ops|
  {
    if ops == [] then m else MouseRun(MouseStep(m, ops[0]), ops[1..])
  }

  lemma StepMouse(s: Screen, op: Op)
    requires Inv(s) && Legal(op, s.rows)
    ensures Step(s, op).mouse == MouseStep(s.mouse, op)
    ensures Step(s, op).exitCode == s.exitCode && Step(s, op).exitDirty == s.exitDirty
  {
    if IsEdit(op) {
      var t := EditStep(s, op);
      assert t.mouse == s.mouse && t.exitCode == s.exitCode && t.exitDirty == s.exitDirty;
    }
  }

  lemma {:induction false} RunMouse(s: Screen, ops: seq<Op>)
    requires Inv(s) && AllLegal(ops, s.rows)
    ensures Run(s, ops).mouse == MouseRun(s.mouse, ops)
    ensures Run(s, ops).exitCode == s.exitCode && Run(s, ops).exitDirty == s.exitDirty
    decreases |ops|
  {
    if ops != [] {
      StepMouse(s, ops[0]);
      RunMouse(Step(s, ops[0]), ops[1..]);
    }
  }
}
