/**
 The position variables of main.cpp (`iAngle`, `iTargetPosition`, `iNumbOffs`, `cNumb`) and everything that
 changes them: host commands carried out and infrared keys pressed.
 */
module ControlPanel {
  import opened Protocol
  import opened Position
  import opened Remote

  datatype PanelData = PanelData(angle: int, target: int, cursor: nat, digits: seq<nat>)

  /** The digit store has the three cells it is declared with, and the cursor points at one of them. */
  type Panel = p: PanelData | |p.digits| == 3 && p.cursor <= 2 witness PanelData(0, 0, 0, [0, 0, 0])

  const START: Panel := PanelData(0, 0, 0, [0, 0, 0])

  datatype Op = Execute(cmd: HostData) | Press(key: Key)

  /** The target follows the angle and the digit cursor moves on, whoever asks. */
  function Recalculated(p: Panel): Panel {
    p.(target := TargetOf(p.angle), cursor := if p.cursor < 2 then p.cursor + 1 else 0)
  }

  /** Direction 1 is clockwise, 2 counterclockwise; any other direction leaves the angle alone. */
  function Aimed(p: Panel, cmd: HostData): Panel {
    if cmd.direction == 1 then p.(angle := WholeDegrees(cmd.angularDistance))
    else if cmd.direction == 2 then p.(angle := WholeDegrees(-cmd.angularDistance))
    else p
  }

  function Apply(p: Panel, op: Op): Panel {
    match op
    case Execute(cmd) => if cmd.direction != 0 then Recalculated(Aimed(p, cmd)) else p
    case Press(Play) => p.(digits := [0, 0, 0], cursor := 0)
    case Press(Stop) => p.(digits := [0, 0, 0])
    case Press(Prev) => Recalculated(p.(angle := p.angle - 15))
    case Press(Next) => Recalculated(p.(angle := p.angle + 15))
    case Press(Digit(d)) => Recalculated(p.(digits := p.digits[p.cursor := d]))
    case Press(Sub10) => p.(target := p.target + 100000)
    case Press(_) => p
  }

  function ApplyAll(ops: seq<Op>): Panel {
    if ops == [] then START else Apply(ApplyAll(ops[..|ops| - 1]), ops[|ops| - 1])
  }

  // ---------- Counting over a history ----------

  /** The longest suffix without a reset. */
  function SinceLast(ops: seq<Op>, reset: Op -> bool): seq<Op> {
    if ops == [] || reset(ops[|ops| - 1]) then [] else SinceLast(ops[..|ops| - 1], reset) + [ops[|ops| - 1]]
  }

  function Count(ops: seq<Op>, test: Op -> bool): nat {
    if ops == [] then 0 else Count(ops[..|ops| - 1], test) + if test(ops[|ops| - 1]) then 1 else 0
  }

  lemma {:induction false} SinceLastIsSuffix(ops: seq<Op>, reset: Op -> bool)
    ensures var s := SinceLast(ops, reset);
      && |s| <= |ops| && ops[|ops| - |s|..] == s
      && (forall op <- s :: !reset(op))
      && (|s| < |ops| ==> reset(ops[|ops| - |s| - 1]))
  {
    if ops != [] && !reset(ops[|ops| - 1]) {
      var init := ops[..|ops| - 1];
      SinceLastIsSuffix(init, reset);
      var suffix := SinceLast(ops, reset);
      assert suffix == SinceLast(init, reset) + [ops[|ops| - 1]];
      hide SinceLast;
      assert ops == init + [ops[|ops| - 1]];
    }
  }

  /** Operations that call `calcTargetPosition`. */
  predicate Recalculates(op: Op) {
    match op
    case Execute(cmd) => cmd.direction != 0
    case Press(key) => key.Prev? || key.Next? || key.Digit?
  }

  predicate IsSub10(op: Op) {
    op == Press(Sub10)
  }

  predicate IsPlay(op: Op) {
    op == Press(Play)
  }

  /** Commands that set the angle. */
  predicate Aims(op: Op) {
    op.Execute? && (op.cmd.direction == 1 || op.cmd.direction == 2)
  }

  predicate IsPrev(op: Op) {
    op == Press(Prev)
  }

  predicate IsNext(op: Op) {
    op == Press(Next)
  }

  predicate Nudges(op: Op) {
    IsPrev(op) || IsNext(op)
  }

  /** The hundredths of a degree a command asks for, counterclockwise negative. */
  function Signed(cmd: HostData): int {
    if cmd.direction == 1 then cmd.angularDistance else if cmd.direction == 2 then -cmd.angularDistance else 0
  }

  /** The whole degrees the last aiming command asked for, 0 before any. */
  function LastAim(ops: seq<Op>): int {
    if ops == [] then 0
    else if Aims(ops[|ops| - 1]) then WholeDegrees(Signed(ops[|ops| - 1].cmd))
    else LastAim(ops[..|ops| - 1])
  }

  // ---------- Invariants of every history ----------

  lemma {:induction false} ApplyAppend(ops: seq<Op>, op: Op)
    ensures ApplyAll(ops + [op]) == Apply(ApplyAll(ops), op)
  {
    assert (ops + [op])[..|ops|] == ops;
  }

  /** One more operation either starts the count afresh or adds to it. */
  lemma CountSinceLast(ops: seq<Op>, reset: Op -> bool, test: Op -> bool)
    requires ops != []
    ensures var init, op := ops[..|ops| - 1], ops[|ops| - 1];
      Count(SinceLast(ops, reset), test) ==
      if reset(op) then 0 else Count(SinceLast(init, reset), test) + if test(op) then 1 else 0
  {
  }

  /** The target is always the angle's, plus 100000 for each SUB_10 pressed since it was last recalculated. */
  lemma {:induction false} TargetCoherent(ops: seq<Op>)
    ensures var p := ApplyAll(ops);
      p.target == TargetOf(p.angle) + 100000 * Count(SinceLast(ops, Recalculates), IsSub10)
  {
    if ops != [] {
      TargetCoherent(ops[..|ops| - 1]);
      CountSinceLast(ops, Recalculates, IsSub10);
      hide TargetOf;
      hide Count;
      hide SinceLast;
    }
  }

  lemma NextModuloThree(n: nat)
    ensures n % 3 <= 2 && (n + 1) % 3 == if n % 3 < 2 then n % 3 + 1 else 0
  {
  }

  /** The cursor counts the recalculations since the last PLAY, modulo 3. */
  lemma {:induction false} CursorCounts(ops: seq<Op>)
    ensures ApplyAll(ops).cursor == Count(SinceLast(ops, IsPlay), Recalculates) % 3
  {
    if ops != [] {
      CursorCounts(ops[..|ops| - 1]);
      CountSinceLast(ops, IsPlay, Recalculates);
      NextModuloThree(Count(SinceLast(ops[..|ops| - 1], IsPlay), Recalculates));
      hide TargetOf;
      hide Count;
      hide SinceLast;
    }
  }

  /** The angle field of every command is one the decoder can produce. */
  predicate AnglesDecoded(ops: seq<Op>) {
    forall op <- ops :: op.Execute? ==> -99999 <= op.cmd.angularDistance <= 99999
  }

  /** The angle is what the last aiming command asked for, 15 degrees on for each NEXT and back for each PREV since. */
  lemma {:induction false} AngleExact(ops: seq<Op>)
    ensures var since := SinceLast(ops, Aims);
      ApplyAll(ops).angle == LastAim(ops) + 15 * (Count(since, IsNext) - Count(since, IsPrev))
  {
    if ops != [] {
      AngleExact(ops[..|ops| - 1]);
      CountSinceLast(ops, Aims, IsNext);
      CountSinceLast(ops, Aims, IsPrev);
      hide TargetOf;
      hide WholeDegrees;
      hide Count;
      hide SinceLast;
    }
  }

  lemma {:induction false} NudgesSplit(ops: seq<Op>)
    ensures Count(ops, Nudges) == Count(ops, IsNext) + Count(ops, IsPrev)
  {
    if ops != [] {
      NudgesSplit(ops[..|ops| - 1]);
    }
  }

  lemma {:induction false} LastAimBounded(ops: seq<Op>)
    requires AnglesDecoded(ops)
    ensures -999 <= LastAim(ops) <= 999
  {
    if ops != [] {
      assert ops[|ops| - 1] in ops;
      LastAimBounded(ops[..|ops| - 1]);
    }
  }

  /** The angle stays within 999 degrees plus 15 for each PREV or NEXT since a command last set it. */
  lemma AngleBounded(ops: seq<Op>)
    requires AnglesDecoded(ops)
    ensures var reach := 999 + 15 * Count(SinceLast(ops, Aims), Nudges);
      -reach <= ApplyAll(ops).angle <= reach
  {
    hide ApplyAll;
    hide Count;
    hide SinceLast;
    AngleExact(ops);
    LastAimBounded(ops);
    NudgesSplit(SinceLast(ops, Aims));
  }

  /** So the angle's target fits a 32-bit `int` for as long as at most 10300 nudges have piled up. */
  lemma TargetStaysInRange(ops: seq<Op>)
    requires AnglesDecoded(ops)
    requires Count(SinceLast(ops, Aims), Nudges) <= 10300
    ensures INT_MIN <= TargetOf(ApplyAll(ops).angle) <= INT_MAX
  {
    AngleBounded(ops);
    TargetFits(ApplyAll(ops).angle);
  }

  /** A run of digit keys. */
  function Typed(ds: seq<nat>): seq<Op> {
    seq(|ds|, i requires 0 <= i < |ds| => Press(Digit(ds[i])))
  }

  /** The cells hold the last three digits typed, each in its own cell, and 0 where none has been typed. */
  predicate ShowsTyped(p: Panel, ds: seq<nat>) {
    && p.cursor == |ds| % 3
    && (forall j :: 0 <= j < |ds| && |ds| <= j + 3 ==> p.digits[j % 3] == ds[j])
    && (forall i :: |ds| <= i < 3 ==> p.digits[i] == 0)
  }

  lemma TypeOne(p: Panel, ds: seq<nat>, d: nat)
    requires ShowsTyped(p, ds)
    ensures ShowsTyped(Apply(p, Press(Digit(d))), ds + [d])
  {
  }

  /** Typing digits after PLAY fills the cells round robin and never turns the speaker. */
  lemma {:induction false} TypedDigits(ops: seq<Op>, ds: seq<nat>)
    ensures var p := ApplyAll(ops + [Press(Play)] + Typed(ds));
      ShowsTyped(p, ds) && p.angle == ApplyAll(ops).angle
  {
    var start := ops + [Press(Play)];
    ApplyAppend(ops, Press(Play));
    hide TargetOf;
    hide ApplyAll;
    if ds == [] {
      assert start + Typed(ds) == start;
    } else {
      var n := |ds| - 1;
      TypedDigits(ops, ds[..n]);
      assert start + Typed(ds) == (start + Typed(ds[..n])) + [Press(Digit(ds[n]))];
      ApplyAppend(start + Typed(ds[..n]), Press(Digit(ds[n])));
      TypeOne(ApplyAll(start + Typed(ds[..n])), ds[..n], ds[n]);
      assert ds[..n] + [ds[n]] == ds;
    }
  }

  // ---------- The digit cells over any history ----------

  /** The operation sets every cell to 0. */
  predicate Clears(op: Op) {
    op == Press(Play) || op == Press(Stop)
  }

  /** The operation, done after `ops`, changes cell `i`. */
  predicate Touches(ops: seq<Op>, op: Op, i: nat) {
    Clears(op) || (op.Press? && op.key.Digit? && ApplyAll(ops).cursor == i)
  }

  /** What the operation puts into the cells it changes. */
  function Shown(op: Op): nat {
    if op.Press? && op.key.Digit? then op.key.value else 0
  }

  /** What cell `i` should show: what the last operation that touched it put there, 0 before any. */
  function Cell(ops: seq<Op>, i: nat): nat {
    if ops == [] then 0
    else
      var init, op := ops[..|ops| - 1], ops[|ops| - 1];
      if Touches(init, op, i) then Shown(op) else Cell(init, i)
  }

  /** Every cell shows the last digit typed into it, or 0 if PLAY or STOP came after, over any history. */
  lemma {:induction false} CellsShown(ops: seq<Op>, i: nat)
    requires i < 3
    ensures ApplyAll(ops).digits[i] == Cell(ops, i)
  {
    hide TargetOf;
    if ops != [] {
      CellsShown(ops[..|ops| - 1], i);
    }
  }
}
