/**
 What moves the speaker: commands carried out (`vProcessMovement`), keys acted on, and faults recovered from
 (`IdleFunc`), each updating the position variables and making its requests of the motor.
 */
module Pilot {
  import opened Options
  import opened Protocol
  import opened Position
  import opened Motor
  import opened Remote
  import opened ControlPanel

  /** `panel` and `motor` are the program's; `ops` is the history of what was done. */
  datatype Pilot = Pilot(panel: Panel, motor: MotorState, ops: seq<Op>)

  const READY := Pilot(START, Initialised(MotorState(DEFAULT, []), Service), [])

  const FAULT := 0x34000007

  /** Direction 0 asks for no movement; any other direction sets the speed and moves. */
  function CarryOut(p: Pilot, cmd: HostData, read: ProfileRead): Pilot {
    var panel := Apply(p.panel, Execute(cmd));
    var motor :=
      if cmd.direction != 0
      then Moved(SpeedSet(p.motor, Command, cmd.speed, read), Command, panel.target)
      else p.motor;
    Pilot(panel, motor, p.ops + [Execute(cmd)])
  }

  function ActOn(p: Pilot, key: Key): Pilot {
    var motor :=
      if key.Play? then Moved(p.motor, Remote, p.panel.target)
      else if key.Stop? then Halted(p.motor, Remote)
      else p.motor;
    Pilot(Apply(p.panel, Press(key)), motor, p.ops + [Press(key)])
  }

  /** A particular error code and a non-empty device error list each initialise the device again. */
  function Recover(p: Pilot, errorCode: nat, deviceErrors: nat): Pilot {
    var once := if errorCode == FAULT then Initialised(p.motor, Service) else p.motor;
    p.(motor := if deviceErrors != 0 then Initialised(once, Service) else once)
  }

  /** The device is initialised again once for the error code 0x34000007 and once for a non-empty error list. */
  lemma RecoveryRequests(p: Pilot, errorCode: nat, deviceErrors: nat)
    ensures var again := [Initialise(Service), SetProfile(Service, Profile(Some(10000), 1000, 2000))];
      var q := Recover(p, errorCode, deviceErrors);
      && q.motor.log == p.motor.log
                        + (if errorCode == 0x3400_0007 then again else [])
                        + (if deviceErrors > 0 then again else [])
      && q.motor.profile == (if errorCode == 0x3400_0007 || deviceErrors > 0 then Profile(Some(10000), 1000, 2000)
                             else p.motor.profile)
      && q.panel == p.panel && q.ops == p.ops
  {
  }

  // ---------- The motor sees exactly what the history calls for ----------

  function RequestsOf(p: Panel, op: Op): seq<Request> {
    match op
    case Execute(cmd) =>
      if cmd.direction == 0 then []
      else [SetProfile(Command, Profile(ToUnsigned(2 * cmd.speed), 0, 0)), MoveRelative(Command, Apply(p, op).target)]
    case Press(Play) => [MoveRelative(Remote, p.target)]
    case Press(Stop) => [Halt(Remote)]
    case Press(_) => []
  }

  function Requests(ops: seq<Op>): seq<Request> {
    if ops == [] then []
    else
      var init := ops[..|ops| - 1];
      Requests(init) + RequestsOf(ApplyAll(init), ops[|ops| - 1])
  }

  function OutlineOf(r: Request): seq<Request> {
    if r.origin.Service? then []
    else if r.SetProfile? then [SetProfile(r.origin, Profile(r.profile.velocity, 0, 0))]
    else [r]
  }

  /** A log without the recoveries and without the ramps, which depend on what the device answers. */
  function Outline(log: seq<Request>): seq<Request> {
    if log == [] then [] else Outline(log[..|log| - 1]) + OutlineOf(log[|log| - 1])
  }

  /** A command's move comes directly after the setting of that command's speed. */
  predicate MovesPrepared(log: seq<Request>) {
    forall i :: 0 <= i < |log| && log[i].MoveRelative? && log[i].origin.Command? ==>
      i > 0 && log[i - 1].SetProfile? && log[i - 1].origin.Command?
  }

  ghost predicate Valid(p: Pilot) {
    && p.panel == ApplyAll(p.ops)
    && Outline(p.motor.log) == Requests(p.ops)
    && MovesPrepared(p.motor.log)
  }

  lemma OutlineAppend(log: seq<Request>, r: Request)
    ensures Outline(log + [r]) == Outline(log) + OutlineOf(r)
  {
  }

  lemma OutlineAppendTwo(log: seq<Request>, r: Request, s: Request)
    ensures Outline(log + [r, s]) == Outline(log) + OutlineOf(r) + OutlineOf(s)
  {
    OutlineAppend(log, r);
    OutlineAppend(log + [r], s);
    assert log + [r, s] == (log + [r]) + [s];
    hide OutlineOf;
  }

  lemma RequestsAppend(ops: seq<Op>, op: Op)
    ensures Requests(ops + [op]) == Requests(ops) + RequestsOf(ApplyAll(ops), op)
    ensures ApplyAll(ops + [op]) == Apply(ApplyAll(ops), op)
  {
  }

  lemma PreparedAppendTwo(log: seq<Request>, r: Request, s: Request)
    requires MovesPrepared(log) && !r.MoveRelative?
    requires s.MoveRelative? && s.origin.Command? ==> r.SetProfile? && r.origin.Command?
    ensures MovesPrepared(log + [r, s])
  {
  }

  lemma {:induction false} CarryOutValid(p: Pilot, cmd: HostData, read: ProfileRead)
    requires Valid(p)
    ensures Valid(CarryOut(p, cmd, read))
  {
    hide TargetOf;
    hide Outline;
    hide Requests;
    hide ApplyAll;
    hide MovesPrepared;
    var q := CarryOut(p, cmd, read);
    RequestsAppend(p.ops, Execute(cmd));
    if cmd.direction != 0 {
      var r := SetProfile(Command, q.motor.profile);
      var s := MoveRelative(Command, q.panel.target);
      OutlineAppendTwo(p.motor.log, r, s);
      PreparedAppendTwo(p.motor.log, r, s);
      assert q.motor.log == p.motor.log + [r, s];
    }
  }

  lemma PreparedAppend(log: seq<Request>, r: Request)
    requires MovesPrepared(log) && !r.origin.Command?
    ensures MovesPrepared(log + [r])
  {
  }

  lemma ActOnValid(p: Pilot, key: Key)
    requires Valid(p)
    ensures Valid(ActOn(p, key))
  {
    RequestsAppend(p.ops, Press(key));
    var r := if key.Play? then MoveRelative(Remote, p.panel.target) else Halt(Remote);
    OutlineAppend(p.motor.log, r);
    PreparedAppend(p.motor.log, r);
    hide TargetOf;
    hide Outline;
    hide Requests;
    hide ApplyAll;
    hide MovesPrepared;
  }

  lemma InitialisedValid(p: Pilot)
    requires Valid(p)
    ensures Valid(p.(motor := Initialised(p.motor, Service)))
  {
    OutlineAppendTwo(p.motor.log, Initialise(Service), SetProfile(Service, DEFAULT));
    PreparedAppendTwo(p.motor.log, Initialise(Service), SetProfile(Service, DEFAULT));
    hide Outline;
    hide Requests;
    hide ApplyAll;
    hide MovesPrepared;
  }

  lemma RecoverValid(p: Pilot, errorCode: nat, deviceErrors: nat)
    requires Valid(p)
    ensures Valid(Recover(p, errorCode, deviceErrors))
  {
    var once := if errorCode == FAULT then p.(motor := Initialised(p.motor, Service)) else p;
    InitialisedValid(p);
    InitialisedValid(once);
  }

  lemma ReadyValid()
    ensures Valid(READY)
  {
    var empty := Pilot(START, MotorState(DEFAULT, []), []);
    assert Valid(empty);
    InitialisedValid(empty);
  }

  // ---------- How far the speaker is sent ----------

  function Asked(ops: seq<Op>): int {
    if ops == [] then 0
    else
      var last := ops[|ops| - 1];
      Asked(ops[..|ops| - 1]) + if last.Execute? then Signed(last.cmd) else 0
  }

  /** The counts moved on behalf of host commands. */
  function Travel(log: seq<Request>): int {
    if log == [] then 0
    else
      var last := log[|log| - 1];
      Travel(log[..|log| - 1]) + if last.MoveRelative? && last.origin.Command? then last.counts else 0
  }

  lemma {:induction false} TravelConcat(a: seq<Request>, b: seq<Request>)
    ensures Travel(a + b) == Travel(a) + Travel(b)
  {
    if b == [] {
      assert a + b == a;
    } else {
      var init := b[..|b| - 1];
      TravelConcat(a, init);
      assert (a + b)[..|a + b| - 1] == a + init;
    }
  }

  lemma {:induction false} TravelOutline(log: seq<Request>)
    ensures Travel(Outline(log)) == Travel(log)
  {
    if log != [] {
      var init, last := log[..|log| - 1], log[|log| - 1];
      TravelOutline(init);
      var tail := OutlineOf(last);
      TravelConcat(Outline(init), tail);
      assert |tail| == 1 ==> tail[..0] == [];
    }
  }

  /** The counts of commands whose direction digit is none of 0, 1, 2: each repeats the angle already set. */
  function Repeated(ops: seq<Op>): int {
    if ops == [] then 0
    else
      var init, op := ops[..|ops| - 1], ops[|ops| - 1];
      Repeated(init) + if op.Execute? && op.cmd.direction > 2 then TargetOf(ApplyAll(init).angle) else 0
  }

  /** An unknown direction moves by the previous angle again, which is no move only if that angle is zero. */
  lemma UnknownDirectionRepeats(p: Panel, cmd: HostData)
    requires cmd.direction > 2
    ensures RequestsOf(p, Execute(cmd))[1..] == [MoveRelative(Command, TargetOf(p.angle))]
    ensures TargetOf(p.angle) == 0 <==> p.angle == 0
    ensures Apply(p, Execute(cmd)).angle == p.angle
  {
  }

  /** The command's own move: the exact counts of its angle, less under 0.99 degrees plus a count, never more. */
  lemma SingleMove(p: Panel, cmd: HostData)
    requires cmd.direction == 1 || cmd.direction == 2
    ensures var asked := if cmd.direction == 1 then cmd.angularDistance else -cmd.angularDistance;
      var counts := TargetOf(WholeDegrees(asked));
      && RequestsOf(p, Execute(cmd))[1..] == [MoveRelative(Command, counts)]
      && var lost := NUM * asked - 26100 * counts;
         -356869520 <= lost <= 356869520
         && (asked >= 0 ==> lost >= 0 && counts >= 0) && (asked <= 0 ==> lost <= 0 && counts <= 0)
  {
    hide TargetOf;
    hide WholeDegrees;
    MoveError(cmd.angularDistance);
    MoveError(-cmd.angularDistance);
  }

  lemma TravelOfPair(r: Request, counts: int)
    requires !r.MoveRelative?
    ensures Travel([r, MoveRelative(Command, counts)]) == counts
  {
    var rs := [r, MoveRelative(Command, counts)];
    assert rs[..1] == [r] && [r][..0] == [];
    assert Travel([r]) == 0;
  }

  lemma StepTravel(p: Panel, op: Op)
    ensures var asked := if op.Execute? then Signed(op.cmd) else 0;
      var repeated := if op.Execute? && op.cmd.direction > 2 then TargetOf(p.angle) else 0;
      var lost := NUM * asked - 26100 * (Travel(RequestsOf(p, op)) - repeated);
      if Aims(op) then -356869520 <= lost <= 356869520 else lost == 0
  {
    hide TargetOf;
    var rs := RequestsOf(p, op);
    if op.Execute? && op.cmd.direction != 0 {
      TravelOfPair(rs[0], rs[1].counts);
      assert rs == [rs[0], MoveRelative(Command, rs[1].counts)];
      if Aims(op) {
        SingleMove(p, op.cmd);
        assert rs[1..][0] == rs[1];
      }
    } else if |rs| == 1 {
      assert rs[..0] == [];
    }
  }

  /**
   Truncation errors add up, but by no more than one worst case for each command that aims: over any history the
   counts moved for commands, less those of unknown directions, are the counts asked for up to that bound.
   */
  lemma {:induction false} AccumulatedError(ops: seq<Op>)
    ensures var lost := NUM * Asked(ops) - 26100 * (Travel(Requests(ops)) - Repeated(ops));
      -356869520 * Count(ops, Aims) <= lost <= 356869520 * Count(ops, Aims)
  {
    if ops != [] {
      hide Travel;
      hide RequestsOf;
      hide ApplyAll;
      hide TargetOf;
      var init, op := ops[..|ops| - 1], ops[|ops| - 1];
      AccumulatedError(init);
      StepTravel(ApplyAll(init), op);
      TravelConcat(Requests(init), RequestsOf(ApplyAll(init), op));
    }
  }

  /** The same for the motor's own log, recoveries included, in any valid history. */
  lemma TravelError(p: Pilot)
    requires Valid(p)
    ensures var lost := NUM * Asked(p.ops) - 26100 * (Travel(p.motor.log) - Repeated(p.ops));
      -356869520 * Count(p.ops, Aims) <= lost <= 356869520 * Count(p.ops, Aims)
  {
    TravelOutline(p.motor.log);
    AccumulatedError(p.ops);
  }

  predicate DirectionsKnown(ops: seq<Op>) {
    forall op <- ops :: op.Execute? ==> op.cmd.direction <= 2
  }

  lemma {:induction false} NothingRepeated(ops: seq<Op>)
    requires DirectionsKnown(ops)
    ensures Repeated(ops) == 0
  {
    if ops != [] {
      assert ops[|ops| - 1] in ops;
      NothingRepeated(ops[..|ops| - 1]);
    }
  }

  /** With the protocol's directions only, nothing is repeated and the bound is on the moves themselves. */
  lemma {:induction false} KnownDirectionsRepeatNothing(ops: seq<Op>)
    requires DirectionsKnown(ops)
    ensures Repeated(ops) == 0
    ensures var lost := NUM * Asked(ops) - 26100 * Travel(Requests(ops));
      -356869520 * Count(ops, Aims) <= lost <= 356869520 * Count(ops, Aims)
  {
    NothingRepeated(ops);
    AccumulatedError(ops);
    hide Travel;
    hide Requests;
    hide Asked;
    hide Count;
  }

  function Turns(n: nat, cmd: HostData): seq<Op> {
    seq(n, i => Execute(cmd))
  }

  /** The bound is reached for every number of commands: 41.99 degrees clockwise, again and again. */
  lemma {:induction false} ErrorReached(n: nat, cmd: HostData)
    requires cmd.direction == 1 && cmd.angularDistance == 4199
    ensures var ops := Turns(n, cmd);
      && Count(ops, Aims) == n
      && NUM * Asked(ops) - 26100 * Travel(Requests(ops)) == 356869520 * n
  {
    if n > 0 {
      var ops, init := Turns(n, cmd), Turns(n - 1, cmd);
      assert ops[..n - 1] == init;
      ErrorReached(n - 1, cmd);
      var p := ApplyAll(init);
      var rs := RequestsOf(p, Execute(cmd));
      SingleMove(p, cmd);
      assert TargetOf(41) == 566220;
      TravelOfPair(rs[0], 566220);
      assert rs[1..][0] == rs[1];
      assert rs == [rs[0], MoveRelative(Command, 566220)];
      TravelConcat(Requests(init), rs);
      hide Travel;
      hide RequestsOf;
      hide ApplyAll;
    }
  }
}
