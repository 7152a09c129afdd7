/** What the motor's position profile holds over whole runs, recoveries and failed profile reads included. */
module Profiles {
  import opened Options
  import opened Protocol
  import opened Motor
  import opened Remote
  import opened ControlPanel
  import opened Scheduler
  import Movements
  import Pilot

  // ---------- The steps that write the profile ----------

  /** The command a step carries out, if that moves the motor. */
  function Moving(st: State, e: Event): Option<HostData> {
    if e.Finish? && CanFinish(st) && Movements.MayDispatch(Offered(st), e.reached) && Offered(st).queue[0].direction != 0
    then Some(Offered(st).queue[0])
    else None
  }

  /** The idle function, between ticks, finds a reason to initialise the device again. */
  predicate Recovers(st: State, e: Event) {
    e.Idle? && !st.inbox.draining && (e.errorCode == Pilot.FAULT || e.deviceErrors != 0)
  }

  predicate Moves(st: State, e: Event) {
    Moving(st, e).Some?
  }

  predicate WritesVelocity(st: State, e: Event) {
    Recovers(st, e) || Moves(st, e)
  }

  function VelocityWritten(st: State, e: Event): Option<nat>
    requires WritesVelocity(st, e)
  {
    if Recovers(st, e) then Some(10000) else ToUnsigned(2 * Moving(st, e).value.speed)
  }

  /** The ramps are rewritten by a recovery, and by a moving command whose profile read fails. */
  predicate WritesRamps(st: State, e: Event) {
    Recovers(st, e) || (Moves(st, e) && e.read.Failed?)
  }

  function RampsWritten(st: State, e: Event): (nat, nat)
    requires WritesRamps(st, e)
  {
    if Recovers(st, e) then (1000, 2000) else (e.read.acceleration, e.read.deceleration)
  }

  lemma StepProfile(st: State, e: Event)
    ensures var p, q := st.pilot.motor.profile, Step(st, e).pilot.motor.profile;
      && q.velocity == (if WritesVelocity(st, e) then VelocityWritten(st, e) else p.velocity)
      && (q.acceleration, q.deceleration) ==
         (if WritesRamps(st, e) then RampsWritten(st, e) else (p.acceleration, p.deceleration))
  {
    hide Step;
    hide Offered;
    hide KeyOf;
    hide Apply;
    StepPilot(st, e);
  }

  // ---------- The last step of a kind ----------

  /** The number of events up to and including the last step of a run that satisfies `test`, 0 if there is none. */
  function LastStep(events: seq<Event>, test: (State, Event) -> bool): (k: nat)
    ensures k <= |events| && (k > 0 ==> test(Run(INIT, events[..k - 1]), events[k - 1]))
  {
    if events == [] then 0
    else
      var n := |events| - 1;
      if test(Run(INIT, events[..n]), events[n]) then n + 1
      else
        var k := LastStep(events[..n], test);
        assert k > 0 ==> events[..n][..k - 1] == events[..k - 1];
        k
  }

  lemma {:induction false} LastStepIsLast(events: seq<Event>, test: (State, Event) -> bool)
    ensures forall i :: LastStep(events, test) <= i < |events| ==> !test(Run(INIT, events[..i]), events[i])
  {
    hide Run;
    if events != [] {
      var n := |events| - 1;
      var init := events[..n];
      if !test(Run(INIT, init), events[n]) {
        LastStepIsLast(init, test);
        forall i | LastStep(init, test) <= i < |events|
          ensures !test(Run(INIT, events[..i]), events[i])
        {
          if i < n {
            assert init[..i] == events[..i];
          }
        }
      }
    }
  }

  // ---------- The profile of every run ----------

  /** The velocity is the one written last, by a recovery or by a moving command; 10000 if there was neither. */
  lemma {:induction false} VelocityLastWritten(events: seq<Event>)
    ensures var k := LastStep(events, WritesVelocity);
      Run(INIT, events).pilot.motor.profile.velocity ==
      if k == 0 then Some(10000) else VelocityWritten(Run(INIT, events[..k - 1]), events[k - 1])
  {
    hide Step;
    hide VelocityWritten;
    hide WritesVelocity;
    if events != [] {
      var n := |events| - 1;
      var init := events[..n];
      VelocityLastWritten(init);
      StepProfile(Run(INIT, init), events[n]);
      var k := LastStep(init, WritesVelocity);
      assert k > 0 ==> init[..k - 1] == events[..k - 1];
    }
  }

  /** The ramps are those written last, by a recovery or after a failed read; 1000 and 2000 if there was neither. */
  lemma {:induction false} RampsLastWritten(events: seq<Event>)
    ensures var k := LastStep(events, WritesRamps);
      var p := Run(INIT, events).pilot.motor.profile;
      (p.acceleration, p.deceleration) ==
      if k == 0 then (1000, 2000) else RampsWritten(Run(INIT, events[..k - 1]), events[k - 1])
  {
    hide Step;
    hide RampsWritten;
    hide WritesRamps;
    if events != [] {
      var n := |events| - 1;
      var init := events[..n];
      RampsLastWritten(init);
      StepProfile(Run(INIT, init), events[n]);
      var k := LastStep(init, WritesRamps);
      assert k > 0 ==> init[..k - 1] == events[..k - 1];
    }
  }

  predicate Nominal(p: Profile) {
    p.acceleration == 1000 && p.deceleration == 2000
  }

  /** The ramps are nominal exactly when the last step to write them was a recovery or left nominal values behind. */
  lemma {:induction false} RampsNominalIff(events: seq<Event>)
    ensures var k := LastStep(events, WritesRamps);
      Nominal(Run(INIT, events).pilot.motor.profile) <==>
      k == 0 || Recovers(Run(INIT, events[..k - 1]), events[k - 1]) || events[k - 1].read == Failed(1000, 2000)
  {
    hide Run;
    hide LastStep;
    hide Moves;
    hide Recovers;
    RampsLastWritten(events);
  }

  /** Every profile read succeeded. */
  predicate AllFetched(events: seq<Event>) {
    forall e <- events :: e.Finish? ==> e.read.Fetched?
  }

  predicate RampsNominal(m: MotorState) {
    && Nominal(m.profile)
    && (forall r <- m.log :: r.SetProfile? ==> Nominal(r.profile))
  }

  lemma {:induction false} StepRamps(st: State, e: Event)
    requires RampsNominal(st.pilot.motor) && (e.Finish? ==> e.read.Fetched?)
    ensures RampsNominal(Step(st, e).pilot.motor)
  {
    StepPilot(st, e);
    hide Step;
    hide Decode;
    hide KeyOf;
    hide Apply;
    hide Movements.Arrive;
  }

  /** The ramps stay at 1000 and 2000, in the profile and in everything ever written, while profile reads succeed. */
  lemma {:induction false} RampsStayNominal(events: seq<Event>)
    requires AllFetched(events)
    ensures RampsNominal(Run(INIT, events).pilot.motor)
  {
    if events != [] {
      var init, e := events[..|events| - 1], events[|events| - 1];
      assert e in events;
      RampsStayNominal(init);
      StepRamps(Run(INIT, init), e);
      hide Step;
    }
  }

  /** The speed of the last command that moved the motor. */
  function LastSpeed(ops: seq<Op>): Option<int> {
    if ops == [] then None
    else
      var op := ops[|ops| - 1];
      if op.Execute? && op.cmd.direction != 0 then Some(op.cmd.speed) else LastSpeed(ops[..|ops| - 1])
  }

  lemma StepLastSpeed(st: State, e: Event)
    ensures LastSpeed(Step(st, e).pilot.ops) ==
      if Moves(st, e) then Some(Moving(st, e).value.speed) else LastSpeed(st.pilot.ops)
  {
    hide Step;
    hide Offered;
    hide KeyOf;
    hide Apply;
    StepPilot(st, e);
    if e.Finish? && CanFinish(st) {
      if Movements.MayDispatch(Offered(st), e.reached) {
        LastSpeedAppend(st.pilot.ops, Execute(Offered(st).queue[0]));
      }
      LastSpeedAppend(Driven(st, e.reached, e.read).ops, Press(KeyOf(st.text, st.held)));
    }
    hide LastSpeed;
  }

  lemma LastSpeedAppend(ops: seq<Op>, op: Op)
    ensures LastSpeed(ops + [op]) == if op.Execute? && op.cmd.direction != 0 then Some(op.cmd.speed) else LastSpeed(ops)
  {
    assert (ops + [op])[..|ops|] == ops;
  }

  lemma {:induction false} LastSpeedIsLast(events: seq<Event>)
    ensures var k := LastStep(events, Moves);
      LastSpeed(Run(INIT, events).pilot.ops) ==
      if k == 0 then None else Some(Moving(Run(INIT, events[..k - 1]), events[k - 1]).value.speed)
  {
    hide Step;
    hide Moving;
    if events != [] {
      var n := |events| - 1;
      var init := events[..n];
      LastSpeedIsLast(init);
      StepLastSpeed(Run(INIT, init), events[n]);
      var k := LastStep(init, Moves);
      assert k > 0 ==> init[..k - 1] == events[..k - 1];
      hide LastSpeed;
    }
  }

  /** What the velocity should be by the commands alone: twice the last moving command's speed, 10000 before any. */
  function Commanded(ops: seq<Op>): Option<nat> {
    match LastSpeed(ops)
    case None => Some(10000)
    case Some(speed) => ToUnsigned(2 * speed)
  }

  /**
   The velocity is the last moving command's exactly when no recovery came after that command, or the command asked
   for the velocity a recovery restores.
   */
  lemma {:induction false} VelocityFollowsIff(events: seq<Event>)
    ensures var k := LastStep(events, WritesVelocity);
      var p := Run(INIT, events).pilot;
      p.motor.profile.velocity == Commanded(p.ops) <==>
      k == 0 || !Recovers(Run(INIT, events[..k - 1]), events[k - 1]) || Commanded(p.ops) == Some(10000)
  {
    hide Run;
    hide LastStep;
    hide Recovers;
    hide Moving;
    LastStepIsLast(events, WritesVelocity);
    LastStepIsLast(events, Moves);
    VelocityLastWritten(events);
    LastSpeedIsLast(events);
    hide LastSpeed;
    var k, j := LastStep(events, WritesVelocity), LastStep(events, Moves);
    assert j <= k;
  }

  /** Without recoveries the velocity is always the last moving command's. */
  lemma {:induction false} VelocityFollowsCommands(events: seq<Event>)
    requires forall e <- events :: e.Idle? ==> e.errorCode != Pilot.FAULT && e.deviceErrors == 0
    ensures var p := Run(INIT, events).pilot;
      p.motor.profile.velocity == Commanded(p.ops)
  {
    hide Run;
    hide LastStep;
    hide Commanded;
    hide Moves;
    VelocityFollowsIff(events);
    var k := LastStep(events, WritesVelocity);
    assert k > 0 ==> events[k - 1] in events;
  }
}
