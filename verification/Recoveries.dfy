/** What initialises the device, over whole runs and over the rounds of the main loop. */
module Recoveries {
  import opened Options
  import opened Protocol
  import opened Motor
  import opened Remote
  import opened ControlPanel
  import opened Scheduler
  import opened Rounds
  import Movements
  import Pilot

  /** The requests that belong neither to a command nor to a key, in order. */
  function Upkeep(log: seq<Request>): seq<Request> {
    if log == [] then []
    else
      var r := log[|log| - 1];
      Upkeep(log[..|log| - 1]) + if r.origin.Service? then [r] else []
  }

  /** An initialisation of the device with the profile it starts from. */
  const FRESH := [Initialise(Service), SetProfile(Service, Profile(Some(10000), 1000, 2000))]

  /** One initialisation for the error code 0x34000007 and one for a non-empty list of device errors. */
  function Repair(errorCode: nat, deviceErrors: nat): seq<Request> {
    (if errorCode == 0x3400_0007 then FRESH else []) + if deviceErrors > 0 then FRESH else []
  }

  /** What the idle events of a run ask for; the idle function never runs inside a drain. */
  function Repairs(events: seq<Event>): seq<Request> {
    if events == [] then []
    else
      var init, e := events[..|events| - 1], events[|events| - 1];
      Repairs(init) + if e.Idle? && !Run(INIT, init).inbox.draining then Repair(e.errorCode, e.deviceErrors) else []
  }

  lemma UpkeepAppend(log: seq<Request>, r: Request)
    ensures Upkeep(log + [r]) == Upkeep(log) + if r.origin.Service? then [r] else []
  {
  }

  lemma UpkeepAppendTwo(log: seq<Request>, r: Request, s: Request)
    requires r.origin == s.origin
    ensures Upkeep(log + [r, s]) == Upkeep(log) + if r.origin.Service? then [r, s] else []
  {
    hide Upkeep;
    UpkeepAppend(log, r);
    UpkeepAppend(log + [r], s);
    assert log + [r, s] == (log + [r]) + [s];
  }

  lemma CommandUpkeep(p: Pilot.Pilot, cmd: HostData, read: ProfileRead)
    ensures Upkeep(Pilot.CarryOut(p, cmd, read).motor.log) == Upkeep(p.motor.log)
  {
    hide Upkeep;
    hide Apply;
    var q := Pilot.CarryOut(p, cmd, read);
    if cmd.direction != 0 {
      var r, s := SetProfile(Command, q.motor.profile), MoveRelative(Command, q.panel.target);
      assert q.motor.log == p.motor.log + [r, s];
      UpkeepAppendTwo(p.motor.log, r, s);
    }
  }

  lemma KeyUpkeep(p: Pilot.Pilot, key: Key)
    ensures Upkeep(Pilot.ActOn(p, key).motor.log) == Upkeep(p.motor.log)
  {
    hide Upkeep;
    hide Apply;
    UpkeepAppend(p.motor.log, MoveRelative(Remote, p.panel.target));
    UpkeepAppend(p.motor.log, Halt(Remote));
  }

  lemma FreshUpkeep(log: seq<Request>)
    ensures Upkeep(log + FRESH) == Upkeep(log) + FRESH
  {
    hide Upkeep;
    UpkeepAppendTwo(log, FRESH[0], FRESH[1]);
    assert log + FRESH == log + [FRESH[0], FRESH[1]];
  }

  lemma RecoverUpkeep(p: Pilot.Pilot, errorCode: nat, deviceErrors: nat)
    ensures Upkeep(Pilot.Recover(p, errorCode, deviceErrors).motor.log) ==
            Upkeep(p.motor.log) + Repair(errorCode, deviceErrors)
  {
    hide Upkeep;
    var log := p.motor.log;
    Pilot.RecoveryRequests(p, errorCode, deviceErrors);
    var q := Pilot.Recover(p, errorCode, deviceErrors).motor.log;
    hide Pilot.Recover;
    FreshUpkeep(log);
    FreshUpkeep(log + FRESH);
    if errorCode == 0x3400_0007 && deviceErrors > 0 {
      assert q == (log + FRESH) + FRESH;
      assert Upkeep(log) + FRESH + FRESH == Upkeep(log) + Repair(errorCode, deviceErrors);
    } else {
      assert q == log + Repair(errorCode, deviceErrors);
      assert errorCode != 0x3400_0007 && deviceErrors == 0 ==> q == log;
      assert Repair(errorCode, deviceErrors) == if errorCode == 0x3400_0007 || deviceErrors > 0 then FRESH else [];
    }
  }

  lemma StepUpkeep(st: State, e: Event)
    ensures Upkeep(Step(st, e).pilot.motor.log) == Upkeep(st.pilot.motor.log) +
      if e.Idle? && !st.inbox.draining then Repair(e.errorCode, e.deviceErrors) else []
  {
    hide Upkeep;
    hide Repair;
    hide Step;
    hide KeyOf;
    hide Decode;
    hide Pilot.CarryOut;
    hide Pilot.ActOn;
    hide Pilot.Recover;
    StepPilot(st, e);
    if e.Finish? && CanFinish(st) {
      var offered := Offered(st);
      if Movements.MayDispatch(offered, e.reached) {
        CommandUpkeep(st.pilot, offered.queue[0], e.read);
      }
      KeyUpkeep(Driven(st, e.reached, e.read), KeyOf(st.text, st.held));
    } else if e.Idle? {
      RecoverUpkeep(st.pilot, e.errorCode, e.deviceErrors);
    }
  }

  /**
   In every run the device is initialised once at the start, once more for each idle event that reports the error code
   and once for each that finds device errors, and never by a command or a key.
   */
  lemma {:induction false} UpkeepLogged(events: seq<Event>)
    ensures Upkeep(Run(INIT, events).pilot.motor.log) == FRESH + Repairs(events)
  {
    hide Step;
    hide Repair;
    if events == [] {
      FreshUpkeep([]);
      assert Upkeep([]) == [];
      assert Pilot.READY.motor.log == [] + FRESH;
    } else {
      var init, e := events[..|events| - 1], events[|events| - 1];
      UpkeepLogged(init);
      StepUpkeep(Run(INIT, init), e);
      hide Upkeep;
    }
  }

  // ---------- Round by round ----------

  /** What the faults of the rounds ask for. */
  function RoundRepairs(rounds: seq<Round>): seq<Request> {
    if rounds == [] then []
    else
      var r := rounds[|rounds| - 1];
      RoundRepairs(rounds[..|rounds| - 1]) + Repair(r.errorCode, r.deviceErrors)
  }

  lemma {:induction false} QuietRepairs(events: seq<Event>, more: seq<Event>)
    requires forall e <- more :: !e.Idle?
    ensures Repairs(events + more) == Repairs(events)
  {
    hide Run;
    hide Repair;
    if more == [] {
      assert events + more == events;
    } else {
      var n := |more| - 1;
      assert more[n] in more;
      assert (events + more)[..|events| + n] == events + more[..n];
      QuietRepairs(events, more[..n]);
    }
  }

  lemma TickQuiet(waiting: nat, r: Round)
    ensures forall e <- CodePushes(r.codes) + TickEvents(waiting, r.arrivals, r.reached, r.read) :: !e.Idle?
  {
    hide DrainEvents;
    DrainOnlyPushesAndTakes(waiting, r.arrivals);
  }

  /** A round adds what its own fault asks for. */
  lemma RoundAdds(events: seq<Event>, waiting: nat, r: Round)
    requires
      !Run(INIT, events + CodePushes(r.codes) + TickEvents(waiting, r.arrivals, r.reached, r.read)).inbox.draining
    ensures Repairs(events + CodePushes(r.codes) + TickEvents(waiting, r.arrivals, r.reached, r.read)
                    + [Idle(r.errorCode, r.deviceErrors)]) == Repairs(events) + Repair(r.errorCode, r.deviceErrors)
  {
    TickQuiet(waiting, r);
    hide Run;
    hide Repair;
    hide CodePushes;
    hide TickEvents;
    var more := CodePushes(r.codes) + TickEvents(waiting, r.arrivals, r.reached, r.read);
    var all := events + CodePushes(r.codes) + TickEvents(waiting, r.arrivals, r.reached, r.read);
    assert all == events + more;
    QuietRepairs(events, more);
    var e := Idle(r.errorCode, r.deviceErrors);
    assert (all + [e])[..|all|] == all;
  }

  lemma NoRoundRepairs()
    ensures RoundRepairs([]) == []
  {
  }

  lemma RoundRepairsUnfolds(rounds: seq<Round>, i: nat)
    requires i < |rounds|
    ensures RoundRepairs(rounds[..i + 1]) == RoundRepairs(rounds[..i]) + Repair(rounds[i].errorCode, rounds[i].deviceErrors)
  {
    assert rounds[..i + 1][..i] == rounds[..i];
  }
}
