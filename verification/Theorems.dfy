/** What the controller guarantees over whole runs, for every interleaving of its producers with its ticks. */
module Theorems {
  import opened Options
  import opened Protocol
  import opened Position
  import opened Motor
  import opened Remote
  import opened ControlPanel
  import opened Selections
  import opened Scheduler
  import opened Arrivals
  import Inbox
  import Movements
  import Pilot

  // ---------- From text to movement ----------

  /** `at` names, in increasing order, the messages the commands are the decodings of. */
  ghost predicate Sources(at: seq<int>, pushed: seq<string>, cmds: seq<HostData>) {
    && |at| == |cmds|
    && (forall j :: 0 <= j < |at| ==> 0 <= at[j] < |pushed| && pushed[at[j]] != "" && cmds[j] == Decode(pushed[at[j]], 0))
    && (forall i, j :: 0 <= i < j < |at| ==> at[i] < at[j])
  }

  ghost function Composed(outer: seq<int>, inner: seq<int>): seq<int>
    requires forall j :: 0 <= j < |outer| ==> 0 <= outer[j] < |inner|
  {
    seq(|outer|, j requires 0 <= j < |outer| => inner[outer[j]])
  }

  lemma AcceptedSources(b: Inbox.Inbox)
    requires Inbox.Valid(b)
    ensures Sources(b.acceptedAt, b.pushed, b.accepted)
  {
  }

  lemma DispatchedSources(b: Inbox.Inbox, m: Movements.Movements)
    requires Inbox.Valid(b) && Movements.Valid(m) && m.arrived == b.accepted
    ensures |b.accepted| == |b.acceptedAt|
    ensures forall j :: 0 <= j < |m.dispatchedAt| ==> 0 <= m.dispatchedAt[j] < |b.acceptedAt|
    ensures Sources(Composed(m.dispatchedAt, b.acceptedAt), b.pushed, m.dispatched)
  {
  }

  /**
   End to end: the commands carried out are an in-order subsequence, each used at most once, of the decodings of
   the non-empty messages the host sent.
   */
  lemma EndToEnd(events: seq<Event>)
    ensures exists at :: Sources(at, Messages(events), Run(INIT, events).movements.dispatched)
  {
    hide Run;
    hide Decode;
    hide Inbox.Valid;
    Reachable(events);
    PushedAreMessages(events);
    var st := Run(INIT, events);
    hide Movements.Valid;
    hide Pilot.Valid;
    DispatchedSources(st.inbox, st.movements);
    var at := Composed(st.movements.dispatchedAt, st.inbox.acceptedAt);
    assert Sources(at, Messages(events), st.movements.dispatched);
  }

  /**
   Every message is in one place: still queued, or superseded by a later one of its tick, or held by the drain
   under way, or the last of its tick and empty, or the last of its tick and accepted.
   */
  ghost predicate MessagesAccounted(b: Inbox.Inbox) {
    && |b.takenIn| == |b.fates| <= |b.pushed| && b.queue == b.pushed[|b.fates|..]
    && (forall i :: 0 <= i < |b.fates| ==>
          (b.fates[i].Superseded? <==> i + 1 < |b.fates| && b.takenIn[i] == b.takenIn[i + 1]))
    && (forall i :: 0 <= i < |b.fates| && b.fates[i].Held? ==>
          b.draining && i + 1 == |b.fates| && b.raw == b.pushed[i])
    && (forall i :: 0 <= i < |b.fates| && b.fates[i].Blank? ==> b.pushed[i] == "")
    && (forall i :: 0 <= i < |b.fates| ==>
          (b.fates[i].Accepted? <==> b.pushed[i] != "" && !b.fates[i].Superseded? && !b.fates[i].Held?))
    && (forall i :: 0 <= i < |b.fates| ==> (b.fates[i].Accepted? <==> i in b.acceptedAt))
    && Sources(b.acceptedAt, b.pushed, b.accepted)
  }

  lemma InboxAccounted(b: Inbox.Inbox)
    requires Inbox.Valid(b)
    ensures MessagesAccounted(b)
  {
    hide Decode;
    AcceptedSources(b);
    hide Sources;
    forall i | 0 <= i < |b.fates|
      ensures b.fates[i] == Inbox.DueFate(b, i)
      ensures b.fates[i].Accepted? <==> i in b.acceptedAt
    {
      assert Inbox.IsAccepted(b)(i) <==> b.fates[i].Accepted?;
    }
  }

  /** Conservation of the messages pushed, in every reachable state; between ticks no message is held. */
  lemma {:induction false} MessagesConserved(events: seq<Event>)
    ensures var b := Run(INIT, events).inbox;
      && b.pushed == Messages(events)
      && MessagesAccounted(b) && (!b.draining ==> forall fate <- b.fates :: !fate.Held?)
  {
    Reachable(events);
    PushedAreMessages(events);
    InboxAccounted(Run(INIT, events).inbox);
    hide Run;
    hide Sources;
    hide Inv;
  }

  /**
   Conservation of commands: every accepted command is still queued, or was carried out, or was flushed, and a
   flushed one was displaced by a later accepted command that asked not to be queued.
   */
  lemma {:induction false} CommandsConserved(events: seq<Event>)
    ensures var st := Run(INIT, events);
      var m := st.movements;
      && m.arrived == st.inbox.accepted
      && |m.settled| <= |m.arrived| && m.queue == m.arrived[|m.settled|..]
      && Lists(m.dispatchedAt, |m.settled|, Movements.IsDispatched(m))
      && |m.dispatched| == |m.dispatchedAt|
      && (forall j :: 0 <= j < |m.dispatched| ==> m.dispatched[j] == m.arrived[m.dispatchedAt[j]])
      && (forall i :: 0 <= i < |m.settled| && m.settled[i].Flushed? ==> exists k :: Movements.FlushedBy(m, i, k))
  {
    Reachable(events);
    hide Run;
  }

  /** A command that is not to be queued is never lost and never waits: once accepted, it has been carried out. */
  lemma {:induction false} UnqueuedAlwaysCarriedOut(events: seq<Event>)
    ensures var m := Run(INIT, events).movements;
      forall k :: 0 <= k < |m.arrived| && !m.arrived[k].movQueued ==> k in m.dispatchedAt
  {
    Reachable(events);
    var m := Run(INIT, events).movements;
    hide Run;
    forall k | 0 <= k < |m.arrived| && !m.arrived[k].movQueued
      ensures k in m.dispatchedAt
    {
      assert Movements.Prompt(m, |m.arrived|);
      assert Movements.IsDispatched(m)(k);
    }
  }

  /** If every accepted message asked to be queued, nothing is lost and the order is first come, first served. */
  lemma {:induction false} QueuedTrafficIsFifo(events: seq<Event>)
    requires forall cmd <- Run(INIT, events).inbox.accepted :: cmd.movQueued
    ensures var st := Run(INIT, events);
      st.inbox.accepted == st.movements.dispatched + st.movements.queue
  {
    Reachable(events);
    Movements.QueuedTrafficIsFifo(Run(INIT, events).movements);
    hide Run;
  }

  // ---------- Ordering of dispatches ----------

  /** History only grows, and whatever is carried out later was not yet settled before. */
  ghost predicate Extends(a: Movements.Movements, b: Movements.Movements) {
    && a.arrived <= b.arrived
    && a.settled <= b.settled
    && a.dispatched <= b.dispatched
    && a.dispatchedAt <= b.dispatchedAt
    && a.gates <= b.gates
    && (forall j :: |a.dispatchedAt| <= j < |b.dispatchedAt| ==> b.dispatchedAt[j] >= |a.settled|)
  }

  lemma StepExtends(st: State, e: Event)
    ensures Extends(st.movements, Step(st, e).movements)
  {
    StepMovements(st, e);
    hide Step;
    hide Decode;
  }

  lemma ExtendsTransitive(a: Movements.Movements, b: Movements.Movements, c: Movements.Movements)
    requires Extends(a, b) && Extends(b, c)
    ensures Extends(a, c)
  {
  }

  lemma {:induction false} RunExtends(st: State, events: seq<Event>)
    ensures Extends(st.movements, Run(st, events).movements)
  {
    if events != [] {
      var init := events[..|events| - 1];
      RunExtends(st, init);
      StepExtends(Run(st, init), events[|events| - 1]);
      ExtendsTransitive(st.movements, Run(st, init).movements, Run(st, events).movements);
      hide Step;
      hide Extends;
    }
  }

  /** A command that is not queued is settled at once, and so is everything accepted before it. */
  lemma UnqueuedGoesFirst(m: Movements.Movements, cmd: HostData, reached: bool)
    requires Movements.Lossless(m) && !cmd.movQueued
    ensures var done := Movements.Proceed(Movements.Arrive(m, cmd), reached);
      && done.queue == []
      && done.dispatched == m.dispatched + [cmd]
      && done.dispatchedAt == m.dispatchedAt + [|m.arrived|]
      && |done.settled| == |done.arrived| == |m.arrived| + 1
  {
  }

  /**
   Flush barrier: when a tick ends its drain on a command that is not to be queued, that command is carried out
   in this very tick whatever the motor reports, nothing stays queued behind it, and nothing accepted before it
   is ever carried out afterwards.
   */
  lemma {:induction false} FlushBarrier(st: State, reached: bool, read: ProfileRead, later: seq<Event>)
    requires Inv(st) && CanFinish(st) && st.inbox.raw != "" && !Decode(st.inbox.raw, 0).movQueued
    ensures var done := Step(st, Finish(reached, read)).movements;
      var end := Run(Step(st, Finish(reached, read)), later).movements;
      && done.queue == []
      && done.dispatched == st.movements.dispatched + [Decode(st.inbox.raw, 0)]
      && done.dispatchedAt == st.movements.dispatchedAt + [|st.movements.arrived|]
      && |done.arrived| == |st.movements.arrived| + 1
      && done.dispatchedAt <= end.dispatchedAt
      && (forall j :: |done.dispatchedAt| <= j < |end.dispatchedAt| ==> end.dispatchedAt[j] >= |done.arrived|)
  {
    hide Decode;
    hide Step;
    hide Run;
    assert Movements.Lossless(st.movements);
    hide Inv;
    hide Movements.Proceed;
    StepMovements(st, Finish(reached, read));
    UnqueuedGoesFirst(st.movements, Decode(st.inbox.raw, 0), reached);
    RunExtends(Step(st, Finish(reached, read)), later);
  }

  // ---------- Gating ----------

  /**
   In any run at most one command is let through with the motor under way and no skip in force, and the override is
   kept for it: it is unspent for as long as there was none.
   */
  lemma {:induction false} ForcedAtMostOnce(events: seq<Event>)
    ensures var m := Run(INIT, events).movements;
      && |m.gates| == |m.dispatched|
      && (forall i, j :: 0 <= i < j < |m.gates| ==> !(Movements.Forced(m.gates[i]) && Movements.Forced(m.gates[j])))
      && (m.firstCall <==> forall j :: 0 <= j < |m.gates| ==> !Movements.Forced(m.gates[j]))
  {
    Reachable(events);
    hide Run;
  }

  lemma ProceedOnce(m: Movements.Movements, reached: bool)
    ensures |Movements.Proceed(m, reached).dispatched| == |m.dispatched| + if Movements.MayDispatch(m, reached) then 1 else 0
  {
  }

  /**
   A finishing tick carries out one command or none: one exactly when something is queued and the motor is ready,
   the newcomer skips the queue, or no command was ever forced through before. No other step carries out anything.
   */
  lemma OneDispatchPerTick(st: State, e: Event)
    requires Inv(st)
    ensures var after := |Step(st, e).movements.dispatched| - |st.movements.dispatched|;
      && 0 <= after <= 1
      && (after == 1 <==>
          e.Finish? && CanFinish(st) &&
          ((st.inbox.raw != "" && !Decode(st.inbox.raw, 0).movQueued) ||
           ((e.reached || Movements.NothingForced(st.movements)) && (st.movements.queue != [] || st.inbox.raw != ""))))
  {
    hide Step;
    hide Decode;
    hide Movements.Proceed;
    assert st.movements.skip ==> st.movements.queue == [];
    assert Movements.Gated(st.movements);
    hide Inv;
    hide Movements.NothingForced;
    StepMovements(st, e);
    if e.Finish? && CanFinish(st) {
      ProceedOnce(Offered(st), e.reached);
    }
  }

  /** No more commands are carried out than ticks finish. */
  lemma {:induction false} DispatchesWithinTicks(events: seq<Event>)
    ensures |Run(INIT, events).movements.dispatched| <= |Run(INIT, events).texts|
  {
    if events != [] {
      var init := events[..|events| - 1];
      DispatchesWithinTicks(init);
      Reachable(init);
      OneDispatchPerTick(Run(INIT, init), events[|events| - 1]);
      StepHearing(Run(INIT, init), events[|events| - 1]);
      hide Step;
      hide Inv;
    }
  }

  // ---------- Progress ----------

  /** The finished ticks of a run in which the motor reported its target reached. */
  function ReadyTicks(st: State, events: seq<Event>): nat {
    if events == [] then 0
    else
      var init, e := events[..|events| - 1], events[|events| - 1];
      ReadyTicks(st, init) + if e.Finish? && e.reached && CanFinish(Run(st, init)) then 1 else 0
  }

  function Min(a: int, b: int): int {
    if a <= b then a else b
  }

  /** `b` is `a` with `d` commands taken from the head of the queue and carried out, in order. */
  ghost predicate Advanced(a: Movements.Movements, b: Movements.Movements, d: int) {
    && 0 <= d <= |a.queue|
    && b.dispatched == a.dispatched + a.queue[..d]
    && b.queue == a.queue[d..]
  }

  /** The override was spent between the two states. */
  predicate Spent(a: Movements.Movements, b: Movements.Movements) {
    a.firstCall && !b.firstCall
  }

  /** One step that accepts nothing: the head of the queue is carried out when ready or by the override. */
  ghost predicate Quiet(a: Movements.Movements, b: Movements.Movements, ready: bool) {
    && (Spent(a, b) ==> !ready && a.queue != [])
    && (b.firstCall ==> a.firstCall)
    && Advanced(a, b, if a.queue != [] && (ready || Spent(a, b)) then 1 else 0)
  }

  lemma QuietProceed(m: Movements.Movements, reached: bool)
    requires m.skip ==> m.queue == []
    ensures Quiet(m, Movements.Proceed(m, reached), reached)
  {
  }

  lemma ProceedKeepsArrived(m: Movements.Movements, reached: bool)
    ensures Movements.Proceed(m, reached).arrived == m.arrived
  {
  }

  lemma NothingOffered(st: State)
    requires |Offered(st).arrived| == |st.movements.arrived|
    ensures Offered(st) == st.movements
  {
  }

  lemma QuietStep(st: State, e: Event)
    requires Inv(st) && Step(st, e).movements.arrived == st.movements.arrived
    ensures Quiet(st.movements, Step(st, e).movements, e.Finish? && e.reached && CanFinish(st))
  {
    hide Step;
    hide Offered;
    hide Movements.Proceed;
    assert st.movements.skip ==> st.movements.queue == [];
    hide Inv;
    StepMovements(st, e);
    if e.Finish? && CanFinish(st) {
      ProceedKeepsArrived(Offered(st), e.reached);
      NothingOffered(st);
      QuietProceed(st.movements, e.reached);
    }
  }

  /** Commands carried out after `r` ready ticks. */
  function Due(a: Movements.Movements, b: Movements.Movements, r: nat): int {
    Min(|a.queue|, r + if Spent(a, b) then 1 else 0)
  }

  lemma ProgressMore(a: Movements.Movements, b: Movements.Movements, c: Movements.Movements, r: nat, ready: bool)
    requires Advanced(a, b, Due(a, b, r)) && (b.firstCall ==> a.firstCall) && Quiet(b, c, ready)
    ensures Advanced(a, c, Due(a, c, r + if ready then 1 else 0)) && (c.firstCall ==> a.firstCall)
  {
  }

  lemma {:induction false} ProgressByFlag(st: State, events: seq<Event>)
    requires Inv(st) && Run(st, events).movements.arrived == st.movements.arrived
    ensures var m, n := st.movements, Run(st, events).movements;
      Advanced(m, n, Due(m, n, ReadyTicks(st, events))) && (n.firstCall ==> m.firstCall)
  {
    hide Step;
    hide Inv;
    hide CanFinish;
    hide Quiet;
    hide Due;
    if events == [] {
      NothingDue(st.movements);
    } else {
      var init, e := events[..|events| - 1], events[|events| - 1];
      var mid := Run(st, init);
      StretchKeepsArrived(st, init, e);
      hide Advanced;
      RunKeepsInv(st, init);
      ProgressByFlag(st, init);
      QuietStep(mid, e);
      var ready := e.Finish? && e.reached && CanFinish(mid);
      ProgressMore(st.movements, mid.movements, Step(mid, e).movements, ReadyTicks(st, init), ready);
    }
  }

  /** Among the commands carried out between the two states is one that was forced through. */
  ghost predicate ForcedSince(a: Movements.Movements, b: Movements.Movements) {
    exists j :: |a.gates| <= j < |b.gates| && Movements.Forced(b.gates[j])
  }

  lemma SpentIsForced(a: Movements.Movements, b: Movements.Movements)
    requires Movements.Gated(a) && Movements.Gated(b) && a.gates <= b.gates
    ensures Spent(a, b) <==> ForcedSince(a, b)
  {
    assert forall j :: 0 <= j < |a.gates| ==> a.gates[j] == b.gates[j];
  }

  /**
   Progress: over any stretch in which no message is accepted, the commands carried out are exactly the head of
   the queue, in order: one for each ready tick, and one more if the first-call override forced one through, as far
   as the queue goes.
   */
  lemma {:induction false} Progress(st: State, events: seq<Event>)
    requires Inv(st) && Run(st, events).movements.arrived == st.movements.arrived
    ensures var m, n := st.movements, Run(st, events).movements;
      Advanced(m, n, Min(|m.queue|, ReadyTicks(st, events) + if ForcedSince(m, n) then 1 else 0))
  {
    hide Run;
    hide ReadyTicks;
    ProgressByFlag(st, events);
    RunExtends(st, events);
    RunKeepsInv(st, events);
    assert Movements.Gated(st.movements) && Movements.Gated(Run(st, events).movements);
    hide Inv;
    hide Advanced;
    SpentIsForced(st.movements, Run(st, events).movements);
  }

  lemma NothingDue(m: Movements.Movements)
    ensures Advanced(m, m, Due(m, m, 0))
  {
  }

  lemma StretchKeepsArrived(st: State, init: seq<Event>, e: Event)
    requires Step(Run(st, init), e).movements.arrived == st.movements.arrived
    ensures Run(st, init).movements.arrived == st.movements.arrived
  {
    hide Step;
    hide Run;
    RunExtends(st, init);
    StepExtends(Run(st, init), e);
  }

  // ---------- Rejected messages ----------

  /** Carrying out the zero record asks nothing of the motor and leaves the position alone. */
  lemma ZeroIsIdle(p: Pilot.Pilot, read: ProfileRead)
    ensures Pilot.CarryOut(p, ZERO, read) == p.(ops := p.ops + [Execute(ZERO)])
  {
  }

  /** The log grows by exactly what the key calls for, and the rest of the motor stays as it is. */
  lemma ActOnLogs(p: Pilot.Pilot, key: Key)
    ensures var q := Pilot.ActOn(p, key);
      && q.motor == p.motor.(log := p.motor.log + Pilot.RequestsOf(p.panel, Press(key)))
      && q.panel == Apply(p.panel, Press(key))
      && (Pilot.RequestsOf(p.panel, Press(key)) == [] <==> key != Play && key != Stop)
  {
  }

  /**
   A non-empty message the decoder rejects throws away everything pending, is itself used up, and makes no motor
   call: what the tick asks of the motor, and does to the position, is exactly what a newly pressed key calls for.
   So the motor is left alone if and only if the key is not newly pressed or is neither PLAY nor STOP.
   */
  lemma {:induction false} RejectedMessageFlushes(st: State, reached: bool, read: ProfileRead)
    requires Inv(st) && CanFinish(st) && st.inbox.raw != "" && Decode(st.inbox.raw, 0) == ZERO
    ensures var after := Step(st, Finish(reached, read));
      var key := KeyOf(st.text, st.held);
      && after.movements.queue == []
      && after.movements.dispatched == st.movements.dispatched + [ZERO]
      && after.pilot.motor.log ==
         st.pilot.motor.log + (if key == st.acted then [] else Pilot.RequestsOf(st.pilot.panel, Press(key)))
      && after.pilot.motor.profile == st.pilot.motor.profile
      && after.pilot.panel == (if key == st.acted then st.pilot.panel else Apply(st.pilot.panel, Press(key)))
      && (after.pilot.motor == st.pilot.motor <==> key == st.acted || (key != Play && key != Stop))
  {
    hide Inv;
    hide Step;
    hide Decode;
    hide KeyOf;
    hide Apply;
    hide Pilot.ActOn;
    hide Pilot.RequestsOf;
    StepMovements(st, Finish(reached, read));
    StepPilot(st, Finish(reached, read));
    ZeroIsIdle(st.pilot, read);
    ActOnLogs(Driven(st, reached, read), KeyOf(st.text, st.held));
    var more := Pilot.RequestsOf(st.pilot.panel, Press(KeyOf(st.text, st.held)));
    assert more != [] ==> |st.pilot.motor.log + more| > |st.pilot.motor.log|;
  }

  lemma PlayText(previous: Key)
    ensures KeyOf("KEY_PLAY", previous) == Play
  {
    var text := "KEY_PLAY";
    assert OccursAt(text, TOKENS[0].0, 0);
    forall j | 0 < j < |TOKENS|
      ensures !Contains(text, TOKENS[j].0)
    {
      NotInPlay(TOKENS[j].0);
    }
    LastTokenWins(text, previous, 0);
  }

  /** A token that starts with a letter the text lacks, or like it and then differs, does not occur in it. */
  lemma NotInPlay(token: string)
    requires token != []
    requires token[0] !in "KEY_PLAY" || (token[0] == 'K' && |token| >= 5 && (|token| > 8 || token[4] != 'P'))
    ensures !Contains("KEY_PLAY", token)
  {
    forall i: nat
      ensures !OccursAt("KEY_PLAY", token, i)
    {
      if OccursAt("KEY_PLAY", token, i) {
        OccursHead("KEY_PLAY", token, i);
        assert false;
      }
    }
  }

  lemma OccursHead(s: string, token: string, i: nat)
    requires OccursAt(s, token, i) && token != []
    ensures s[i] == token[0] && (|token| >= 5 ==> s[i + 4] == token[4])
  {
  }

  /** The motor call is real: PLAY in the tick of a rejected message, in the first tick of the program. */
  lemma RejectionWithPlayMoves(msg: string, reached: bool, read: ProfileRead)
    requires 0 < |msg| < WIDTH
    ensures var st := Run(INIT, [PushTcp(msg), PushIr("KEY_PLAY"), Begin, Pop]);
      && CanFinish(st) && st.inbox.raw == msg && Decode(msg, 0) == ZERO
      && Step(st, Finish(reached, read)).pilot.motor.log == st.pilot.motor.log + [MoveRelative(Remote, 0)]
  {
    hide Run;
    hide Step;
    hide KeyOf;
    hide Inv;
    hide Pilot.READY;
    var events := [PushTcp(msg), PushIr("KEY_PLAY"), Begin, Pop];
    var st := Run(INIT, events);
    Reachable(events);
    FirstTakenIs(msg, "KEY_PLAY");
    FirstTakenRuns(msg, "KEY_PLAY");
    hide FirstTaken;
    DecodeLocal(msg, 0);
    hide Decode;
    PlayText(NoKey);
    RejectedMessageFlushes(st, reached, read);
    ReadyTarget();
  }

  lemma ReadyTarget()
    ensures Pilot.READY.panel.target == 0
  {
  }

  /** The first tick's state when it has taken the one message sent. */
  function FirstTaken(msg: string, code: string): State {
    Step(Step(Step(Step(INIT, PushTcp(msg)), PushIr(code)), Begin), Pop)
  }

  lemma FirstTakenIs(msg: string, code: string)
    ensures var st := FirstTaken(msg, code);
      && CanFinish(st) && st.inbox.raw == msg && st.text == code
      && st.held == st.acted == NoKey && st.pilot == INIT.pilot
  {
    var three := Step(Step(Step(INIT, PushTcp(msg)), PushIr(code)), Begin);
    assert three.inbox.queue == [msg];
  }

  lemma FirstTakenRuns(msg: string, code: string)
    ensures Run(INIT, [PushTcp(msg), PushIr(code), Begin, Pop]) == FirstTaken(msg, code)
  {
    hide Step;
    var one, two, three := [PushTcp(msg)], [PushTcp(msg), PushIr(code)], [PushTcp(msg), PushIr(code), Begin];
    RunAppend(INIT, [], PushTcp(msg));
    RunAppend(INIT, one, PushIr(code));
    RunAppend(INIT, two, Begin);
    RunAppend(INIT, three, Pop);
    assert [] + [PushTcp(msg)] == one;
    assert one + [PushIr(code)] == two && two + [Begin] == three;
    assert three + [Pop] == [PushTcp(msg), PushIr(code), Begin, Pop];
  }

  // ---------- Position ----------

  lemma {:induction false} ExecutedIsCommand(ops: seq<Op>, op: Op)
    requires op in ops && op.Execute?
    ensures op.cmd in Commands(ops)
  {
    var init, last := ops[..|ops| - 1], ops[|ops| - 1];
    assert ops == init + [last];
    if op == last {
      assert Commands(ops)[|Commands(init)|] == op.cmd;
    } else {
      ExecutedIsCommand(init, op);
      var j :| 0 <= j < |Commands(init)| && Commands(init)[j] == op.cmd;
      assert Commands(ops)[j] == op.cmd;
    }
  }

  lemma DispatchedDecoded(st: State, cmd: HostData)
    requires Inv(st) && cmd in st.movements.dispatched
    ensures -99999 <= cmd.angularDistance <= 99999
  {
    hide Decode;
    var j :| 0 <= j < |st.movements.dispatched| && st.movements.dispatched[j] == cmd;
    var k := st.movements.dispatchedAt[j];
    var i := st.inbox.acceptedAt[k];
    assert cmd == Decode(st.inbox.pushed[i], 0);
    DecodeTotal(st.inbox.pushed[i], 0);
  }

  lemma OpsDecoded(st: State)
    requires Inv(st)
    ensures AnglesDecoded(st.pilot.ops)
  {
    forall op | op in st.pilot.ops && op.Execute?
      ensures -99999 <= op.cmd.angularDistance <= 99999
    {
      ExecutedIsCommand(st.pilot.ops, op);
      assert Linked(st);
      hide Inv;
      DispatchedDecoded(st, op.cmd);
    }
  }

  /**
   In every reachable state the target is the angle's plus 100000 per SUB_10 press since it was last recalculated,
   the digit cursor counts the recalculations since PLAY modulo 3, the angle is what the last aiming command asked
   for and 15 degrees more or less per nudge since, so within 999 degrees plus 15 per nudge, and its target fits an
   `int` while those nudges number at most 10300.
   */
  lemma {:induction false} PositionCoherent(events: seq<Event>)
    ensures var p := Run(INIT, events).pilot;
      var since := SinceLast(p.ops, Aims);
      var nudges := Count(since, Nudges);
      && p.panel.target == TargetOf(p.panel.angle) + 100000 * Count(SinceLast(p.ops, Recalculates), IsSub10)
      && p.panel.cursor == Count(SinceLast(p.ops, IsPlay), Recalculates) % 3
      && p.panel.angle == LastAim(p.ops) + 15 * (Count(since, IsNext) - Count(since, IsPrev))
      && -(999 + 15 * nudges) <= p.panel.angle <= 999 + 15 * nudges
      && (nudges <= 10300 ==> INT_MIN <= TargetOf(p.panel.angle) <= INT_MAX)
  {
    Reachable(events);
    var st := Run(INIT, events);
    hide Run;
    OpsDecoded(st);
    assert Pilot.Valid(st.pilot);
    hide Inv;
    TargetCoherent(st.pilot.ops);
    CursorCounts(st.pilot.ops);
    AngleExact(st.pilot.ops);
    AngleBounded(st.pilot.ops);
    TargetFits(st.pilot.panel.angle);
    hide Count;
    hide SinceLast;
    hide TargetOf;
    hide ApplyAll;
  }

  /**
   The keys acted on are those of the newest codes before each tick, with repetitions removed, and so never repeat
   themselves.
   */
  lemma {:induction false} KeysDebounced(events: seq<Event>)
    ensures var st := Run(INIT, events);
      && st.texts == Heard(events)
      && st.pressed == Destutter(Held(Heard(events))) == Presses(st.pilot.ops)
      && StutterFree(st.pressed)
      && st.held == HeldAfter(Heard(events))
  {
    Reachable(events);
    TextsAreHeard(events);
    DestutterStutterFree(Held(Heard(events)));
    hide Heard;
    hide Run;
    hide Destutter;
    hide Held;
    hide KeyOf;
  }

  // ---------- Motor ----------

  /** The motor is initialised before anything else is asked of it. */
  lemma {:induction false} InitialisedFirst(events: seq<Event>)
    ensures [Initialise(Service), SetProfile(Service, Profile(Some(10000), 1000, 2000))] <=
            Run(INIT, events).pilot.motor.log
  {
    if events != [] {
      hide Step;
      var init, e := events[..|events| - 1], events[|events| - 1];
      InitialisedFirst(init);
      LogGrows(Run(INIT, init), e);
    }
  }

  lemma LogGrows(st: State, e: Event)
    ensures st.pilot.motor.log <= Step(st, e).pilot.motor.log
  {
    hide Step;
    hide Offered;
    hide KeyOf;
    hide Apply;
    StepPilot(st, e);
  }

  /**
   PLAY and STOP act on the state the movement part of their tick leaves: PLAY moves by the target and clears the
   digits and their cursor, STOP halts and clears the digits only.
   */
  lemma PlayAndStop(st: State, reached: bool, read: ProfileRead)
    requires CanFinish(st)
    ensures var key := KeyOf(st.text, st.held);
      var p, q := Driven(st, reached, read), Step(st, Finish(reached, read)).pilot;
      && (key == Play && st.acted != Play ==>
            && q.motor.log == p.motor.log + [MoveRelative(Remote, p.panel.target)]
            && q.panel == p.panel.(digits := [0, 0, 0], cursor := 0))
      && (key == Stop && st.acted != Stop ==>
            && q.motor.log == p.motor.log + [Halt(Remote)]
            && q.panel == p.panel.(digits := [0, 0, 0]))
  {
    hide Step;
    hide Driven;
    hide KeyOf;
    StepPilot(st, Finish(reached, read));
  }

  /**
   What reaches the motor, apart from recoveries, is determined by the commands and keys acted on; every move for a
   command comes directly after that command's speed; and the counts moved for commands, less those that repeat an
   angle for want of a known direction, differ from what was asked for by at most 356869520 / 26100 (under 13674)
   counts for each command that sets the angle.
   */
  lemma {:induction false} MotorTraffic(events: seq<Event>)
    ensures var st := Run(INIT, events);
      var lost := NUM * Pilot.Asked(st.pilot.ops) - 26100 * (Pilot.Travel(st.pilot.motor.log) - Pilot.Repeated(st.pilot.ops));
      var aims := Count(st.pilot.ops, Aims);
      && Commands(st.pilot.ops) == st.movements.dispatched
      && Pilot.Outline(st.pilot.motor.log) == Pilot.Requests(st.pilot.ops)
      && Pilot.MovesPrepared(st.pilot.motor.log)
      && -356869520 * aims <= lost <= 356869520 * aims
  {
    hide Run;
    hide Pilot.Outline;
    hide Pilot.Requests;
    hide Pilot.Repeated;
    hide Pilot.Travel;
    hide Count;
    Reachable(events);
    Pilot.TravelError(Run(INIT, events).pilot);
  }

  /** PLAY pressed in the tick that carries out a moving command sends the speaker the same way a second time. */
  lemma PlayRepeatsCommand(st: State, reached: bool, read: ProfileRead, cmd: HostData)
    requires CanFinish(st) && Movements.MayDispatch(Offered(st), reached)
    requires cmd == Offered(st).queue[0] && cmd.direction != 0
    requires KeyOf(st.text, st.held).Play? && !st.acted.Play?
    ensures var counts := Apply(st.pilot.panel, Execute(cmd)).target;
      Step(st, Finish(reached, read)).pilot.motor.log == st.pilot.motor.log + [
        SetProfile(Command, WithSpeed(st.pilot.motor.profile, cmd.speed, read)),
        MoveRelative(Command, counts),
        MoveRelative(Remote, counts)]
  {
    hide Step;
    hide Offered;
    hide KeyOf;
    hide Apply;
    StepPilot(st, Finish(reached, read));
  }

  // ---------- Why a tick may be taken as one step ----------

  predicate IsPush(e: Event) {
    e.PushTcp? || e.PushIr?
  }

  predicate AllPushes(events: seq<Event>) {
    forall e <- events :: IsPush(e)
  }

  lemma InterpretCommutesOne(st: State, push: Event)
    requires IsPush(push)
    ensures Interpret(Step(st, push)) == Step(Interpret(st), push)
  {
    hide Decode;
    hide Movements.Arrive;
  }

  lemma MoveCommutesOne(st: State, reached: bool, read: ProfileRead, push: Event)
    requires IsPush(push)
    ensures Move(Step(st, push), reached, read) == Step(Move(st, reached, read), push)
  {
    hide Movements.Dispatch;
    hide Pilot.CarryOut;
  }

  lemma ListenCommutesOne(st: State, push: Event)
    requires IsPush(push)
    ensures Listen(Step(st, push)) == Step(Listen(st), push)
  {
    hide KeyOf;
    hide Pilot.ActOn;
  }

  lemma {:induction false} InterpretCommutes(st: State, pushes: seq<Event>)
    requires AllPushes(pushes)
    ensures Interpret(Run(st, pushes)) == Run(Interpret(st), pushes)
  {
    hide Interpret;
    hide Step;
    if pushes != [] {
      var init, push := pushes[..|pushes| - 1], pushes[|pushes| - 1];
      assert push in pushes;
      InterpretCommutes(st, init);
      InterpretCommutesOne(Run(st, init), push);
    }
  }

  lemma {:induction false} MoveCommutes(st: State, reached: bool, read: ProfileRead, pushes: seq<Event>)
    requires AllPushes(pushes)
    ensures Move(Run(st, pushes), reached, read) == Run(Move(st, reached, read), pushes)
  {
    hide Move;
    hide Step;
    if pushes != [] {
      var init, push := pushes[..|pushes| - 1], pushes[|pushes| - 1];
      assert push in pushes;
      MoveCommutes(st, reached, read, init);
      MoveCommutesOne(Run(st, init), reached, read, push);
    }
  }

  lemma {:induction false} ListenCommutes(st: State, pushes: seq<Event>)
    requires AllPushes(pushes)
    ensures Listen(Run(st, pushes)) == Run(Listen(st), pushes)
  {
    hide Listen;
    hide Step;
    if pushes != [] {
      var init, push := pushes[..|pushes| - 1], pushes[|pushes| - 1];
      assert push in pushes;
      ListenCommutes(st, init);
      ListenCommutesOne(Run(st, init), push);
    }
  }

  /**
   Once the drain has seen the queue empty, pushes that slip in at any point of the tick's work, before the message
   is interpreted, before the movement part or before the infrared part, have together the effect of the same
   pushes just after the tick.
   */
  lemma {:induction false} LatePushCommutes(
    st: State, reached: bool, read: ProfileRead, first: seq<Event>, second: seq<Event>, third: seq<Event>)
    requires CanFinish(st) && AllPushes(first) && AllPushes(second) && AllPushes(third)
    ensures Listen(Run(Move(Run(Interpret(Run(st, first)), second), reached, read), third)) ==
            Run(Step(st, Finish(reached, read)), first + second + third)
  {
    hide AllPushes;
    hide Run;
    hide Interpret;
    hide Move;
    hide Listen;
    var interpreted := Interpret(st);
    var moved := Move(interpreted, reached, read);
    InterpretCommutes(st, first);
    MoveCommutes(Run(interpreted, first), reached, read, second);
    MoveCommutes(interpreted, reached, read, first);
    ListenCommutes(Run(Run(moved, first), second), third);
    ListenCommutes(Run(moved, first), second);
    ListenCommutes(moved, first);
    RunConcat(Listen(moved), first, second);
    RunConcat(Listen(moved), first + second, third);
  }
}
