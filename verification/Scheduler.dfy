/**
 The whole controller as a state machine over atomic steps. The TCP thread and the infrared thread push at any
 time; the tick thread drains one host message per step, so pushes interleave with the drain; once it has seen
 the queue empty, the rest of the tick touches nothing the producers share. A step whose turn it is not leaves
 the state alone, so every sequence of events is a run and the theorems hold for every interleaving.
 */
module Scheduler {
  import opened Protocol
  import opened Motor
  import opened Remote
  import opened ControlPanel
  import Inbox
  import Movements
  import Pilot

  /**
   `held` and `acted` are `cTaste` and `old_cTaste`, `text` the infrared text of the tick under way. History:
   `texts` holds the text of every finished tick, `pressed` the keys acted on.
   */
  datatype State = State(
    inbox: Inbox.Inbox,
    irQueue: seq<string>,
    text: string,
    movements: Movements.Movements,
    pilot: Pilot.Pilot,
    held: Key,
    acted: Key,
    texts: seq<string>,
    pressed: seq<Key>)

  const INIT := State(Inbox.EMPTY, [], SILENCE, Movements.EMPTY, Pilot.READY, NoKey, NoKey, [], [])

  datatype Event =
    | PushTcp(msg: string)
    | PushIr(code: string)
    | Begin                                              // a tick drains the infrared queue
    | Pop                                                // a tick takes one host message
    | Finish(reached: bool, read: ProfileRead)           // a tick finds the host queue empty and does its work
    | Idle(errorCode: nat, deviceErrors: nat)         // the idle function between ticks

  /** The newest infrared code, or the text that stands for none. */
  function LastCode(irQueue: seq<string>): string {
    if irQueue == [] then SILENCE else irQueue[|irQueue| - 1]
  }

  /** The protocol part of a tick: the last message drained, unless empty, is decoded and accepted. */
  function Interpret(st: State): State {
    var raw := st.inbox.raw;
    st.(inbox := Inbox.Close(st.inbox),
        movements := if raw == "" then st.movements else Movements.Arrive(st.movements, Decode(raw, 0)))
  }

  /** The movement part of a tick: at most the head of the queue is carried out. */
  function Move(st: State, reached: bool, read: ProfileRead): State {
    if Movements.MayDispatch(st.movements, reached) then
      st.(movements := Movements.Dispatch(st.movements, reached),
          pilot := Pilot.CarryOut(st.pilot, st.movements.queue[0], read))
    else st
  }

  /** The infrared part of a tick: a key is acted on when it differs from the one acted on before. */
  function Listen(st: State): State {
    var key := KeyOf(st.text, st.held);
    var heard := st.(held := key, texts := st.texts + [st.text]);
    if key != st.acted then heard.(acted := key, pressed := st.pressed + [key], pilot := Pilot.ActOn(st.pilot, key))
    else heard
  }

  predicate CanFinish(st: State) {
    st.inbox.draining && st.inbox.queue == []
  }

  function Step(st: State, e: Event): State {
    match e
    case PushTcp(msg) => st.(inbox := Inbox.Push(st.inbox, msg))
    case PushIr(code) => st.(irQueue := st.irQueue + [code])
    case Begin =>
      if st.inbox.draining then st
      else st.(inbox := Inbox.Open(st.inbox), irQueue := [], text := LastCode(st.irQueue))
    case Pop =>
      if st.inbox.draining && st.inbox.queue != [] then st.(inbox := Inbox.Take(st.inbox)) else st
    case Finish(reached, read) =>
      if !CanFinish(st) then st
      else Listen(Move(Interpret(st), reached, read))
    case Idle(errorCode, deviceErrors) =>
      if st.inbox.draining then st else st.(pilot := Pilot.Recover(st.pilot, errorCode, deviceErrors))
  }

  function Run(st: State, events: seq<Event>): State {
    if events == [] then st else Step(Run(st, events[..|events| - 1]), events[|events| - 1])
  }

  lemma RunAppend(st: State, events: seq<Event>, e: Event)
    ensures Run(st, events + [e]) == Step(Run(st, events), e)
  {
    hide Step;
    assert (events + [e])[..|events|] == events;
  }

  lemma {:induction false} RunConcat(st: State, a: seq<Event>, b: seq<Event>)
    ensures Run(st, a + b) == Run(Run(st, a), b)
  {
    hide Step;
    if b == [] {
      assert a + b == a;
    } else {
      var n := |b| - 1;
      RunConcat(st, a, b[..n]);
      assert (a + b)[..|a + b| - 1] == a + b[..n];
    }
  }

  // ---------- What one step does ----------

  lemma StepInbox(st: State, e: Event)
    ensures Step(st, e).inbox ==
      match e
      case PushTcp(msg) => Inbox.Push(st.inbox, msg)
      case Begin => if st.inbox.draining then st.inbox else Inbox.Open(st.inbox)
      case Pop => if st.inbox.draining && st.inbox.queue != [] then Inbox.Take(st.inbox) else st.inbox
      case Finish(_, _) => if CanFinish(st) then Inbox.Close(st.inbox) else st.inbox
      case _ => st.inbox
  {
    hide Decode;
    hide KeyOf;
    hide Movements.Arrive;
    hide Movements.Dispatch;
    hide Pilot.CarryOut;
    hide Pilot.ActOn;
  }

  /** A tick does not get past its drain while a host message waits. */
  lemma DrainGoesOn(st: State, reached: bool, read: ProfileRead)
    ensures st.inbox.queue != [] ==> Step(st, Finish(reached, read)) == st
  {
    hide Interpret;
    hide Move;
    hide Listen;
  }

  /** The movement state a finishing tick dispatches from. */
  function Offered(st: State): Movements.Movements {
    if st.inbox.raw == "" then st.movements else Movements.Arrive(st.movements, Decode(st.inbox.raw, 0))
  }

  lemma StepMovements(st: State, e: Event)
    ensures Step(st, e).movements ==
      if e.Finish? && CanFinish(st) then Movements.Proceed(Offered(st), e.reached) else st.movements
  {
  }

  /** The pilot after the movement part of a finishing tick. */
  function Driven(st: State, reached: bool, read: ProfileRead): Pilot.Pilot {
    if Movements.MayDispatch(Offered(st), reached) then Pilot.CarryOut(st.pilot, Offered(st).queue[0], read)
    else st.pilot
  }

  lemma StepPilot(st: State, e: Event)
    ensures Step(st, e).pilot ==
      if e.Finish? && CanFinish(st) then
        var p := Driven(st, e.reached, e.read);
        var key := KeyOf(st.text, st.held);
        if key != st.acted then Pilot.ActOn(p, key) else p
      else if e.Idle? && !st.inbox.draining then Pilot.Recover(st.pilot, e.errorCode, e.deviceErrors)
      else st.pilot
  {
    hide Decode;
    hide KeyOf;
    hide Movements.Arrive;
    hide Movements.Dispatch;
    hide Pilot.CarryOut;
    hide Pilot.ActOn;
    hide Pilot.Recover;
  }

  // ---------- The invariant ----------

  /** The commands among the operations. */
  function Commands(ops: seq<Op>): seq<HostData> {
    if ops == [] then []
    else
      var op := ops[|ops| - 1];
      Commands(ops[..|ops| - 1]) + if op.Execute? then [op.cmd] else []
  }

  /** The keys among the operations. */
  function Presses(ops: seq<Op>): seq<Key> {
    if ops == [] then []
    else
      var op := ops[|ops| - 1];
      Presses(ops[..|ops| - 1]) + if op.Press? then [op.key] else []
  }

  lemma ProjectionsAppend(ops: seq<Op>, op: Op)
    ensures Commands(ops + [op]) == Commands(ops) + if op.Execute? then [op.cmd] else []
    ensures Presses(ops + [op]) == Presses(ops) + if op.Press? then [op.key] else []
  {
  }

  /** The three components agree on what was accepted and on what was done. */
  ghost predicate Linked(st: State) {
    && st.movements.arrived == st.inbox.accepted
    && Commands(st.pilot.ops) == st.movements.dispatched
    && Presses(st.pilot.ops) == st.pressed
  }

  /** Debouncing: the key held follows the texts, and the keys acted on are its changes. */
  ghost predicate Debounced(st: State) {
    && st.held == st.acted == HeldAfter(st.texts)
    && st.pressed == Destutter(Held(st.texts))
  }

  ghost predicate Inv(st: State) {
    && Inbox.Valid(st.inbox)
    && Movements.Valid(st.movements)
    && Pilot.Valid(st.pilot)
    && Linked(st)
    && Debounced(st)
  }

  lemma HeldAfterAppend(texts: seq<string>, text: string)
    ensures HeldAfter(texts + [text]) == KeyOf(text, HeldAfter(texts))
  {
    hide KeyOf;
    var more := texts + [text];
    assert more[..|more| - 1] == texts;
  }

  lemma HeldAppend(texts: seq<string>, text: string)
    ensures Held(texts + [text]) == Held(texts) + [HeldAfter(texts + [text])]
  {
    hide HeldAfter;
    var more := texts + [text];
    assert more[..|more| - 1] == texts;
  }

  lemma BeforeHeld(texts: seq<string>)
    ensures Before(Held(texts), |texts|) == HeldAfter(texts)
  {
    hide KeyOf;
    if texts != [] {
      var init := Held(texts[..|texts| - 1]);
      assert Held(texts) == init + [HeldAfter(texts)];
      hide Held;
      hide HeldAfter;
    }
  }

  lemma DestutterAppend(keys: seq<Key>, key: Key)
    ensures Destutter(keys + [key]) == Destutter(keys) + if key != Before(keys, |keys|) then [key] else []
  {
    var more := keys + [key];
    assert more[..|more| - 1] == keys;
    assert Before(more, |keys|) == Before(keys, |keys|);
  }

  lemma ListenInv(st: State)
    requires Pilot.Valid(st.pilot) && Linked(st) && Debounced(st)
    ensures var l := Listen(st);
      && Pilot.Valid(l.pilot) && Linked(l) && Debounced(l)
      && l.inbox == st.inbox && l.movements == st.movements
  {
    var key := KeyOf(st.text, st.held);
    HeldAfterAppend(st.texts, st.text);
    HeldAppend(st.texts, st.text);
    BeforeHeld(st.texts);
    DestutterAppend(Held(st.texts), key);
    Pilot.ActOnValid(st.pilot, key);
    ProjectionsAppend(st.pilot.ops, Press(key));
    hide KeyOf;
    hide Apply;
    hide Pilot.Valid;
    hide Destutter;
    hide Commands;
    hide Presses;
  }

  lemma MoveInv(st: State, reached: bool, read: ProfileRead)
    requires Movements.Poised(st.movements)
    requires Pilot.Valid(st.pilot) && Linked(st) && Debounced(st)
    ensures var m := Move(st, reached, read);
      && Movements.Valid(m.movements) && Pilot.Valid(m.pilot) && Linked(m) && Debounced(m)
      && m.inbox == st.inbox
  {
    Movements.ProceedValid(st.movements, reached);
    if Movements.MayDispatch(st.movements, reached) {
      var cmd := st.movements.queue[0];
      Pilot.CarryOutValid(st.pilot, cmd, read);
      ProjectionsAppend(st.pilot.ops, Execute(cmd));
    }
    hide Movements.Valid;
    hide Movements.Poised;
    hide Pilot.Valid;
    hide Destutter;
    hide Apply;
    hide Commands;
    hide Presses;
  }

  lemma InterpretInv(st: State)
    requires Inv(st) && CanFinish(st)
    ensures var i := Interpret(st);
      && Inbox.Valid(i.inbox)
      && Movements.Poised(i.movements)
      && Pilot.Valid(i.pilot) && Linked(i) && Debounced(i)
  {
    hide Decode;
    hide Inbox.Valid;
    hide Movements.Settled;
    hide Movements.Prompt;
    hide Pilot.Valid;
    hide Destutter;
    hide Commands;
    hide Presses;
    Inbox.CloseValid(st.inbox);
    Movements.ArrivePoised(st.movements, Decode(st.inbox.raw, 0));
  }

  lemma FinishInv(st: State, reached: bool, read: ProfileRead)
    requires Inv(st) && CanFinish(st)
    ensures Inv(Step(st, Finish(reached, read)))
  {
    hide Interpret;
    hide Move;
    hide Listen;
    hide Inbox.Valid;
    hide Movements.Valid;
    hide Movements.Poised;
    hide Pilot.Valid;
    hide Debounced;
    hide Linked;
    InterpretInv(st);
    var i := Interpret(st);
    MoveInv(i, reached, read);
    ListenInv(Move(i, reached, read));
  }

  lemma StepInv(st: State, e: Event)
    requires Inv(st)
    ensures Inv(Step(st, e))
  {
    match e {
      case PushTcp(msg) => Inbox.PushValid(st.inbox, msg);
      case PushIr(code) =>
      case Begin =>
        if !st.inbox.draining {
          Inbox.OpenValid(st.inbox);
        }
      case Pop =>
        if st.inbox.draining && st.inbox.queue != [] {
          Inbox.TakeValid(st.inbox);
        }
      case Finish(reached, read) =>
        if CanFinish(st) {
          FinishInv(st, reached, read);
        }
      case Idle(errorCode, deviceErrors) =>
        Pilot.RecoverValid(st.pilot, errorCode, deviceErrors);
    }
    hide Inbox.Valid;
    hide Movements.Valid;
    hide Pilot.Valid;
    hide Destutter;
    hide Listen;
    hide Move;
  }

  lemma InboxInit()
    ensures Inbox.Valid(Inbox.EMPTY)
  {
    hide Decode;
  }

  lemma MovementsInit()
    ensures Movements.Valid(Movements.EMPTY)
  {
  }

  lemma LinksInit()
    ensures Linked(INIT) && Debounced(INIT)
  {
    hide KeyOf;
  }

  lemma {:induction false} InitInv()
    ensures Inv(INIT)
  {
    hide Inbox.Valid;
    hide Movements.Valid;
    hide Pilot.Valid;
    hide Linked;
    hide Debounced;
    InboxInit();
    MovementsInit();
    Pilot.ReadyValid();
    LinksInit();
  }

  lemma {:induction false} RunKeepsInv(st: State, events: seq<Event>)
    requires Inv(st)
    ensures Inv(Run(st, events))
  {
    if events != [] {
      RunKeepsInv(st, events[..|events| - 1]);
      StepInv(Run(st, events[..|events| - 1]), events[|events| - 1]);
    }
    hide Inv;
    hide Step;
  }

  /** Every state the controller can reach, under any interleaving, satisfies the invariant. */
  lemma {:induction false} Reachable(events: seq<Event>)
    ensures Inv(Run(INIT, events))
  {
    InitInv();
    RunKeepsInv(INIT, events);
  }
}
