/**
 main.cpp in its own form: global queues, flags and position variables updated in place by the two producers,
 the tick and the idle function. `Valid` ties the object to the state machine: at every moment its variables are
 those of the run its own trace of atomic steps describes, so every theorem about runs is one about the object.
 */
module Orbiter {
  import opened Protocol
  import opened Position
  import opened Motor
  import opened Remote
  import opened ControlPanel
  import opened Scheduler
  import opened Rounds
  import opened Recoveries
  import Inbox
  import Movements
  import Pilot
  import Arrivals
  import Theorems
  import Toolbox

  class Controller {
    var tcpQueue: seq<string>
    var irQueue: seq<string>
    var movementQueue: seq<HostData>
    var movementSkip: bool
    var firstCall: bool
    var angle: int
    var targetPosition: int
    var numbOffs: nat
    const numb: array<nat>
    var key: Key
    var oldKey: Key
    const motor: MaxonMotor

    ghost var model: State
    ghost var trace: seq<Event>

    ghost function PanelView(): PanelData
      reads this, numb
    {
      PanelData(angle, targetPosition, numbOffs, numb[..])
    }

    /** The program's variables are the model's. */
    ghost predicate Coupled()
      reads this, numb, motor
    {
      && numb.Length == 3 && numbOffs <= 2
      && model.inbox.queue == tcpQueue
      && model.irQueue == irQueue
      && model.movements.queue == movementQueue
      && model.movements.skip == movementSkip
      && model.movements.firstCall == firstCall
      && model.pilot.panel == PanelView()
      && model.pilot.motor == motor.View()
      && model.held == key
      && model.acted == oldKey
    }

    ghost predicate Valid()
      reads this, numb, motor
    {
      Coupled() && model == Run(INIT, trace)
    }

    constructor ()
      ensures Valid() && trace == [] && fresh(numb) && fresh(motor)
    {
      tcpQueue, irQueue, movementQueue := [], [], [];
      movementSkip, firstCall := false, true;
      angle, targetPosition, numbOffs := 0, 0, 0;
      numb := new nat[3](_ => 0);
      key, oldKey := NoKey, NoKey;
      motor := new MaxonMotor();
      model, trace := INIT, [];
      new;
      assert numb[..] == [0, 0, 0];
    }

    /** The TCP thread pushes whatever it received; an empty text stands for a lost connection. */
    method PushTcp(msg: string)
      requires Valid()
      modifies `tcpQueue, `model, `trace
      ensures Valid() && trace == old(trace) + [Event.PushTcp(msg)]
      ensures tcpQueue == old(tcpQueue) + [msg]
    {
      hide Run;
      RunAppend(INIT, trace, Event.PushTcp(msg));
      tcpQueue := tcpQueue + [msg];
      model := Step(model, Event.PushTcp(msg));
      trace := trace + [Event.PushTcp(msg)];
    }

    /** The infrared thread pushes a code. */
    method PushIr(code: string)
      requires Valid()
      modifies `irQueue, `model, `trace
      ensures Valid() && trace == old(trace) + [Event.PushIr(code)]
      ensures irQueue == old(irQueue) + [code]
    {
      hide Run;
      RunAppend(INIT, trace, Event.PushIr(code));
      irQueue := irQueue + [code];
      model := Step(model, Event.PushIr(code));
      trace := trace + [Event.PushIr(code)];
    }

    method EmptyIrQueue() returns (s: string)
      modifies `irQueue
      ensures irQueue == [] && s == LastCode(old(irQueue))
    {
      s := "xx";
      while irQueue != []
        invariant s == if irQueue == old(irQueue) then "xx" else LastCode(old(irQueue)[..|old(irQueue)| - |irQueue|])
        invariant |irQueue| <= |old(irQueue)| && irQueue == old(irQueue)[|old(irQueue)| - |irQueue|..]
        decreases |irQueue|
      {
        s := irQueue[0];
        irQueue := irQueue[1..];
      }
      assert old(irQueue)[..|old(irQueue)|] == old(irQueue);
    }

    /** The tick empties the infrared queue under its lock and keeps the newest code. */
    method DrainIr() returns (s: string)
      requires Valid() && !model.inbox.draining
      modifies `irQueue, `model, `trace
      ensures Valid() && trace == old(trace) + [Begin]
      ensures model.inbox.draining && model.inbox.raw == "" && model.text == s && model.texts == old(model.texts)
      ensures irQueue == [] && s == LastCode(old(irQueue))
    {
      hide Run;
      s := EmptyIrQueue();
      RunAppend(INIT, trace, Begin);
      model := Step(model, Begin);
      trace := trace + [Begin];
    }

    method Deliver(msgs: seq<string>)
      requires Valid()
      modifies `tcpQueue, `model, `trace
      ensures Valid() && trace == old(trace) + MessagePushes(msgs)
      ensures |tcpQueue| == |old(tcpQueue)| + |msgs|
      ensures model == old(model).(inbox := model.inbox)
      ensures model.inbox.draining == old(model.inbox.draining) && model.inbox.raw == old(model.inbox.raw)
    {
      hide Run;
      for i := 0 to |msgs|
        invariant Valid() && trace == old(trace) + MessagePushes(msgs[..i])
        invariant |tcpQueue| == |old(tcpQueue)| + i
        invariant model == old(model).(inbox := model.inbox)
        invariant model.inbox.draining == old(model.inbox.draining) && model.inbox.raw == old(model.inbox.raw)
      {
        Pushed(trace, msgs[i]);
        PushTcp(msgs[i]);
        assert MessagePushes(msgs[..i + 1]) == MessagePushes(msgs[..i]) + [Event.PushTcp(msgs[i])];
      }
      assert msgs[..|msgs|] == msgs;
    }

    lemma Pushed(t: seq<Event>, msg: string)
      ensures var a, b := Run(INIT, t), Run(INIT, t + [Event.PushTcp(msg)]);
        b == a.(inbox := b.inbox) && b.inbox.draining == a.inbox.draining && b.inbox.raw == a.inbox.raw
    {
      RunAppend(INIT, t, Event.PushTcp(msg));
      hide Run;
    }

    method TakeMessage() returns (raw: string)
      requires Valid() && model.inbox.draining && tcpQueue != []
      modifies `tcpQueue, `model, `trace
      ensures Valid() && trace == old(trace) + [Pop]
      ensures |tcpQueue| == |old(tcpQueue)| - 1
      ensures model == old(model).(inbox := model.inbox) && model.inbox.draining && model.inbox.raw == raw
    {
      hide Run;
      raw := tcpQueue[0];
      tcpQueue := tcpQueue[1..];
      RunAppend(INIT, trace, Pop);
      model := Step(model, Pop);
      trace := trace + [Pop];
    }

    /**
     The tick takes host messages one by one until it finds the queue empty and keeps the last one; the producer
     may push before every test. Nothing that was pushed is left behind.
     */
    method DrainTcp(arrivals: seq<seq<string>>) returns (raw: string)
      requires Valid() && model.inbox.draining && model.inbox.raw == ""
      modifies `tcpQueue, `model, `trace
      ensures Valid() && CanFinish(model) && model.inbox.raw == raw
      ensures tcpQueue == [] && |model.inbox.fates| == |model.inbox.pushed|
      ensures trace == old(trace) + DrainEvents(|old(tcpQueue)|, arrivals)
      ensures model == old(model).(inbox := model.inbox)
    {
      hide Run;
      hide Step;
      hide DrainEvents;
      hide MessagePushes;
      raw := "";
      var i := 0;
      while true
        invariant i <= |arrivals|
        invariant Valid() && model.inbox.draining && model.inbox.raw == raw
        invariant trace + DrainEvents(|tcpQueue|, arrivals[i..]) == old(trace) + DrainEvents(|old(tcpQueue)|, arrivals)
        invariant model == old(model).(inbox := model.inbox)
        decreases |arrivals| - i, |tcpQueue|
      {
        ghost var rest := arrivals[i..];
        DrainStep(trace, |tcpQueue|, rest);
        if i < |arrivals| {
          Deliver(arrivals[i]);
          i := i + 1;
          assert arrivals[i..] == rest[1..];
        }
        if tcpQueue == [] {
          break;
        }
        raw := TakeMessage();
      }
      NothingLeft(trace);
    }

    lemma NothingLeft(t: seq<Event>)
      ensures var b := Run(INIT, t).inbox; b.queue == [] ==> |b.fates| == |b.pushed|
    {
      Reachable(t);
      hide Run;
    }

    /** A message is decoded and queued; one that is not to be queued clears the queue first. */
    method InterpretMessage(raw: string)
      requires Coupled() && CanFinish(model) && model.inbox.raw == raw
      modifies `movementQueue, `movementSkip, `model
      ensures Coupled() && model == Interpret(old(model))
    {
      hide Decode;
      model := Interpret(model);
      if |raw| != 0 {
        var record := Toolbox.DecodeHostData(raw, 0);
        var hostData := record.Value();
        if hostData.movQueued {
          movementQueue := movementQueue + [hostData];
          movementSkip := false;
        } else {
          movementSkip := true;
          while movementQueue != []
            modifies `movementQueue
            decreases |movementQueue|
          {
            movementQueue := movementQueue[1..];
          }
          movementQueue := movementQueue + [hostData];
        }
      }
    }

    method CalcTargetPosition()
      requires numb.Length == 3 && numbOffs <= 2
      modifies `targetPosition, `numbOffs
      ensures PanelView() == Recalculated(old(PanelView()))
      ensures numbOffs <= 2
    {
      targetPosition := TargetOf(angle);
      if numbOffs < 2 {
        numbOffs := numbOffs + 1;
      } else {
        numbOffs := 0;
      }
    }

    /** `vProcessMovement`: the head of the queue is removed and carried out. */
    method ProcessMovement(read: ProfileRead, ghost before: Pilot.Pilot)
      requires numb.Length == 3 && numbOffs <= 2 && movementQueue != []
      requires before.panel == PanelView() && before.motor == motor.View()
      modifies `movementQueue, `angle, `targetPosition, `numbOffs, motor
      ensures numbOffs <= 2 && movementQueue == old(movementQueue)[1..]
      ensures var p := Pilot.CarryOut(before, old(movementQueue)[0], read);
        p.panel == PanelView() && p.motor == motor.View()
    {
      hide TargetOf;
      var hostData := movementQueue[0];
      movementQueue := movementQueue[1..];
      if hostData.direction == 1 {
        angle := WholeDegrees(hostData.angularDistance);
      }
      if hostData.direction == 2 {
        angle := WholeDegrees(-hostData.angularDistance);
      }
      if hostData.direction != 0 {
        CalcTargetPosition();
        motor.SetSpeed(Command, hostData.speed, read);
        motor.Move(Command, targetPosition);
      }
    }

    method ProcessMovements(reached: bool, read: ProfileRead)
      requires Coupled()
      modifies `movementQueue, `firstCall, `angle, `targetPosition, `numbOffs, `model, motor
      ensures Coupled() && model == Move(old(model), reached, read)
    {
      hide Pilot.CarryOut;
      if movementQueue != [] {
        if reached || movementSkip {
          ProcessMovement(read, model.pilot);
        } else if firstCall {
          firstCall := false;
          ProcessMovement(read, model.pilot);
        }
      }
      model := Move(model, reached, read);
    }

    method ClearDigits()
      requires numb.Length == 3
      modifies numb
      ensures numb[..] == [0, 0, 0]
    {
      for i := 0 to 3
        invariant forall j :: 0 <= j < i ==> numb[j] == 0
      {
        numb[i] := 0;
      }
    }

    /** The actions of a newly pressed key. */
    method ActOnKey(ghost before: Pilot.Pilot)
      requires numb.Length == 3 && numbOffs <= 2
      requires before.panel == PanelView() && before.motor == motor.View()
      modifies `angle, `targetPosition, `numbOffs, numb, motor
      ensures numbOffs <= 2
      ensures var p := Pilot.ActOn(before, key);
        p.panel == PanelView() && p.motor == motor.View()
    {
      hide TargetOf;
      if key == Play {
        motor.Move(Remote, targetPosition);
        ClearDigits();
        numbOffs := 0;
      }
      if key == Stop {
        motor.Halt(Remote);
        ClearDigits();
      }
      if key == Prev {
        angle := angle - 15;
        CalcTargetPosition();
      }
      if key == Next {
        angle := angle + 15;
        CalcTargetPosition();
      }
      if key.Digit? {
        numb[numbOffs] := key.value;
        CalcTargetPosition();
      }
      if key == Sub10 {
        targetPosition := targetPosition + 100000;
      }
    }

    /** The text is searched for key names; only a change of key has an effect. */
    method ProcessInfrared(s: string)
      requires Coupled() && model.text == s
      modifies `key, `oldKey, `angle, `targetPosition, `numbOffs, `model, numb, motor
      ensures Coupled() && model == Listen(old(model))
    {
      hide KeyOf;
      hide Pilot.ActOn;
      key := ScanKey(s, key);
      if oldKey != key {
        ActOnKey(model.pilot);
        oldKey := key;
      }
      model := Listen(model);
    }

    /** The rest of the tick, once the drain has seen the queue empty. */
    method FinishTick(raw: string, s: string, reached: bool, read: ProfileRead)
      requires Valid() && CanFinish(model) && model.inbox.raw == raw && model.text == s
      modifies `movementQueue, `movementSkip, `firstCall, `angle, `targetPosition, `numbOffs, `key, `oldKey
      modifies `model, `trace, numb, motor
      ensures Valid() && !model.inbox.draining && model.texts == old(model.texts) + [s]
      ensures trace == old(trace) + [Finish(reached, read)]
    {
      hide Run;
      hide Step;
      hide CanFinish;
      hide Interpret;
      hide Move;
      hide Listen;
      Finished(model, reached, read);
      RunAppend(INIT, trace, Finish(reached, read));
      InterpretMessage(raw);
      ProcessMovements(reached, read);
      ProcessInfrared(s);
      trace := trace + [Finish(reached, read)];
    }

    /** One tick. */
    method TimerFunc(arrivals: seq<seq<string>>, reached: bool, read: ProfileRead)
      requires Valid() && !model.inbox.draining
      modifies this, numb, motor
      ensures Valid() && !model.inbox.draining && tcpQueue == []
      ensures trace == old(trace) + TickEvents(|old(tcpQueue)|, arrivals, reached, read)
      ensures irQueue == [] && model.texts == old(model.texts) + [LastCode(old(irQueue))]
    {
      hide Run;
      hide Coupled;
      hide CanFinish;
      var s := DrainIr();
      var raw := DrainTcp(arrivals);
      FinishTick(raw, s, reached, read);
    }

    lemma Finished(st: State, reached: bool, read: ProfileRead)
      requires CanFinish(st)
      ensures var after := Step(st, Finish(reached, read));
        && !after.inbox.draining && after.texts == st.texts + [st.text]
        && after == Listen(Move(Interpret(st), reached, read))
        && Move(Interpret(st), reached, read).text == st.text
    {
      hide Decode;
      hide KeyOf;
      hide Pilot.CarryOut;
      hide Pilot.ActOn;
      hide Movements.Arrive;
      hide Movements.Dispatch;
    }

    /** The idle function: a fault initialises the device again. */
    method IdleFunc(errorCode: nat, deviceErrors: nat)
      requires Valid() && !model.inbox.draining
      modifies `model, `trace, motor
      ensures Valid() && !model.inbox.draining
      ensures trace == old(trace) + [Idle(errorCode, deviceErrors)]
      ensures model == old(model).(pilot := model.pilot)
    {
      hide Run;
      RunAppend(INIT, trace, Idle(errorCode, deviceErrors));
      if errorCode == Pilot.FAULT {
        motor.InitializeDevice(Origin.Service);
      }
      if deviceErrors != 0 {
        motor.InitializeDevice(Origin.Service);
      }
      model := Step(model, Idle(errorCode, deviceErrors));
      trace := trace + [Idle(errorCode, deviceErrors)];
    }

    method DeliverCodes(codes: seq<string>)
      requires Valid()
      modifies `irQueue, `model, `trace
      ensures Valid() && model == old(model).(irQueue := model.irQueue)
      ensures trace == old(trace) + CodePushes(codes) && irQueue == old(irQueue) + codes
    {
      hide Run;
      for i := 0 to |codes|
        invariant Valid() && model == old(model).(irQueue := model.irQueue)
        invariant trace == old(trace) + CodePushes(codes[..i]) && irQueue == old(irQueue) + codes[..i]
      {
        RunAppend(INIT, trace, Event.PushIr(codes[i]));
        PushIr(codes[i]);
        assert CodePushes(codes[..i + 1]) == CodePushes(codes[..i]) + [Event.PushIr(codes[i])];
      }
      assert codes[..|codes|] == codes;
    }

    /** One round: codes arrive, a tick runs against the round's arrivals, and the idle function follows. */
    method PlayRound(r: Round)
      requires Valid() && !model.inbox.draining
      modifies this, numb, motor
      ensures Valid() && !model.inbox.draining && tcpQueue == [] && irQueue == []
      ensures trace == old(trace) + CodePushes(r.codes) + TickEvents(|old(tcpQueue)|, r.arrivals, r.reached, r.read)
                       + [Idle(r.errorCode, r.deviceErrors)]
      ensures model.texts == old(model.texts) + [LastCode(old(irQueue) + r.codes)]
      ensures Repairs(trace) == Repairs(old(trace)) + Repair(r.errorCode, r.deviceErrors)
    {
      hide Run;
      hide Coupled;
      hide CodePushes;
      hide TickEvents;
      hide Repair;
      hide Repairs;
      hide LastCode;
      DeliverCodes(r.codes);
      TimerFunc(r.arrivals, r.reached, r.read);
      RoundAdds(old(trace), |old(tcpQueue)|, r);
      IdleFunc(r.errorCode, r.deviceErrors);
    }

    /**
     The main loop: round by round the codes arrive, a tick runs against the arrivals of that round, and the idle
     function follows. The trace is the script of the rounds; each tick worked on the newest code of its round, and the
     device was initialised for each fault reported and for nothing else. What was carried out and which keys were
     acted on is stated about what was pushed.
     */
    method MainLoop(rounds: seq<Round>)
      requires Valid() && !model.inbox.draining
      modifies this, numb, motor
      ensures Valid() && !model.inbox.draining
      ensures trace == old(trace) + Script(|old(tcpQueue)|, rounds)
      ensures Arrivals.Heard(trace) == Arrivals.Heard(old(trace)) + RoundTexts(old(irQueue), rounds)
      ensures Upkeep(motor.log) == Upkeep(old(motor.log)) + RoundRepairs(rounds)
      ensures exists at :: Theorems.Sources(at, Arrivals.Messages(trace), model.movements.dispatched)
      ensures |model.movements.dispatched| <= |Arrivals.Heard(trace)|
      ensures model.pressed == Destutter(Held(Arrivals.Heard(trace)))
    {
      hide Run;
      hide Coupled;
      hide CodePushes;
      hide TickEvents;
      hide Script;
      hide Repair;
      hide Repairs;
      hide RoundRepairs;
      hide RoundTexts;
      hide LastCode;
      hide Upkeep;
      hide Held;
      hide Destutter;
      hide Theorems.Sources;
      hide Arrivals.Heard;
      hide Arrivals.Messages;
      ScriptEmpty(|tcpQueue|);
      NoRoundRepairs();
      NoRoundTexts(irQueue);
      LoggedBy();
      for i := 0 to |rounds|
        invariant Valid() && !model.inbox.draining
        invariant |tcpQueue| == if i == 0 then |old(tcpQueue)| else 0
        invariant irQueue == if i == 0 then old(irQueue) else []
        invariant trace == old(trace) + Script(|old(tcpQueue)|, rounds[..i])
        invariant model.texts == old(model.texts) + RoundTexts(old(irQueue), rounds[..i])
        invariant Repairs(trace) == Repairs(old(trace)) + RoundRepairs(rounds[..i])
      {
        var r := rounds[i];
        ScriptUnfolds(|old(tcpQueue)|, rounds, i);
        RoundTextsUnfold(old(irQueue), rounds, i);
        RoundRepairsUnfolds(rounds, i);
        PlayRound(r);
      }
      assert rounds[..|rounds|] == rounds;
      Outcome(old(trace));
      Outcome(trace);
      LoggedBy();
    }

    /** The motor's log holds the initialisations the trace calls for. */
    lemma LoggedBy()
      requires Valid()
      ensures Upkeep(motor.log) == FRESH + Repairs(trace)
    {
      hide Run;
      hide Upkeep;
      hide Repairs;
      UpkeepLogged(trace);
    }

    /** What the theorems say of a trace. */
    lemma Outcome(t: seq<Event>)
      ensures var st := Run(INIT, t);
        && st.texts == Arrivals.Heard(t)
        && (exists at :: Theorems.Sources(at, Arrivals.Messages(t), st.movements.dispatched))
        && |st.movements.dispatched| <= |Arrivals.Heard(t)|
        && st.pressed == Destutter(Held(Arrivals.Heard(t)))
    {
      hide Run;
      hide Decode;
      Arrivals.TextsAreHeard(t);
      Theorems.EndToEnd(t);
      Theorems.DispatchesWithinTicks(t);
      Theorems.KeysDebounced(t);
    }
  }
}
