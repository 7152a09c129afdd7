/** What the outside world does, round by round of the main loop, and the steps of the machine it amounts to. */
module Rounds {
  import opened Motor
  import opened Scheduler
  import Arrivals

  /** What the outside world does during one round of the main loop. */
  datatype Round = Round(
    codes: seq<string>,            // infrared codes received before the tick
    arrivals: seq<seq<string>>,    // messages pushed just before each emptiness test of the drain
    reached: bool,                 // the motor's answer, if it is asked
    read: ProfileRead,             // the outcome of the profile read, if there is one
    errorCode: nat,
    deviceErrors: nat)

  /** The codes as pushes, in order. */
  function CodePushes(codes: seq<string>): seq<Event> {
    seq(|codes|, i requires 0 <= i < |codes| => Event.PushIr(codes[i]))
  }

  /** The messages as pushes, in order. */
  function MessagePushes(msgs: seq<string>): seq<Event> {
    seq(|msgs|, i requires 0 <= i < |msgs| => Event.PushTcp(msgs[i]))
  }

  /**
   A drain that starts with `waiting` messages in the queue: before each test the next arrivals are pushed, and as
   long as the queue is not empty then, a message is taken.
   */
  function DrainEvents(waiting: nat, arrivals: seq<seq<string>>): seq<Event>
    decreases |arrivals|, waiting
  {
    if arrivals == [] then
      if waiting == 0 then [] else [Pop] + DrainEvents(waiting - 1, [])
    else
      var more := waiting + |arrivals[0]|;
      MessagePushes(arrivals[0]) + if more == 0 then [] else [Pop] + DrainEvents(more - 1, arrivals[1..])
  }

  lemma DrainUnfolds(waiting: nat, arrivals: seq<seq<string>>)
    ensures arrivals == [] ==>
      DrainEvents(waiting, arrivals) == if waiting == 0 then [] else [Pop] + DrainEvents(waiting - 1, [])
    ensures arrivals != [] ==>
      var more := waiting + |arrivals[0]|;
      DrainEvents(waiting, arrivals) ==
      MessagePushes(arrivals[0]) + if more == 0 then [] else [Pop] + DrainEvents(more - 1, arrivals[1..])
  {
  }

  /** One test of a drain that has `before` behind it. */
  lemma DrainStep(before: seq<Event>, waiting: nat, arrivals: seq<seq<string>>)
    ensures var all := before + DrainEvents(waiting, arrivals);
      if arrivals == [] then
        all == if waiting == 0 then before else before + [Pop] + DrainEvents(waiting - 1, [])
      else
        var after, more := before + MessagePushes(arrivals[0]), waiting + |arrivals[0]|;
        all == if more == 0 then after else after + [Pop] + DrainEvents(more - 1, arrivals[1..])
  {
    hide DrainEvents;
    hide MessagePushes;
    DrainUnfolds(waiting, arrivals);
  }

  function TickEvents(waiting: nat, arrivals: seq<seq<string>>, reached: bool, read: ProfileRead): seq<Event> {
    [Begin] + DrainEvents(waiting, arrivals) + [Finish(reached, read)]
  }

  function RoundEvents(waiting: nat, r: Round): seq<Event> {
    CodePushes(r.codes) + TickEvents(waiting, r.arrivals, r.reached, r.read) + [Idle(r.errorCode, r.deviceErrors)]
  }

  /** Only the first round can find messages that were waiting before; every tick leaves the queue empty. */
  function Script(waiting: nat, rounds: seq<Round>): seq<Event> {
    if rounds == [] then []
    else
      var n := |rounds| - 1;
      Script(waiting, rounds[..n]) + RoundEvents(if n == 0 then waiting else 0, rounds[n])
  }

  lemma ScriptEmpty(waiting: nat)
    ensures Script(waiting, []) == []
  {
  }

  lemma ScriptUnfolds(waiting: nat, rounds: seq<Round>, i: nat)
    requires i < |rounds|
    ensures var r := rounds[i];
      Script(waiting, rounds[..i + 1]) ==
      Script(waiting, rounds[..i]) + CodePushes(r.codes)
      + TickEvents(if i == 0 then waiting else 0, r.arrivals, r.reached, r.read) + [Idle(r.errorCode, r.deviceErrors)]
    ensures rounds[..0] == []
  {
    hide CodePushes;
    hide TickEvents;
    assert rounds[..i + 1][..i] == rounds[..i];
  }

  /** The newest code of each round, or the text that stands for none; `waiting` are codes from before the first. */
  function RoundTexts(waiting: seq<string>, rounds: seq<Round>): seq<string> {
    seq(|rounds|, i requires 0 <= i < |rounds| => LastCode((if i == 0 then waiting else []) + rounds[i].codes))
  }

  lemma NoRoundTexts(waiting: seq<string>)
    ensures RoundTexts(waiting, []) == []
  {
  }

  lemma RoundTextsUnfold(waiting: seq<string>, rounds: seq<Round>, i: nat)
    requires i < |rounds|
    ensures RoundTexts(waiting, rounds[..i + 1]) ==
            RoundTexts(waiting, rounds[..i]) + [LastCode((if i == 0 then waiting else []) + rounds[i].codes)]
  {
  }

  /** The messages one after the other. */
  function Joined(groups: seq<seq<string>>): seq<string> {
    if groups == [] then [] else groups[0] + Joined(groups[1..])
  }

  /** How many of the arrivals come before the drain has seen the queue empty. */
  function Delivered(waiting: nat, arrivals: seq<seq<string>>): (k: nat)
    ensures k <= |arrivals|
    decreases |arrivals|
  {
    if arrivals == [] then 0
    else
      var more := waiting + |arrivals[0]|;
      if more == 0 then 1 else 1 + Delivered(more - 1, arrivals[1..])
  }

  function Pops(events: seq<Event>): nat {
    if events == [] then 0 else Pops(events[..|events| - 1]) + if events[|events| - 1].Pop? then 1 else 0
  }

  lemma {:induction false} PushesFirst(msgs: seq<string>, rest: seq<Event>)
    ensures Arrivals.Messages(MessagePushes(msgs) + rest) == msgs + Arrivals.Messages(rest)
    ensures Pops(MessagePushes(msgs) + rest) == Pops(rest)
  {
    var all := MessagePushes(msgs) + rest;
    if rest != [] {
      var n := |rest| - 1;
      PushesFirst(msgs, rest[..n]);
      assert all[..|msgs| + n] == MessagePushes(msgs) + rest[..n];
    } else if msgs != [] {
      var n := |msgs| - 1;
      PushesFirst(msgs[..n], []);
      assert all[..n] == MessagePushes(msgs[..n]) + [];
      assert msgs == msgs[..n] + [msgs[n]];
    }
  }

  lemma {:induction false} PopFirst(rest: seq<Event>)
    ensures Arrivals.Messages([Pop] + rest) == Arrivals.Messages(rest)
    ensures Pops([Pop] + rest) == 1 + Pops(rest)
  {
    var all := [Pop] + rest;
    if rest == [] {
      assert all[..0] == [];
    } else {
      var n := |rest| - 1;
      PopFirst(rest[..n]);
      assert all[..n + 1] == [Pop] + rest[..n];
    }
  }

  lemma JoinedNext(groups: seq<seq<string>>, k: nat)
    requires groups != [] && k + 1 <= |groups|
    ensures Joined(groups[..k + 1]) == groups[0] + Joined(groups[1..][..k])
  {
    assert groups[..k + 1][1..] == groups[1..][..k];
  }

  lemma DeliveredUnfolds(waiting: nat, arrivals: seq<seq<string>>)
    ensures Delivered(waiting, []) == 0 && Joined([]) == []
    ensures arrivals != [] ==>
      var more := waiting + |arrivals[0]|;
      Delivered(waiting, arrivals) == 1 + if more == 0 then 0 else Delivered(more - 1, arrivals[1..])
  {
  }

  /** A drain gets the first arrivals, in order. */
  lemma {:induction false} DrainDelivers(waiting: nat, arrivals: seq<seq<string>>)
    ensures Arrivals.Messages(DrainEvents(waiting, arrivals)) == Joined(arrivals[..Delivered(waiting, arrivals)])
    decreases |arrivals|, waiting
  {
    hide DrainEvents;
    hide Delivered;
    hide Joined;
    hide MessagePushes;
    DrainUnfolds(waiting, arrivals);
    DeliveredUnfolds(waiting, arrivals);
    if arrivals == [] {
      if waiting > 0 {
        DrainDelivers(waiting - 1, []);
        PopFirst(DrainEvents(waiting - 1, []));
      }
    } else {
      hide Arrivals.Messages;
      var first, others, more := arrivals[0], arrivals[1..], waiting + |arrivals[0]|;
      if more == 0 {
        PushesFirst(first, []);
        JoinedNext(arrivals, 0);
        NoMessages();
        assert first == [] && others[..0] == [];
      } else {
        DrainDelivers(more - 1, others);
        var rest := DrainEvents(more - 1, others);
        PushesFirst(first, [Pop] + rest);
        PopFirst(rest);
        JoinedNext(arrivals, Delivered(more - 1, others));
      }
    }
  }

  lemma NoMessages()
    ensures Arrivals.Messages([]) == [] && Pops([]) == 0
  {
  }

  /** And it takes everything that was waiting or arrived. */
  lemma {:induction false} DrainTakesAll(waiting: nat, arrivals: seq<seq<string>>)
    ensures var events := DrainEvents(waiting, arrivals);
      Pops(events) == waiting + |Arrivals.Messages(events)|
    decreases |arrivals|, waiting
  {
    hide DrainEvents;
    hide MessagePushes;
    hide Pops;
    hide Arrivals.Messages;
    DrainUnfolds(waiting, arrivals);
    NoMessages();
    if arrivals == [] {
      if waiting > 0 {
        DrainTakesAll(waiting - 1, []);
        PopFirst(DrainEvents(waiting - 1, []));
      }
    } else {
      var more := waiting + |arrivals[0]|;
      if more == 0 {
        PushesFirst(arrivals[0], []);
      } else {
        DrainTakesAll(more - 1, arrivals[1..]);
        var rest := DrainEvents(more - 1, arrivals[1..]);
        PushesFirst(arrivals[0], [Pop] + rest);
        PopFirst(rest);
      }
    }
  }

  /** It does nothing else. */
  lemma {:induction false} DrainOnlyPushesAndTakes(waiting: nat, arrivals: seq<seq<string>>)
    ensures forall e <- DrainEvents(waiting, arrivals) :: e.PushTcp? || e.Pop?
    decreases |arrivals|, waiting
  {
    hide DrainEvents;
    DrainUnfolds(waiting, arrivals);
    if arrivals == [] {
      if waiting > 0 {
        DrainOnlyPushesAndTakes(waiting - 1, []);
      }
    } else if waiting + |arrivals[0]| > 0 {
      DrainOnlyPushesAndTakes(waiting + |arrivals[0]| - 1, arrivals[1..]);
    }
  }

  // ---------- The whole script ----------

  /** A run without its pushes and without the messages taken. */
  function Clock(events: seq<Event>): seq<Event> {
    if events == [] then []
    else
      var e := events[|events| - 1];
      Clock(events[..|events| - 1]) + if e.Begin? || e.Finish? || e.Idle? then [e] else []
  }

  lemma ClockAppend(events: seq<Event>, e: Event)
    ensures Clock(events + [e]) == Clock(events) + if e.Begin? || e.Finish? || e.Idle? then [e] else []
  {
  }

  lemma {:induction false} ClockConcat(a: seq<Event>, b: seq<Event>)
    ensures Clock(a + b) == Clock(a) + Clock(b)
  {
    hide Clock;
    if b == [] {
      NoClock();
      assert a + b == a;
    } else {
      var n := |b| - 1;
      var init, e := b[..n], b[n];
      ClockConcat(a, init);
      ClockAppend(a + init, e);
      ClockAppend(init, e);
      assert b == init + [e];
      assert a + b == a + init + [e];
    }
  }

  lemma {:induction false} MessagesConcat(a: seq<Event>, b: seq<Event>)
    ensures Arrivals.Messages(a + b) == Arrivals.Messages(a) + Arrivals.Messages(b)
  {
    if b == [] {
      assert a + b == a;
    } else {
      var n := |b| - 1;
      MessagesConcat(a, b[..n]);
      assert (a + b)[..|a| + n] == a + b[..n];
    }
  }

  lemma Concatenated(a: seq<Event>, b: seq<Event>)
    ensures Clock(a + b) == Clock(a) + Clock(b)
    ensures Arrivals.Messages(a + b) == Arrivals.Messages(a) + Arrivals.Messages(b)
  {
    ClockConcat(a, b);
    MessagesConcat(a, b);
  }

  lemma {:induction false} Quiet(events: seq<Event>)
    requires forall e <- events :: !(e.Begin? || e.Finish? || e.Idle?)
    ensures Clock(events) == []
  {
    if events != [] {
      assert events[|events| - 1] in events;
      Quiet(events[..|events| - 1]);
    }
  }

  lemma {:induction false} NoTcp(events: seq<Event>)
    requires forall e <- events :: !e.PushTcp?
    ensures Arrivals.Messages(events) == []
  {
    if events != [] {
      assert events[|events| - 1] in events;
      NoTcp(events[..|events| - 1]);
    }
  }

  lemma Single(e: Event)
    ensures Clock([e]) == if e.Begin? || e.Finish? || e.Idle? then [e] else []
    ensures Arrivals.Messages([e]) == if e.PushTcp? then [e.msg] else []
  {
    assert [e][..0] == [];
  }

  /** What one round adds. */
  lemma RoundHolds(waiting: nat, r: Round)
    ensures Clock(RoundEvents(waiting, r)) == [Begin, Finish(r.reached, r.read), Idle(r.errorCode, r.deviceErrors)]
    ensures Arrivals.Messages(RoundEvents(waiting, r)) == Joined(r.arrivals[..Delivered(waiting, r.arrivals)])
  {
    hide Clock;
    hide Arrivals.Messages;
    hide DrainEvents;
    hide Joined;
    hide Delivered;
    var codes, drained := CodePushes(r.codes), DrainEvents(waiting, r.arrivals);
    var finish, idle := Finish(r.reached, r.read), Idle(r.errorCode, r.deviceErrors);
    NoTcp(codes);
    Quiet(codes);
    DrainOnlyPushesAndTakes(waiting, r.arrivals);
    Quiet(drained);
    DrainDelivers(waiting, r.arrivals);
    Single(Begin);
    Single(finish);
    Single(idle);
    hide CodePushes;
    Concatenated([Begin], drained);
    Concatenated([Begin] + drained, [finish]);
    Concatenated(codes, [Begin] + drained + [finish]);
    Concatenated(codes + ([Begin] + drained + [finish]), [idle]);
  }

  /** Each round begins one tick, finishes it with the answers of that round, and then looks for its faults. */
  lemma {:induction false} Clockwork(waiting: nat, rounds: seq<Round>)
    ensures var c := Clock(Script(waiting, rounds));
      && |c| == 3 * |rounds|
      && forall i :: 0 <= i < |rounds| ==>
           && c[3 * i] == Begin
           && c[3 * i + 1] == Finish(rounds[i].reached, rounds[i].read)
           && c[3 * i + 2] == Idle(rounds[i].errorCode, rounds[i].deviceErrors)
  {
    hide Clock;
    hide RoundEvents;
    NoClock();
    if rounds != [] {
      var n := |rounds| - 1;
      var last := if n == 0 then waiting else 0;
      Clockwork(waiting, rounds[..n]);
      RoundHolds(last, rounds[n]);
      Concatenated(Script(waiting, rounds[..n]), RoundEvents(last, rounds[n]));
      hide Script;
      forall i | 0 <= i < n
        ensures rounds[..n][i] == rounds[i]
      {
      }
    }
  }

  lemma NoClock()
    ensures Clock([]) == []
  {
  }

  /** The messages of a round are its arrivals from before its drain saw the queue empty. */
  function RoundMessages(waiting: nat, rounds: seq<Round>): seq<string> {
    if rounds == [] then []
    else
      var n := |rounds| - 1;
      var arrivals := rounds[n].arrivals;
      RoundMessages(waiting, rounds[..n]) + Joined(arrivals[..Delivered(if n == 0 then waiting else 0, arrivals)])
  }

  lemma {:induction false} ScriptDelivers(waiting: nat, rounds: seq<Round>)
    ensures Arrivals.Messages(Script(waiting, rounds)) == RoundMessages(waiting, rounds)
  {
    hide Arrivals.Messages;
    hide RoundEvents;
    hide Joined;
    hide Delivered;
    NoMessages();
    if rounds != [] {
      var n := |rounds| - 1;
      var last := if n == 0 then waiting else 0;
      ScriptDelivers(waiting, rounds[..n]);
      RoundHolds(last, rounds[n]);
      Concatenated(Script(waiting, rounds[..n]), RoundEvents(last, rounds[n]));
    }
  }
}
