/** What the producers sent, read off the events of a run, and the histories that record it. */
module Arrivals {
  import opened Protocol
  import opened Remote
  import opened Scheduler
  import Inbox
  import Movements
  import Pilot

  // ---------- Host messages ----------

  /** The messages pushed in a run, in order. */
  function Messages(events: seq<Event>): seq<string> {
    if events == [] then []
    else
      var e := events[|events| - 1];
      Messages(events[..|events| - 1]) + if e.PushTcp? then [e.msg] else []
  }

  lemma StepPushed(st: State, e: Event)
    ensures Step(st, e).inbox.pushed == st.inbox.pushed + if e.PushTcp? then [e.msg] else []
  {
    hide Decode;
    hide KeyOf;
    hide Movements.Arrive;
    hide Movements.Dispatch;
    hide Pilot.CarryOut;
    hide Pilot.ActOn;
  }

  /** The inbox remembers exactly what was pushed. */
  lemma {:induction false} PushedAreMessages(events: seq<Event>)
    ensures Run(INIT, events).inbox.pushed == Messages(events)
  {
    hide Step;
    if events != [] {
      var init, e := events[..|events| - 1], events[|events| - 1];
      PushedAreMessages(init);
      StepPushed(Run(INIT, init), e);
    }
  }

  // ---------- Which messages count ----------

  /** A tick starts: the event is its turn. */
  predicate Begins(st: State, e: Event) {
    e.Begin? && !st.inbox.draining
  }

  predicate Finishes(st: State, e: Event) {
    e.Finish? && CanFinish(st)
  }

  /** The messages pushed since the last tick finished. */
  function Pending(events: seq<Event>): seq<string> {
    if events == [] then []
    else
      var init, e := events[..|events| - 1], events[|events| - 1];
      if Finishes(Run(INIT, init), e) then [] else Pending(init) + if e.PushTcp? then [e.msg] else []
  }

  /** The command of the newest of the pending messages, unless there is none or it is empty. */
  function Newest(pending: seq<string>): seq<HostData> {
    if pending == [] || pending[|pending| - 1] == "" then [] else [Decode(pending[|pending| - 1], 0)]
  }

  /** For every finished tick, the command of the newest message pushed since the tick before. */
  function Chosen(events: seq<Event>): seq<HostData> {
    if events == [] then []
    else
      var init, e := events[..|events| - 1], events[|events| - 1];
      Chosen(init) + if Finishes(Run(INIT, init), e) then Newest(Pending(init)) else []
  }

  /** The pending messages are the one the drain holds, those before it, and those still queued. */
  ghost predicate Tracks(b: Inbox.Inbox, pending: seq<string>) {
    var n := |b.pushed|;
    && |b.queue| <= |pending| <= n
    && b.queue == b.pushed[n - |b.queue|..] && pending == b.pushed[n - |pending|..]
    && (!b.draining ==> |pending| == |b.queue|)
    && (b.draining ==> b.raw == if |pending| > |b.queue| then b.pushed[n - |b.queue| - 1] else "")
  }

  lemma PushTracks(b: Inbox.Inbox, pending: seq<string>, msg: string)
    requires Tracks(b, pending)
    ensures Tracks(Inbox.Push(b, msg), pending + [msg])
  {
  }

  lemma TakeTracks(b: Inbox.Inbox, pending: seq<string>)
    requires Tracks(b, pending) && b.draining && b.queue != []
    ensures Tracks(Inbox.Take(b), pending)
  {
  }

  lemma CloseTracks(b: Inbox.Inbox, pending: seq<string>)
    requires Tracks(b, pending) && b.draining && b.queue == []
    ensures Tracks(Inbox.Close(b), []) && Inbox.Close(b).accepted == b.accepted + Newest(pending)
  {
    hide Decode;
    assert pending != [] ==> pending[|pending| - 1] == b.pushed[|b.pushed| - 1];
  }

  lemma StepTracks(st: State, e: Event, pending: seq<string>)
    requires Tracks(st.inbox, pending)
    ensures var more := if Finishes(st, e) then [] else pending + if e.PushTcp? then [e.msg] else [];
      Tracks(Step(st, e).inbox, more)
    ensures Step(st, e).inbox.accepted == st.inbox.accepted + if Finishes(st, e) then Newest(pending) else []
  {
    hide Step;
    hide Newest;
    StepInbox(st, e);
    assert pending + [] == pending;
    match e {
      case PushTcp(msg) =>
        PushTracks(st.inbox, pending, msg);
        hide Tracks;
      case Pop =>
        if st.inbox.draining && st.inbox.queue != [] {
          TakeTracks(st.inbox, pending);
        }
        hide Tracks;
      case Finish(_, _) =>
        if CanFinish(st) {
          CloseTracks(st.inbox, pending);
        }
        hide Tracks;
        hide Inbox.Close;
      case _ =>
    }
  }

  /**
   Every finished tick drains the whole queue: it accepts the command of the newest message pushed since the tick
   before it, unless none was pushed or that one is empty, and nothing else is ever accepted.
   */
  lemma {:induction false} AcceptedAreChosen(events: seq<Event>)
    ensures Run(INIT, events).inbox.accepted == Chosen(events)
    ensures Tracks(Run(INIT, events).inbox, Pending(events))
  {
    hide Step;
    hide Newest;
    hide Finishes;
    if events != [] {
      var init, e := events[..|events| - 1], events[|events| - 1];
      AcceptedAreChosen(init);
      hide Tracks;
      StepTracks(Run(INIT, init), e, Pending(init));
    }
  }

  // ---------- Infrared codes ----------

  /** The newest code pushed since the last tick began, or the text that stands for none. */
  function Waiting(events: seq<Event>): string {
    if events == [] then SILENCE
    else
      var init, e := events[..|events| - 1], events[|events| - 1];
      if e.PushIr? then e.code else if Begins(Run(INIT, init), e) then SILENCE else Waiting(init)
  }

  /** What was waiting when the last tick began. */
  function Hearing(events: seq<Event>): string {
    if events == [] then SILENCE
    else
      var init, e := events[..|events| - 1], events[|events| - 1];
      if Begins(Run(INIT, init), e) then Waiting(init) else Hearing(init)
  }

  /** For every finished tick, what was waiting when it began. */
  function Heard(events: seq<Event>): seq<string> {
    if events == [] then []
    else
      var init, e := events[..|events| - 1], events[|events| - 1];
      Heard(init) + if Finishes(Run(INIT, init), e) then [Hearing(init)] else []
  }

  lemma StepHearing(st: State, e: Event)
    ensures Step(st, e).irQueue ==
      if e.PushIr? then st.irQueue + [e.code] else if Begins(st, e) then [] else st.irQueue
    ensures Step(st, e).text == if Begins(st, e) then LastCode(st.irQueue) else st.text
    ensures Step(st, e).texts == st.texts + if Finishes(st, e) then [st.text] else []
  {
    hide Decode;
    hide KeyOf;
    hide Movements.Arrive;
    hide Movements.Dispatch;
    hide Pilot.CarryOut;
    hide Pilot.ActOn;
  }

  /** The texts the ticks worked on are the newest codes pushed before each of them began. */
  lemma {:induction false} TextsAreHeard(events: seq<Event>)
    ensures var st := Run(INIT, events);
      LastCode(st.irQueue) == Waiting(events) && st.text == Hearing(events) && st.texts == Heard(events)
  {
    hide Step;
    hide Begins;
    hide Finishes;
    if events != [] {
      var init, e := events[..|events| - 1], events[|events| - 1];
      TextsAreHeard(init);
      StepHearing(Run(INIT, init), e);
    }
  }

  /** The newest infrared code pushed, or the text that stands for none. */
  function NewestCode(events: seq<Event>): string {
    if events == [] then SILENCE
    else
      var e := events[|events| - 1];
      if e.PushIr? then e.code else NewestCode(events[..|events| - 1])
  }

  lemma {:induction false} WaitingCode(st: State, events: seq<Event>)
    requires st.irQueue == [] && forall e <- events :: !e.Begin?
    ensures LastCode(Run(st, events).irQueue) == NewestCode(events)
  {
    hide Step;
    if events != [] {
      var init, e := events[..|events| - 1], events[|events| - 1];
      assert e in events;
      WaitingCode(st, init);
      StepHearing(Run(st, init), e);
    }
  }

  /** A tick works on the newest code pushed since the previous tick began, and leaves none behind. */
  lemma {:induction false} TickHearsNewestCode(st: State, events: seq<Event>)
    requires st.irQueue == [] && forall e <- events :: !e.Begin?
    requires !Run(st, events).inbox.draining
    ensures Run(st, events + [Begin]).text == NewestCode(events)
    ensures Run(st, events + [Begin]).irQueue == []
  {
    WaitingCode(st, events);
    assert (events + [Begin])[..|events|] == events;
    hide NewestCode;
  }
}
