/**
 The movement queue (main.cpp): accepted commands wait in it, a command that is not queued clears it, and each
 tick carries out at most its head, when the motor, the skip flag or the one-shot first call allows.
 */
module Movements {
  import opened Protocol
  import opened Selections

  datatype Fate = Dispatched | Flushed

  /** What the gate saw when it let a command through. */
  datatype Gate = Gate(reached: bool, skip: bool)

  /**
   `queue`, `skip` and `firstCall` are the program's; the rest is history: every command accepted, the fate of
   those no longer queued, and the commands carried out together with what opened the gate for them.
   */
  datatype Movements = Movements(
    queue: seq<HostData>,
    skip: bool,
    firstCall: bool,
    arrived: seq<HostData>,
    settled: seq<Fate>,
    dispatchedAt: seq<int>,
    dispatched: seq<HostData>,
    gates: seq<Gate>)

  const EMPTY := Movements([], false, true, [], [], [], [], [])

  function Flushes(n: nat): (fates: seq<Fate>)
    ensures |fates| == n
  {
    seq(n, i => Flushed)
  }

  function Arrive(m: Movements, cmd: HostData): Movements {
    if cmd.movQueued then
      m.(queue := m.queue + [cmd], skip := false, arrived := m.arrived + [cmd])
    else
      m.(queue := [cmd], skip := true, arrived := m.arrived + [cmd], settled := m.settled + Flushes(|m.queue|))
  }

  predicate MayDispatch(m: Movements, reached: bool) {
    m.queue != [] && (reached || m.skip || m.firstCall)
  }

  /** The head leaves the queue to be carried out; the override is spent if nothing else opened the gate. */
  function Dispatch(m: Movements, reached: bool): Movements
    requires MayDispatch(m, reached)
  {
    m.(queue := m.queue[1..],
       firstCall := m.firstCall && (reached || m.skip),
       settled := m.settled + [Dispatched],
       dispatchedAt := m.dispatchedAt + [|m.settled|],
       dispatched := m.dispatched + [m.queue[0]],
       gates := m.gates + [Gate(reached, m.skip)])
  }

  function Proceed(m: Movements, reached: bool): Movements {
    if MayDispatch(m, reached) then Dispatch(m, reached) else m
  }

  // ---------- What every history satisfies ----------

  ghost predicate Lossless(m: Movements) {
    && |m.settled| <= |m.arrived|
    && m.queue == m.arrived[|m.settled|..]
  }

  ghost function IsDispatched(m: Movements): int -> bool {
    i => 0 <= i < |m.settled| && m.settled[i].Dispatched?
  }

  /** The commands carried out are the accepted ones whose fate says so, in order of acceptance. */
  ghost predicate Ordered(m: Movements)
    requires Lossless(m)
  {
    && Lists(m.dispatchedAt, |m.settled|, IsDispatched(m))
    && |m.dispatched| == |m.dispatchedAt|
    && (forall j :: 0 <= j < |m.dispatched| ==> m.dispatched[j] == m.arrived[m.dispatchedAt[j]])
  }

  ghost predicate FlushedBy(m: Movements, i: nat, k: nat) {
    i < k < |m.arrived| && !m.arrived[k].movQueued
  }

  /** A command is only ever lost to a later accepted command that asked not to be queued. */
  ghost predicate LossExplained(m: Movements) {
    forall i :: 0 <= i < |m.settled| && m.settled[i].Flushed? ==> exists k :: FlushedBy(m, i, k)
  }

  predicate Forced(g: Gate) {
    !g.reached && !g.skip
  }

  /** No command was ever let through by the first-call override. */
  predicate NothingForced(m: Movements) {
    forall j :: 0 <= j < |m.gates| ==> !Forced(m.gates[j])
  }

  /** The override is unspent exactly when it let nothing through, and it lets through at most one command. */
  ghost predicate Gated(m: Movements) {
    && |m.gates| == |m.dispatched|
    && (m.firstCall <==> NothingForced(m))
    && (forall i, j :: 0 <= i < j < |m.gates| ==> !(Forced(m.gates[i]) && Forced(m.gates[j])))
  }

  ghost predicate Settled(m: Movements) {
    Lossless(m) && Ordered(m) && LossExplained(m) && Gated(m)
  }

  /** Of the first `n` commands accepted, every one that was not to be queued has been carried out. */
  ghost predicate Prompt(m: Movements, n: nat) {
    && n <= |m.arrived|
    && (forall k :: 0 <= k < n && !m.arrived[k].movQueued ==> k < |m.settled| && m.settled[k].Dispatched?)
  }

  /** Between ticks the skip flag can only be up over an empty queue, and nothing urgent is waiting or lost. */
  ghost predicate Valid(m: Movements) {
    Settled(m) && (m.skip ==> m.queue == []) && Prompt(m, |m.arrived|)
  }

  /** Within a tick the skip flag can also be up over a newcomer that is alone in the queue. */
  ghost predicate Poised(m: Movements) {
    && Settled(m)
    && (m.skip ==> |m.queue| <= 1)
    && Prompt(m, |m.arrived| - if m.skip then |m.queue| else 0)
  }

  lemma ArriveOrdered(m: Movements, cmd: HostData)
    requires Lossless(m) && Ordered(m)
    ensures Lossless(Arrive(m, cmd)) && Ordered(Arrive(m, cmd))
  {
    var a := Arrive(m, cmd);
    ListsKept(m.dispatchedAt, |m.settled|, IsDispatched(m), |a.settled|, IsDispatched(a));
  }

  lemma ArriveExplained(m: Movements, cmd: HostData)
    requires Lossless(m) && LossExplained(m)
    ensures LossExplained(Arrive(m, cmd))
  {
    var a := Arrive(m, cmd);
    forall i | 0 <= i < |a.settled| && a.settled[i].Flushed?
      ensures exists k :: FlushedBy(a, i, k)
    {
      if i < |m.settled| {
        var k :| FlushedBy(m, i, k);
        assert FlushedBy(a, i, k);
      } else {
        assert FlushedBy(a, i, |m.arrived|);
      }
    }
  }

  /** What an arrival flushes was all to be queued, so nothing urgent is lost. */
  lemma ArrivePrompt(m: Movements, cmd: HostData)
    requires Lossless(m) && Prompt(m, |m.arrived|)
    ensures var a := Arrive(m, cmd);
      Prompt(a, if cmd.movQueued then |a.arrived| else |m.arrived|)
  {
  }

  lemma ArrivePoised(m: Movements, cmd: HostData)
    requires Valid(m)
    ensures Poised(Arrive(m, cmd))
  {
    ArriveOrdered(m, cmd);
    ArriveExplained(m, cmd);
    ArrivePrompt(m, cmd);
    hide Ordered;
    hide LossExplained;
    hide Prompt;
  }

  lemma DispatchOrdered(m: Movements, reached: bool)
    requires Lossless(m) && Ordered(m) && MayDispatch(m, reached)
    ensures Lossless(Dispatch(m, reached)) && Ordered(Dispatch(m, reached))
  {
    var d := Dispatch(m, reached);
    ListsGrow(m.dispatchedAt, |m.settled|, IsDispatched(m), |d.settled|, IsDispatched(d));
  }

  lemma DispatchExplained(m: Movements, reached: bool)
    requires LossExplained(m) && MayDispatch(m, reached)
    ensures LossExplained(Dispatch(m, reached))
  {
    var d := Dispatch(m, reached);
    forall i | 0 <= i < |d.settled| && d.settled[i].Flushed?
      ensures exists k :: FlushedBy(d, i, k)
    {
      var k :| FlushedBy(m, i, k);
      assert FlushedBy(d, i, k);
    }
  }

  lemma DispatchGated(m: Movements, reached: bool)
    requires Gated(m) && MayDispatch(m, reached)
    ensures Gated(Dispatch(m, reached))
  {
    var d, n := Dispatch(m, reached), |m.gates|;
    assert d.gates[n] == Gate(reached, m.skip);
    assert forall j :: 0 <= j < n ==> d.gates[j] == m.gates[j];
  }

  lemma DispatchPrompt(m: Movements, reached: bool)
    requires Lossless(m) && MayDispatch(m, reached)
    requires (m.skip ==> |m.queue| <= 1) && Prompt(m, |m.arrived| - if m.skip then |m.queue| else 0)
    ensures var d := Dispatch(m, reached); Prompt(d, |d.arrived|)
  {
  }

  lemma ProceedValid(m: Movements, reached: bool)
    requires Poised(m)
    ensures Valid(Proceed(m, reached))
  {
    if MayDispatch(m, reached) {
      DispatchOrdered(m, reached);
      DispatchExplained(m, reached);
      DispatchGated(m, reached);
      DispatchPrompt(m, reached);
    }
    hide Ordered;
    hide LossExplained;
    hide Gated;
    hide Prompt;
  }

  // ---------- Consequences ----------

  /** Traffic that never asks to jump the queue is carried out completely, first come, first served. */
  lemma QueuedTrafficIsFifo(m: Movements)
    requires Valid(m)
    requires forall cmd <- m.arrived :: cmd.movQueued
    ensures m.arrived == m.dispatched + m.queue
  {
    forall i | 0 <= i < |m.settled|
      ensures IsDispatched(m)(i)
    {
      forall k: nat
        ensures !FlushedBy(m, i, k)
      {
        assert k < |m.arrived| ==> m.arrived[k] in m.arrived;
      }
    }
    ListsAll(m.dispatchedAt, |m.settled|, IsDispatched(m));
    assert m.dispatched == m.arrived[..|m.settled|];
  }
}
