/**
 The host message queue between the TCP thread and the tick. A tick drains the queue one message at a time,
 while the producer may keep pushing, and goes on with the last message it took.
 */
module Inbox {
  import opened Protocol
  import opened Selections

  /** `Held` is the message the current drain took last. */
  datatype Fate = Held | Superseded | Blank | Accepted

  /**
   `queue`, `raw` and `draining` are the program's; the rest is history: every message ever pushed, and for
   those already taken what became of them and in which tick they were taken.
   */
  datatype Inbox = Inbox(
    queue: seq<string>,
    raw: string,
    draining: bool,
    tick: nat,
    pushed: seq<string>,
    fates: seq<Fate>,
    takenIn: seq<nat>,
    acceptedAt: seq<int>,
    accepted: seq<HostData>)

  const EMPTY := Inbox([], "", false, 0, [], [], [], [], [])

  function Push(b: Inbox, msg: string): Inbox {
    b.(queue := b.queue + [msg], pushed := b.pushed + [msg])
  }

  function Open(b: Inbox): Inbox {
    b.(raw := "", draining := true, tick := b.tick + 1)
  }

  function Replaced(fates: seq<Fate>, fate: Fate): seq<Fate> {
    if fates != [] && fates[|fates| - 1].Held? then fates[..|fates| - 1] + [fate] else fates
  }

  function Take(b: Inbox): Inbox
    requires b.queue != []
  {
    b.(raw := b.queue[0],
       queue := b.queue[1..],
       fates := Replaced(b.fates, Superseded) + [Held],
       takenIn := b.takenIn + [b.tick])
  }

  /** The drain ends; a non-empty message is decoded and accepted. */
  function Close(b: Inbox): Inbox {
    if b.raw == "" then
      b.(draining := false, fates := Replaced(b.fates, Blank))
    else
      b.(draining := false,
         fates := Replaced(b.fates, Accepted),
         acceptedAt := b.acceptedAt + [|b.fates| - 1],
         accepted := b.accepted + [Decode(b.raw, 0)])
  }

  // ---------- What every history satisfies ----------

  /** The fate a taken message must have: only the last one taken in a tick counts, and only if it is not empty. */
  ghost function DueFate(b: Inbox, i: nat): Fate
    requires i < |b.fates| == |b.takenIn| <= |b.pushed|
  {
    if i + 1 < |b.fates| && b.takenIn[i] == b.takenIn[i + 1] then Superseded
    else if b.draining && i + 1 == |b.fates| && b.takenIn[i] == b.tick then Held
    else if b.pushed[i] == "" then Blank
    else Accepted
  }

  /** Nothing is lost or reordered: what was not taken is still queued, in order. */
  ghost predicate Lossless(b: Inbox) {
    && |b.fates| == |b.takenIn| <= |b.pushed|
    && b.queue == b.pushed[|b.fates|..]
  }

  ghost predicate InOrder(b: Inbox) {
    && (forall i :: 0 <= i < |b.takenIn| ==> b.takenIn[i] <= b.tick)
    && (forall i, j :: 0 <= i < j < |b.takenIn| ==> b.takenIn[i] <= b.takenIn[j])
  }

  ghost predicate HoldingLast(b: Inbox)
    requires Lossless(b)
  {
    b.draining ==>
      b.raw == if b.fates != [] && b.takenIn[|b.fates| - 1] == b.tick then b.pushed[|b.fates| - 1] else ""
  }

  ghost predicate Fated(b: Inbox)
    requires Lossless(b)
  {
    forall i :: 0 <= i < |b.fates| ==> b.fates[i] == DueFate(b, i)
  }

  ghost function IsAccepted(b: Inbox): int -> bool {
    i => 0 <= i < |b.fates| && b.fates[i].Accepted?
  }

  /** The accepted commands are the decodings of the accepted messages, in order. */
  ghost predicate Decoded(b: Inbox)
    requires Lossless(b)
  {
    && Lists(b.acceptedAt, |b.fates|, IsAccepted(b))
    && |b.accepted| == |b.acceptedAt|
    && (forall j :: 0 <= j < |b.accepted| ==> b.accepted[j] == Decode(b.pushed[b.acceptedAt[j]], 0))
  }

  ghost predicate Valid(b: Inbox) {
    Lossless(b) && InOrder(b) && HoldingLast(b) && Fated(b) && Decoded(b)
  }

  lemma PushValid(b: Inbox, msg: string)
    requires Valid(b)
    ensures Valid(Push(b, msg))
  {
  }

  lemma OpenValid(b: Inbox)
    requires Valid(b) && !b.draining
    ensures Valid(Open(b))
  {
  }

  lemma TakeValid(b: Inbox)
    requires Valid(b) && b.draining && b.queue != []
    ensures Valid(Take(b))
  {
    hide Decode;
    var c, n := Take(b), |b.fates|;
    forall i | 0 <= i < |c.fates|
      ensures c.fates[i] == DueFate(c, i)
    {
      if i < n {
        assert b.fates[i] == DueFate(b, i);
      }
    }
    ListsKept(b.acceptedAt, |b.fates|, IsAccepted(b), |c.fates|, IsAccepted(c));
  }

  lemma CloseFated(b: Inbox)
    requires Valid(b) && b.draining
    ensures Lossless(Close(b)) && Fated(Close(b))
  {
    hide Decode;
    var c := Close(b);
    forall i | 0 <= i < |c.fates|
      ensures c.fates[i] == DueFate(c, i)
    {
      assert b.fates[i] == DueFate(b, i);
    }
  }

  /** A message accepted at the end of the drain is the last one taken and was not settled before. */
  lemma AcceptsLast(b: Inbox)
    requires Valid(b) && b.draining && b.raw != ""
    ensures b.fates != [] && b.raw == b.pushed[|b.fates| - 1]
    ensures Close(b).fates == b.fates[..|b.fates| - 1] + [Accepted] && !b.fates[|b.fates| - 1].Accepted?
  {
    hide Decode;
    hide Decoded;
    assert b.fates != [] ==> b.fates[|b.fates| - 1] == DueFate(b, |b.fates| - 1);
  }

  lemma AcceptedGrows(b: Inbox, c: Inbox)
    requires Lists(b.acceptedAt, |b.fates|, IsAccepted(b))
    requires b.fates != [] && !b.fates[|b.fates| - 1].Accepted?
    requires c.fates == b.fates[..|b.fates| - 1] + [Accepted]
    ensures Lists(b.acceptedAt + [|b.fates| - 1], |c.fates|, IsAccepted(c))
  {
    hide Lists;
    var n := |b.fates|;
    ListsShrink(b.acceptedAt, n - 1, IsAccepted(b));
    ListsGrow(b.acceptedAt, n - 1, IsAccepted(b), n, IsAccepted(c));
  }

  lemma AcceptedKept(b: Inbox, c: Inbox)
    requires Lists(b.acceptedAt, |b.fates|, IsAccepted(b))
    requires c.fates == b.fates || (b.fates != [] && b.fates[|b.fates| - 1].Held? && c.fates == b.fates[..|b.fates| - 1] + [Blank])
    ensures Lists(b.acceptedAt, |c.fates|, IsAccepted(c))
  {
    hide Lists;
    ListsKept(b.acceptedAt, |b.fates|, IsAccepted(b), |c.fates|, IsAccepted(c));
  }

  lemma CloseListed(b: Inbox)
    requires Valid(b) && b.draining
    ensures var c := Close(b); Lists(c.acceptedAt, |c.fates|, IsAccepted(c))
  {
    hide Decode;
    hide Lists;
    hide IsAccepted;
    if b.raw == "" {
      AcceptedKept(b, Close(b));
    } else {
      AcceptsLast(b);
      AcceptedGrows(b, Close(b));
    }
  }

  lemma CloseDecoded(b: Inbox)
    requires Valid(b) && b.draining
    ensures Decoded(Close(b))
  {
    hide Decode;
    hide Replaced;
    CloseFated(b);
    CloseListed(b);
    if b.raw != "" {
      AcceptsLast(b);
    }
    hide Fated;
    hide InOrder;
    hide HoldingLast;
  }

  lemma {:induction false} CloseValid(b: Inbox)
    requires Valid(b) && b.draining
    ensures Valid(Close(b))
  {
    CloseFated(b);
    CloseDecoded(b);
    hide Decode;
    hide Fated;
    hide Decoded;
  }

  /** A lost connection can cost a command: the empty text pushed after it supersedes it if one tick takes both. */
  lemma EmptySupersedes(b: Inbox, msg: string)
    requires Valid(b) && !b.draining && b.queue == []
    ensures var waiting := Push(Push(b, msg), "");
      var after := Close(Take(Take(Open(waiting))));
      && waiting.queue == [msg, ""] && Open(waiting).queue == [msg, ""]
      && after.queue == [] && after.accepted == b.accepted && after.fates == b.fates + [Superseded, Blank]
  {
  }
}
