/** What one tick of each timer does to the queues as a whole. */
module Timers {
  import opened Common
  import opened Interfaces
  import opened Transport
  import opened Queues
  import opened Windows

  // ---- The retransmit tick ----

  // The sent queue after the tick, the to-send entries it adds, and the packets it drops.
  function Swept(q: seq<Sent>, now: nat): seq<Sent> {
    if q == [] then []
    else (match Judge(q[0], now) case Keep => [q[0]] case Discard => [] case Again => [Resent(q[0])])
         + Swept(q[1..], now)
  }

  function Requeued(q: seq<Sent>, now: nat): seq<ToSend> {
    if q == [] then []
    else (if Judge(q[0], now) == Again then [ToSend(q[0].tag, q[0].ifc, q[0].shelf, true)] else [])
         + Requeued(q[1..], now)
  }

  function Dropped(q: seq<Sent>, now: nat): seq<Gone> {
    if q == [] then []
    else (if Judge(q[0], now) == Discard then [DropOf(q[0], now)] else []) + Dropped(q[1..], now)
  }

  function TagsOf(q: seq<ToSend>): (r: seq<nat>)
    ensures |r| == |q|
  {
    seq(|q|, i requires 0 <= i < |q| => q[i].tag)
  }

  // State `end` is `s` with the entries from i on treated by their verdicts.
  ghost predicate SweepOf(s: Net, i: nat, targets: nat, end: Net)
    requires i <= |s.sent|
  {
    var q := s.sent[i..];
    && end.sent == s.sent[..i] + Swept(q, s.h.clock)
    && end.toSend == s.toSend + Requeued(q, s.h.clock)
    && end.h.gone == s.h.gone + Dropped(q, s.h.clock)
    && end.h.resent == s.h.resent + TagsOf(Requeued(q, s.h.clock))
    && end.retransmits == s.retransmits + (if targets > 0 then |Requeued(q, s.h.clock)| else 0)
  }

  lemma KeepSweep(s: Net, i: nat, targets: nat, end: Net)
    requires i < |s.sent| && Judge(s.sent[i], s.h.clock) == Keep && SweepOf(s, i + 1, targets, end)
    ensures SweepOf(s, i, targets, end)
  {
    assert s.sent[i..][1..] == s.sent[i + 1..];
    assert s.sent[..i + 1] == s.sent[..i] + [s.sent[i]];
  }

  lemma DropSweep(s: Net, i: nat, targets: nat, end: Net)
    requires i < |s.sent| && Judge(s.sent[i], s.h.clock) == Discard && SweepOf(Drop(s, i), i, targets, end)
    ensures SweepOf(s, i, targets, end)
  {
    assert s.sent[i..][1..] == s.sent[i + 1..];
    RemoveAtSlices(s.sent, i);
  }

  lemma AgainSweep(s: Net, ps: Ports, i: nat, targets: nat, end: Net)
    requires i < |s.sent| && Judge(s.sent[i], s.h.clock) == Again
    requires SweepOf(Resend(s.(ports := ps), i, targets), i + 1, targets, end)
    ensures SweepOf(s, i, targets, end)
  {
    var r := Resend(s.(ports := ps), i, targets);
    assert s.sent[i..][1..] == s.sent[i + 1..] == r.sent[i + 1..];
    assert r.sent[..i + 1] == s.sent[..i] + [Resent(s.sent[i])];
    var e := s.sent[i];
    assert TagsOf([ToSend(e.tag, e.ifc, e.shelf, true)] + Requeued(s.sent[i + 1..], s.h.clock))
        == [e.tag] + TagsOf(Requeued(s.sent[i + 1..], s.h.clock));
  }

  // The walk over the queue that it edits treats every entry by its verdict, once.
  lemma {:induction false} RetransmitSweeps(s: Net, i: nat, adjusted: bool, targets: nat)
    requires i <= |s.sent|
    ensures SweepOf(s, i, targets, RetransmitFrom(s, i, adjusted, targets))
    decreases |s.sent| - i
  {
    if i < |s.sent| {
      var end := RetransmitFrom(s, i, adjusted, targets);
      match Judge(s.sent[i], s.h.clock)
      case Keep =>
        RetransmitSweeps(s, i + 1, adjusted, targets);
        KeepSweep(s, i, targets, end);
      case Discard =>
        RetransmitSweeps(Drop(s, i), i, adjusted, targets);
        DropSweep(s, i, targets, end);
      case Again =>
        var s' := if adjusted then s else CollapseWindow(s, s.sent[i].ifc);
        RetransmitSweeps(Resend(s', i, targets), i + 1, true, targets);
        AgainSweep(s, s'.ports, i, targets, end);
    }
  }

  // A packet that is not late: the times are in nanoseconds, and are rounded to microseconds
  // before they are compared.
  predicate InTime(e: Sent, now: nat) {
    && e.rtoUs != 0
    && (e.timeFirst != 0 && e.timeSent != 0 ==>
          now - e.timeFirst < 60_000_000_500 && now - e.timeSent < 1000 * e.rtoUs + 500)
  }

  lemma {:induction false} SweptInTime(q: seq<Sent>, now: nat)
    ensures forall k :: 0 <= k < |Swept(q, now)| ==> InTime(Swept(q, now)[k], now)
  {
    if q != [] {
      SweptInTime(q[1..], now);
      var rest := Swept(q[1..], now);
      var first := Swept(q, now)[..|Swept(q, now)| - |rest|];
      assert Swept(q, now) == first + rest;
      forall k | 0 <= k < |first + rest| ensures InTime((first + rest)[k], now) {
        if k >= |first| { assert (first + rest)[k] == rest[k - |first|]; }
      }
    }
  }

  // So after the tick nothing in the sent queue is late: what was too old is gone, what was
  // overdue waits to go out again, and every search has been dropped.
  lemma NothingOverdue(s: Net, targets: nat)
    ensures forall k :: 0 <= k < |Step(s, RetransmitTick(targets)).sent| ==>
      InTime(Step(s, RetransmitTick(targets)).sent[k], s.h.clock)
  {
    RetransmitSweeps(s, 0, false, targets);
    SweptInTime(s.sent[0..], s.h.clock);
  }

  // ---- The transmit tick ----

  // Every packet that waits to be resent goes out in the next tick, whatever the windows say.
  lemma ResendsGoOut(s: Net)
    requires QueuesOk(s) && s.h.clock > 0
    ensures forall k :: 0 <= k < |Transmit(s).sent| && Transmit(s).sent[k].timeFirst != 0 ==>
      Transmit(s).sent[k].timeSent != 0
  {
    FlushKeeps(s, 0);
    var f := FlushImmediate(s, 0);
    forall k | 0 <= k < |f.sent| && f.sent[k].timeFirst != 0 ensures f.sent[k].timeSent != 0 {
      assert EntryOk(f, f.sent[k]);
    }
    var j := Choose(f, 0);
    if j >= 0 {
      assert Transmit(s) == SendFromQueue(f, j);
    }
  }

  // There is room for the entry: its port has fewer packets counted than each of the three
  // windows allows.
  predicate HasRoom(s: Net, t: ToSend)
    requires 0 <= t.ifc < |s.ports| && t.shelf < |s.ports[t.ifc].shelfMax|
  {
    var f := s.ports[t.ifc];
    && f.outstanding < f.cwnd
    && f.outstanding < (if t.shelf < 0 then f.minMax else f.shelfMax[t.shelf])
    && f.outstanding < s.userWindow
  }

  lemma RoomIff(s: Net, t: ToSend)
    requires Used(s.ports, t.ifc) && t.shelf < |s.ports[t.ifc].shelfMax|
    ensures WindowOpen(s, t) <==> HasRoom(s, t)
  {
  }

  // Some port in use has room under the limit that holds for an entry.
  ghost predicate SomePortBelow(s: Net, t: ToSend) {
    exists p :: 0 <= p < |s.ports| && s.ports[p].enabled
                && s.ports[p].outstanding < Window(s.ports, s.userWindow, t.ifc, t.shelf)
  }

  // The entry at k stops the search: it is full, and its limit is compared with every port.
  ghost predicate Stops(s: Net, k: nat)
    requires k < |s.toSend|
  {
    !WindowOpen(s, s.toSend[k]) && !SomePortBelow(s, s.toSend[k])
  }

  // The first entry with room in its window, at position j, goes out unless an entry in front
  // of it stops the search.
  lemma {:induction false} FirstOpenIffNotStopped(s: Net, i: nat, j: nat)
    requires i <= j < |s.toSend| && WindowOpen(s, s.toSend[j])
    requires forall k :: i <= k < j ==> !WindowOpen(s, s.toSend[k])
    ensures Choose(s, i) == j <==> forall k :: i <= k < j ==> !Stops(s, k)
    ensures Choose(s, i) == -1 || Choose(s, i) == j
    decreases j - i
  {
    if i < j {
      AllFullIff(s, s.toSend[i]);
      if Stops(s, i) {
        assert Choose(s, i) == -1;
      } else {
        FirstOpenIffNotStopped(s, i + 1, j);
        assert Choose(s, i) == Choose(s, i + 1);
      }
    }
  }

  lemma AllFullIff(s: Net, t: ToSend)
    ensures AllFull(s.ports, Window(s.ports, s.userWindow, t.ifc, t.shelf)) <==> !SomePortBelow(s, t)
  {
  }

  // ---- The whole tick ----

  // The entries that are not marked for immediate sending, in order.
  function Fresh(q: seq<ToSend>): seq<ToSend> {
    if q == [] then [] else (if q[0].immediate then [] else [q[0]]) + Fresh(q[1..])
  }

  lemma FreshFirst(q: seq<ToSend>)
    requires q != []
    ensures Fresh(q) == (if q[0].immediate then [] else [q[0]]) + Fresh(q[1..])
  {
  }

  lemma Regroup(x: seq<ToSend>, y: seq<ToSend>, z: seq<ToSend>)
    ensures x + (y + z) == x + y + z
  {
  }

  lemma {:induction false} FreshConcat(a: seq<ToSend>, b: seq<ToSend>)
    ensures Fresh(a + b) == Fresh(a) + Fresh(b)
  {
    if a == [] {
      assert a + b == b;
    } else {
      FreshConcat(a[1..], b);
      assert (a + b)[1..] == a[1..] + b && (a + b)[0] == a[0];
      FreshFirst(a);
      FreshFirst(a + b);
      Regroup(if a[0].immediate then [] else [a[0]], Fresh(a[1..]), Fresh(b));
    }
  }

  lemma {:induction false} AllFresh(q: seq<ToSend>)
    requires forall k :: 0 <= k < |q| ==> !q[k].immediate
    ensures Fresh(q) == q
  {
    if q != [] { AllFresh(q[1..]); }
  }

  // The immediate sends leave the other entries as they are, and the windows.
  lemma {:induction false} FlushLeavesFresh(s: Net, j: nat)
    requires j <= |s.toSend| && forall m :: 0 <= m < j ==> !s.toSend[m].immediate
    ensures FlushImmediate(s, j).toSend == Fresh(s.toSend)
    decreases |s.toSend| - j
  {
    if j == |s.toSend| {
      AllFresh(s.toSend);
    } else if s.toSend[j].immediate {
      var q := s.toSend;
      FlushLeavesFresh(SendFromQueue(s, j), j);
      assert q == q[..j] + ([q[j]] + q[j + 1..]);
      FreshConcat(q[..j], [q[j]] + q[j + 1..]);
      FreshConcat(q[..j], q[j + 1..]);
    } else {
      FlushLeavesFresh(s, j + 1);
    }
  }

  ghost predicate FlushedRoom(s: Net, f: Net, t: ToSend) {
    && (WindowOpen(f, t) <==> WindowOpen(s, t))
    && (SomePortBelow(f, t) <==> SomePortBelow(s, t))
  }

  lemma FlushLeavesRoom(s: Net, t: ToSend)
    ensures FlushedRoom(s, FlushImmediate(s, 0), t)
  {
    var f := FlushImmediate(s, 0);
    forall p | 0 <= p < |s.ports| ensures f.ports[p] == s.ports[p].(lastSend := f.ports[p].lastSend) {
      FlushPorts(s, 0, p);
    }
  }

  // The tick takes entry t from the fresh ones, and puts its packet, if it still waits for a
  // reply, on the wire.
  ghost predicate GoesOutAsLast(s: Net, s': Net, t: ToSend) {
    && (FindSent(s.sent, t.tag) >= 0 ==>
         s'.h.wire != [] && s'.h.wire[|s'.h.wire| - 1] == Frame(t.tag, t.ifc, t.shelf, true, s.h.clock))
    && forall i :: 0 <= i < |s'.sent| && s'.sent[i].tag == t.tag ==> s'.sent[i].timeSent == s.h.clock
  }

  // Of the fresh entries, in the order in which they are queued, the first one with room goes
  // out, at position j, if and only if for each entry in front of it some port in use has
  // fewer packets counted than that entry's limit.
  lemma FirstWithRoomGoesOutIff(s: Net, j: nat)
    requires QueuesOk(s) && s.h.clock > 0 && j < |Fresh(s.toSend)|
    requires WindowOpen(s, Fresh(s.toSend)[j]) && forall k :: 0 <= k < j ==> !WindowOpen(s, Fresh(s.toSend)[k])
    ensures var q, s' := Fresh(s.toSend), Transmit(s);
      if forall k :: 0 <= k < j ==> SomePortBelow(s, q[k]) then
        s'.toSend == RemoveAt(q, j) && GoesOutAsLast(s, s', q[j])
      else s'.toSend == q
  {
    var f, q := FlushImmediate(s, 0), Fresh(s.toSend);
    FlushLeavesFresh(s, 0);
    FlushKeeps(s, 0);
    forall k | 0 <= k <= j ensures FlushedRoom(s, f, q[k]) { FlushLeavesRoom(s, q[k]); }
    FirstOpenIffNotStopped(f, 0, j);
    if forall k :: 0 <= k < j ==> SomePortBelow(s, q[k]) {
      forall k | 0 <= k < j ensures !Stops(f, k) { assert FlushedRoom(s, f, q[k]); }
      LastOut(s, f, j);
    } else {
      var k :| 0 <= k < j && !SomePortBelow(s, q[k]);
      assert FlushedRoom(s, f, q[k]);
      assert Stops(f, k);
    }
  }

  lemma LastOut(s: Net, f: Net, j: nat)
    requires QueuesOk(f) && f == FlushImmediate(s, 0) && j < |f.toSend| && !f.toSend[j].immediate && f.h.clock == s.h.clock
    ensures GoesOutAsLast(s, SendFromQueue(f, j), f.toSend[j])
  {
    var t := f.toSend[j];
    FlushLeavesTags(s, 0, t.tag);
    FromQueueEntry(f, j);
    var k := FindSent(f.sent, t.tag);
    if k >= 0 { assert EntryOk(f, f.sent[k]); }
  }

  // Output changes no tag, so a search has the same result.
  lemma {:induction false} FlushLeavesTags(s: Net, j: nat, tag: nat)
    requires j <= |s.toSend|
    ensures FindSent(FlushImmediate(s, j).sent, tag) == FindSent(s.sent, tag)
    decreases |s.toSend| - j
  {
    if j < |s.toSend| {
      if s.toSend[j].immediate {
        OutputLeavesTags(s, j, tag);
        FlushLeavesTags(SendFromQueue(s, j), j, tag);
      } else {
        FlushLeavesTags(s, j + 1, tag);
      }
    }
  }

  lemma OutputLeavesTags(s: Net, j: nat, tag: nat)
    requires j < |s.toSend|
    ensures FindSent(SendFromQueue(s, j).sent, tag) == FindSent(s.sent, tag)
  {
    var s' := SendFromQueue(s, j);
    assert |s'.sent| == |s.sent| && forall i :: 0 <= i < |s.sent| ==> s'.sent[i].tag == s.sent[i].tag;
  }

  // With one limit for all queued packets a tick sends a fresh packet whenever the port of any
  // of them has room.
  lemma OneLimitWastesNoRoom(s: Net, limit: int, m: nat) returns (j: nat)
    requires QueuesOk(s) && s.h.clock > 0
    requires forall k :: 0 <= k < |Fresh(s.toSend)| ==>
      Window(s.ports, s.userWindow, Fresh(s.toSend)[k].ifc, Fresh(s.toSend)[k].shelf) == limit
    requires m < |Fresh(s.toSend)| && Outstanding(s.ports, Fresh(s.toSend)[m].ifc) < limit
    ensures var q, s' := Fresh(s.toSend), Transmit(s);
      j <= m && s'.toSend == RemoveAt(q, j) && GoesOutAsLast(s, s', q[j])
  {
    var q := Fresh(s.toSend);
    FreshUsed(s);
    j := FirstOpen(s, q, m);
    forall k | 0 <= k < j ensures SomePortBelow(s, q[k]) {
      assert s.ports[q[m].ifc].enabled;
    }
    FirstWithRoomGoesOutIff(s, j);
  }

  lemma FirstOpen(s: Net, q: seq<ToSend>, m: nat) returns (j: nat)
    requires m < |q| && WindowOpen(s, q[m])
    ensures j <= m && WindowOpen(s, q[j]) && forall k :: 0 <= k < j ==> !WindowOpen(s, q[k])
  {
    j := 0;
    while !WindowOpen(s, q[j])
      invariant j <= m && forall k :: 0 <= k < j ==> !WindowOpen(s, q[k])
      decreases m - j
    {
      j := j + 1;
    }
  }

  lemma {:induction false} FreshMembers(q: seq<ToSend>)
    ensures forall t :: t in Fresh(q) ==> t in q
  {
    if q != [] { FreshMembers(q[1..]); }
  }

  lemma FreshUsed(s: Net)
    requires QueuesOk(s)
    ensures forall k :: 0 <= k < |Fresh(s.toSend)| ==> Used(s.ports, Fresh(s.toSend)[k].ifc)
  {
    FreshMembers(s.toSend);
    forall k | 0 <= k < |Fresh(s.toSend)| ensures Used(s.ports, Fresh(s.toSend)[k].ifc) {
      assert Fresh(s.toSend)[k] in s.toSend;
      var j :| 0 <= j < |s.toSend| && s.toSend[j] == Fresh(s.toSend)[k];
      assert ItemOk(s, s.toSend[j]);
    }
  }
}
