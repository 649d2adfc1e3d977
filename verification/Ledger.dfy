/** The outstanding count of a port against the packets really in flight on it. */
module Ledger {
  import opened Common
  import opened Interfaces
  import opened Transport
  import opened Queues

  // Output at least once, not answered, and not yet resent: what the count should count.
  predicate InFlight(e: Sent, p: int) {
    e.ifc == p && e.timeFirst != 0 && !e.retrans
  }

  function Flying(q: seq<Sent>, p: int): nat {
    if q == [] then 0 else (if InFlight(q[0], p) then 1 else 0) + Flying(q[1..], p)
  }

  // Packets that are never resent (searches) and have not been output yet.
  predicate Unsent(e: Sent, p: int) {
    e.ifc == p && e.rtoUs == 0 && e.timeFirst == 0
  }

  function UnsentCount(q: seq<Sent>, p: int): nat {
    if q == [] then 0 else (if Unsent(q[0], p) then 1 else 0) + UnsentCount(q[1..], p)
  }

  function Deficit(s: Net, p: nat): int
    requires p < |s.ports|
  {
    Flying(s.sent, p) - s.ports[p].outstanding
  }

  // ---- Counting ----

  lemma {:induction false} FlyingConcat(a: seq<Sent>, b: seq<Sent>, p: int)
    ensures Flying(a + b, p) == Flying(a, p) + Flying(b, p)
  {
    if a == [] {
      assert a + b == b;
    } else {
      FlyingConcat(a[1..], b, p);
      assert (a + b)[1..] == a[1..] + b;
    }
  }

  lemma FlyingSplit(q: seq<Sent>, k: nat, p: int)
    requires k < |q|
    ensures Flying(q, p) == Flying(RemoveAt(q, k), p) + (if InFlight(q[k], p) then 1 else 0)
  {
    assert q == q[..k] + ([q[k]] + q[k + 1..]);
    FlyingConcat(q[..k], [q[k]] + q[k + 1..], p);
    FlyingConcat(q[..k], q[k + 1..], p);
  }

  lemma FlyingUpdate(q: seq<Sent>, k: nat, e: Sent, p: int)
    requires k < |q|
    ensures Flying(q[k := e], p)
         == Flying(q, p) - (if InFlight(q[k], p) then 1 else 0) + (if InFlight(e, p) then 1 else 0)
  {
    FlyingSplit(q, k, p);
    FlyingSplit(q[k := e], k, p);
    assert RemoveAt(q[k := e], k) == RemoveAt(q, k);
  }

  lemma {:induction false} FlyingWitness(q: seq<Sent>, p: int)
    requires Flying(q, p) > 0
    ensures exists k :: 0 <= k < |q| && InFlight(q[k], p)
  {
    if !InFlight(q[0], p) {
      FlyingWitness(q[1..], p);
      var k :| 0 <= k < |q| - 1 && InFlight(q[1..][k], p);
      assert q[k + 1] == q[1..][k];
    } else {
      assert 0 < |q|;
    }
  }

  lemma {:induction false} FlyingNone(q: seq<Sent>, p: int)
    requires forall k :: 0 <= k < |q| ==> q[k].ifc != p
    ensures Flying(q, p) == 0
  {
    if q != [] { FlyingNone(q[1..], p); }
  }

  lemma {:induction false} FlyingPurge(ps: Ports, q: seq<Sent>, p: int)
    requires Used(ps, p)
    ensures Flying(PurgeSent(ps, q), p) == Flying(q, p)
  {
    if q != [] {
      FlyingPurge(ps, q[1..], p);
      FlyingConcat(if Used(ps, q[0].ifc) then [q[0]] else [], PurgeSent(ps, q[1..]), p);
    }
  }

  // A port that is down has no packet in the sent queue.
  lemma DownIsEmpty(s: Net, p: nat)
    requires QueuesOk(s) && p < |s.ports| && !s.ports[p].enabled
    ensures Flying(s.sent, p) == 0
  {
    forall k | 0 <= k < |s.sent| ensures s.sent[k].ifc != p {
      assert EntryOk(s, s.sent[k]);
    }
    FlyingNone(s.sent, p);
  }

  // ---- How each operation moves the deficit ----

  lemma SendFromQueueBalanced(s: Net, j: nat, p: nat)
    requires QueuesOk(s) && j < |s.toSend| && s.h.clock > 0 && p < |s.ports|
    ensures Deficit(SendFromQueue(s, j), p) == Deficit(s, p)
  {
    var t := s.toSend[j];
    var k := FindSent(s.sent, t.tag);
    FromQueueEntry(s, j);
    if k >= 0 {
      assert EntryOk(s, s.sent[k]);
      FlyingUpdate(s.sent, k, Output(s.sent[k], s.h.clock), p);
    }
  }

  lemma {:induction false} FlushBalanced(s: Net, j: nat, p: nat)
    requires QueuesOk(s) && j <= |s.toSend| && s.h.clock > 0 && p < |s.ports|
    ensures Deficit(FlushImmediate(s, j), p) == Deficit(s, p)
    decreases |s.toSend| - j
  {
    if j < |s.toSend| {
      if s.toSend[j].immediate {
        SendFromQueueKeeps(s, j);
        SendFromQueueBalanced(s, j, p);
        FlushBalanced(SendFromQueue(s, j), j, p);
      } else {
        FlushBalanced(s, j + 1, p);
      }
    }
  }

  lemma TransmitBalanced(s: Net, p: nat)
    requires QueuesOk(s) && s.h.clock > 0 && p < |s.ports|
    ensures Deficit(Transmit(s), p) == Deficit(s, p)
  {
    FlushKeeps(s, 0);
    FlushBalanced(s, 0, p);
    var flushed := FlushImmediate(s, 0);
    if Choose(flushed, 0) >= 0 {
      SendFromQueueBalanced(flushed, Choose(flushed, 0), p);
    }
  }

  lemma DropLeak(s: Net, i: nat, p: nat)
    requires QueuesOk(s) && i < |s.sent| && p < |s.ports| && Judge(s.sent[i], s.h.clock) == Discard
    ensures QueuesOk(Drop(s, i)) && |Drop(s, i).ports| == |s.ports|
    ensures Deficit(Drop(s, i), p) == Deficit(s, p) + (if Unsent(s.sent[i], p) then 1 else 0)
  {
    assert EntryOk(s, s.sent[i]);
    RemoveSentKeeps(s, i, Drop(s, i));
    FlyingSplit(s.sent, i, p);
  }

  lemma ResendBalanced(s: Net, i: nat, targets: nat, p: nat)
    requires QueuesOk(s) && i < |s.sent| && p < |s.ports| && Judge(s.sent[i], s.h.clock) == Again
    ensures QueuesOk(Resend(s, i, targets)) && |Resend(s, i, targets).ports| == |s.ports|
    ensures Deficit(Resend(s, i, targets), p) == Deficit(s, p)
  {
    assert EntryOk(s, s.sent[i]);
    ResendKeeps(s, i, targets);
    FlyingUpdate(s.sent, i, Resent(s.sent[i]), p);
  }

  lemma CollapseBalanced(s: Net, ifc: int, p: nat)
    requires QueuesOk(s) && p < |s.ports|
    ensures QueuesOk(CollapseWindow(s, ifc)) && Deficit(CollapseWindow(s, ifc), p) == Deficit(s, p)
  {
    PortsOkWindow(s.ports, ifc, 0);
    PortsOnly(s, CollapseWindow(s, ifc));
  }

  // A retransmit tick loses one count for each unsent search it discards, and nothing else.
  lemma {:induction false} RetransmitLeak(s: Net, i: nat, adjusted: bool, targets: nat, p: nat)
    requires QueuesOk(s) && i <= |s.sent| && p < |s.ports|
    ensures var s' := RetransmitFrom(s, i, adjusted, targets);
      |s'.ports| == |s.ports| && Deficit(s', p) == Deficit(s, p) + UnsentCount(s.sent[i..], p)
    decreases |s.sent| - i
  {
    if i < |s.sent| {
      var e := s.sent[i];
      assert s.sent[i..][1..] == s.sent[i + 1..];
      match Judge(e, s.h.clock)
      case Keep =>
        RetransmitLeak(s, i + 1, adjusted, targets, p);
      case Discard =>
        DropLeak(s, i, p);
        assert Drop(s, i).sent[i..] == s.sent[i + 1..];
        RetransmitLeak(Drop(s, i), i, adjusted, targets, p);
      case Again =>
        var s' := if adjusted then s else CollapseWindow(s, e.ifc);
        CollapseBalanced(s, e.ifc, p);
        ResendBalanced(s', i, targets, p);
        var r := Resend(s', i, targets);
        assert r.sent[i + 1..] == s.sent[i + 1..];
        RetransmitLeak(r, i + 1, true, targets, p);
    }
  }

  // The sent-queue entry that an incoming packet acknowledges on port p, if any.
  predicate Answers(s: Net, e: Event, p: int) {
    && e.Incoming? && e.response
    && var k := FindSent(s.sent, e.tag);
       k >= 0 && s.sent[k].ifc == p
  }

  lemma AcknowledgeBalance(s: Net, k: nat, p: nat)
    requires QueuesOk(s) && k < |s.sent| && p < |s.ports|
    ensures var s' := Acknowledge(s, k);
      && |s'.ports| == |s.ports| && s'.ports[p].enabled == s.ports[p].enabled
      && (s.sent[k].ifc != p ==> Deficit(s', p) == Deficit(s, p))
      && (s.sent[k].ifc == p ==>
           var counted := s.ports[p].outstanding - (if s.sent[k].retrans then 0 else 1);
           Deficit(s', p) == Flying(s.sent, p) - (if InFlight(s.sent[k], p) then 1 else 0) - Max(counted, 0))
  {
    FlyingSplit(s.sent, k, p);
    var counted := AckOutstanding(s.ports, s.sent[k].ifc, s.sent[k].retrans);
    PortsOkOutstanding(s.ports, s.sent[k].ifc, 0, s.sent[k].retrans);
    assert AckWindow(counted, s.sent[k].ifc)[p].outstanding == counted[p].outstanding;
  }

  lemma SameCounts(s: Net, s': Net, p: nat)
    requires p < |s.ports| && s'.sent == s.sent && s'.ports == s.ports
    ensures Deficit(s', p) == Deficit(s, p)
  {
  }

  lemma ReceiveBalance(s: Net, e: Event, p: nat)
    requires QueuesOk(s) && e.Incoming? && p < |s.ports|
    ensures |Step(s, e).ports| == |s.ports| && Step(s, e).ports[p].enabled == s.ports[p].enabled
    ensures !Answers(s, e, p) ==> Deficit(Step(s, e), p) == Deficit(s, p)
    ensures Answers(s, e, p) ==>
      Deficit(Step(s, e), p) == Deficit(Acknowledge(s, FindSent(s.sent, e.tag)), p)
  {
    var k := FindSent(s.sent, e.tag);
    var r := Receive(s, e.tag, e.response, e.error, e.command);
    if e.response && k >= 0 {
      AcknowledgeBalance(s, k, p);
      SameCounts(Acknowledge(s, k), r, p);
    } else {
      SameCounts(s, r, p);
    }
  }

  // ---- The accounting of every event ----

  // What event e adds to the deficit of a port p that is up after it.
  function Leak(s: Net, e: Event, p: nat): int
    requires p < |s.ports|
  {
    match e
    case RetransmitTick(_) => UnsentCount(s.sent, p)
    case Incoming(tag, _, _, _) =>
      if Answers(s, e, p) then
        var f := s.sent[FindSent(s.sent, tag)];
        var count := s.ports[p].outstanding;
        if f.retrans then Min(count, 0)
        else if f.timeFirst == 0 then Min(count, 1)
        else Min(count - 1, 0)
      else 0
    case IdleTick => if IsIdle(s.ports[p], s.h.clock) then s.ports[p].outstanding else 0
    case Enable(n) => if n == p then s.ports[p].outstanding else 0
    case _ => 0
  }

  lemma EventAccounting(s: Net, e: Event, p: nat)
    requires QueuesOk(s) && s.h.clock > 0 && p < |s.ports|
    requires |Step(s, e).ports| == |s.ports| && Step(s, e).ports[p].enabled
    ensures Deficit(Step(s, e), p) == Deficit(s, p) + Leak(s, e, p)
  {
    match e
    case Send(tag, ifc, shelf, retransmit) => SendBalanced(s, tag, ifc, shelf, retransmit, p);
    case TransmitTick => TransmitBalanced(s, p);
    case RetransmitTick(targets) =>
      RetransmitLeak(s, 0, false, targets, p);
      assert s.sent[0..] == s.sent;
    case Incoming(_, _, _, _) => ReceiveAccounting(s, e, p);
    case Disable(n) => FlyingPurge(DisconnectPort(s.ports, n), s.sent, p);
    case _ => SettingsAccounting(s, e, p);
  }

  lemma SendBalanced(s: Net, tag: nat, ifc: int, shelf: int, retransmit: bool, p: nat)
    requires p < |s.ports|
    ensures var s' := SendPacket(s, tag, ifc, shelf, retransmit);
      |s'.ports| == |s.ports| && Deficit(s', p) == Deficit(s, p)
  {
    if Used(s.ports, ifc) {
      FlyingConcat(s.sent, [SendPacket(s, tag, ifc, shelf, retransmit).sent[|s.sent|]], p);
    }
  }

  lemma ReceiveAccounting(s: Net, e: Event, p: nat)
    requires QueuesOk(s) && e.Incoming? && p < |s.ports| && |Step(s, e).ports| == |s.ports|
    ensures Deficit(Step(s, e), p) == Deficit(s, p) + Leak(s, e, p)
  {
    ReceiveBalance(s, e, p);
    if Answers(s, e, p) {
      AcknowledgeBalance(s, FindSent(s.sent, e.tag), p);
      assert EntryOk(s, s.sent[FindSent(s.sent, e.tag)]);
    }
  }

  lemma SettingsAccounting(s: Net, e: Event, p: nat)
    requires e.IdleTick? || e.Enable? || e.Reconnect? || e.SetUserWindow? || e.SetShelf?
    requires p < |s.ports| && |Step(s, e).ports| == |s.ports|
    ensures Deficit(Step(s, e), p) == Deficit(s, p) + Leak(s, e, p)
  {
  }

  lemma PortCount(s: Net, t: Timed)
    requires QueuesOk(s) && Legal(s, t)
    ensures |Apply(s, t).ports| == |s.ports| == MAX_PORTS
  {
    StepKeepsQueues(s, t);
  }

  lemma StepAccounting(s: Net, t: Timed, p: nat)
    requires QueuesOk(s) && Legal(s, t) && p < MAX_PORTS
    ensures |Apply(s, t).ports| == |s.ports| == MAX_PORTS
    ensures Apply(s, t).ports[p].enabled ==>
      Deficit(Apply(s, t), p) == Deficit(s, p) + Leak(At(s, t.now), t.event, p)
  {
    PortCount(s, t);
    PortsOnly(s, At(s, t.now));
    if Apply(s, t).ports[p].enabled {
      EventAccounting(At(s, t.now), t.event, p);
    }
  }

  // ---- Exactness ----

  // The count is exactly the number of packets in flight; it is then never negative.
  ghost predicate Exact(s: Net) {
    forall p :: 0 <= p < |s.ports| && s.ports[p].enabled ==> Deficit(s, p) == 0
  }

  // When event e keeps the count of port p exact, in terms of the state before it.
  predicate Clean(s: Net, e: Event, p: nat)
    requires p < |s.ports|
  {
    match e
    case RetransmitTick(_) => UnsentCount(s.sent, p) == 0
    case Incoming(tag, _, _, _) =>
      Answers(s, e, p) && s.sent[FindSent(s.sent, tag)].timeFirst == 0 ==> s.ports[p].outstanding == 0
    case IdleTick => IsIdle(s.ports[p], s.h.clock) ==> s.ports[p].outstanding == 0
    case Enable(n) => n == p && s.ports[p].enabled ==> s.ports[p].outstanding == 0
    case Reconnect(n) => n == p && !s.ports[p].enabled ==> s.ports[p].outstanding == 0
    case _ => true
  }

  // An exact count stays exact through an event if and only if the event is clean.
  lemma ExactIffClean(s: Net, t: Timed, p: nat)
    requires QueuesOk(s) && Legal(s, t) && p < MAX_PORTS
    requires s.ports[p].enabled ==> Deficit(s, p) == 0
    ensures |Apply(s, t).ports| == |s.ports| == MAX_PORTS
    ensures Apply(s, t).ports[p].enabled ==>
      (Deficit(Apply(s, t), p) == 0 <==> Clean(At(s, t.now), t.event, p))
  {
    StepAccounting(s, t, p);
    var s0 := At(s, t.now);
    PortsOnly(s, s0);
    if !s.ports[p].enabled { DownIsEmpty(s, p); }
    if Answers(s0, t.event, p) {
      var k := FindSent(s0.sent, t.event.tag);
      assert EntryOk(s0, s0.sent[k]);
      FlyingSplit(s.sent, k, p);
    }
    if Apply(s, t).ports[p].enabled && !s.ports[p].enabled {
      UpByLinkEvent(s0, t.event, p);
    }
  }

  // A port comes up only by being enabled or reconnected.
  lemma UpByLinkEvent(s: Net, e: Event, p: nat)
    requires QueuesOk(s) && p < |s.ports| && s.h.clock > 0
    requires |Step(s, e).ports| == |s.ports| && !s.ports[p].enabled && Step(s, e).ports[p].enabled
    ensures e == Enable(p) || e == Reconnect(p)
  {
    LinksStay(s, e, p);
  }

  lemma {:induction false} FlushLinks(s: Net, j: nat, p: nat)
    requires j <= |s.toSend| && p < |s.ports|
    ensures FlushImmediate(s, j).ports[p].enabled == s.ports[p].enabled
    decreases |s.toSend| - j
  {
    if j < |s.toSend| {
      if s.toSend[j].immediate { FlushLinks(SendFromQueue(s, j), j, p); } else { FlushLinks(s, j + 1, p); }
    }
  }

  lemma {:induction false} RetransmitLinks(s: Net, i: nat, adjusted: bool, targets: nat, p: nat)
    requires i <= |s.sent| && p < |s.ports|
    ensures var s' := RetransmitFrom(s, i, adjusted, targets);
      |s'.ports| == |s.ports| && s'.ports[p].enabled == s.ports[p].enabled
    decreases |s.sent| - i
  {
    if i < |s.sent| {
      match Judge(s.sent[i], s.h.clock)
      case Keep => RetransmitLinks(s, i + 1, adjusted, targets, p);
      case Discard => RetransmitLinks(Drop(s, i), i, adjusted, targets, p);
      case Again =>
        var s' := if adjusted then s else CollapseWindow(s, s.sent[i].ifc);
        RetransmitLinks(Resend(s', i, targets), i + 1, true, targets, p);
    }
  }

  lemma LinksStay(s: Net, e: Event, p: nat)
    requires QueuesOk(s) && p < |s.ports| && |Step(s, e).ports| == |s.ports|
    ensures Step(s, e).ports[p].enabled ==> s.ports[p].enabled || e == Enable(p) || e == Reconnect(p)
  {
    match e
    case TransmitTick => FlushLinks(s, 0, p);
    case RetransmitTick(targets) => RetransmitLinks(s, 0, false, targets, p);
    case Incoming(_, _, _, _) => ReceiveBalance(s, e, p);
    case _ =>
  }

  ghost predicate CleanRun(s: Net, ts: seq<Timed>)
    decreases |ts|
  {
    ts == [] || (
      && (forall p :: 0 <= p < |s.ports| && |Apply(s, ts[0]).ports| == |s.ports| && Apply(s, ts[0]).ports[p].enabled
            ==> Clean(At(s, ts[0].now), ts[0].event, p))
      && CleanRun(Apply(s, ts[0]), ts[1..]))
  }

  // Over every legal run whose events are clean, each count is exact.
  lemma {:induction false} CleanRunExact(s: Net, ts: seq<Timed>)
    requires QueuesOk(s) && Exact(s) && LegalRun(s, ts) && CleanRun(s, ts)
    ensures QueuesOk(Run(s, ts)) && Exact(Run(s, ts))
    decreases |ts|
  {
    if ts != [] {
      var s' := Apply(s, ts[0]);
      StepKeepsQueues(s, ts[0]);
      forall p | 0 <= p < |s'.ports| && s'.ports[p].enabled ensures Deficit(s', p) == 0 {
        ExactIffClean(s, ts[0], p);
      }
      CleanRunExact(s', ts[1..]);
    }
  }

  // ---- No stuck window ----

  // Every counted packet of a port that is up is really in flight.
  ghost predicate Covered(s: Net) {
    forall p :: 0 <= p < |s.ports| && s.ports[p].enabled ==> s.ports[p].outstanding <= Flying(s.sent, p)
  }

  // Each event keeps the cover of port p, unless it reconnects a port that went down with
  // packets still counted; then the cover is lost.
  lemma CoverIff(s: Net, t: Timed, p: nat)
    requires QueuesOk(s) && Legal(s, t) && p < MAX_PORTS
    requires s.ports[p].enabled ==> Deficit(s, p) >= 0
    ensures |Apply(s, t).ports| == |s.ports| == MAX_PORTS
    ensures Apply(s, t).ports[p].enabled ==>
      (Deficit(Apply(s, t), p) >= 0 <==>
       !(t.event == Reconnect(p) && !s.ports[p].enabled && s.ports[p].outstanding > 0))
  {
    StepAccounting(s, t, p);
    var s0 := At(s, t.now);
    PortsOnly(s, s0);
    if !s.ports[p].enabled { DownIsEmpty(s, p); }
    if Answers(s0, t.event, p) {
      var k := FindSent(s0.sent, t.event.tag);
      assert EntryOk(s0, s0.sent[k]);
      FlyingSplit(s.sent, k, p);
    }
    if Apply(s, t).ports[p].enabled && !s.ports[p].enabled {
      UpByLinkEvent(s0, t.event, p);
    }
  }

  lemma {:induction false} RunStaysCovered(s: Net, ts: seq<Timed>)
    requires QueuesOk(s) && Covered(s) && LegalRun(s, ts)
    requires forall i :: 0 <= i < |ts| ==> !ts[i].event.Reconnect?
    ensures QueuesOk(Run(s, ts)) && Covered(Run(s, ts))
    decreases |ts|
  {
    if ts != [] {
      var s' := Apply(s, ts[0]);
      StepKeepsQueues(s, ts[0]);
      forall p | 0 <= p < |s'.ports| && s'.ports[p].enabled
        ensures s'.ports[p].outstanding <= Flying(s'.sent, p)
      {
        assert Deficit(s, p) >= 0 || !s.ports[p].enabled;
        CoverIff(s, ts[0], p);
      }
      RunStaysCovered(s', ts[1..]);
    }
  }

  // So a positive count always has a packet on the wire that will be answered, resent or
  // dropped: no port is blocked for ever.
  lemma NoStuckWindow(ts: seq<Timed>, p: nat)
    requires LegalRun(InitialNet(), ts) && p < MAX_PORTS
    requires forall i :: 0 <= i < |ts| ==> !ts[i].event.Reconnect?
    ensures var s := Run(InitialNet(), ts);
      |s.ports| == MAX_PORTS &&
      (s.ports[p].enabled && s.ports[p].outstanding > 0 ==>
       exists k :: 0 <= k < |s.sent| && InFlight(s.sent[k], p) && s.sent[k].timeSent != 0)
  {
    PortsOkInitial();
    var s := Run(InitialNet(), ts);
    RunStaysCovered(InitialNet(), ts);
    if s.ports[p].enabled && s.ports[p].outstanding > 0 {
      FlyingWitness(s.sent, p);
      var k :| 0 <= k < |s.sent| && InFlight(s.sent[k], p);
      assert EntryOk(s, s.sent[k]);
    }
  }
}
