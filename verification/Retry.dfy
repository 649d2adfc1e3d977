/** Time-outs back off and every packet is resent a bounded number of times. */
module Retry {
  import opened Common
  import opened Interfaces
  import opened Transport
  import opened Queues

  const MAX_RESENDS: nat := 12_000

  // The time-out of a packet after k resends, and its closed form.
  function TimeoutAfter(rtoUs: nat, k: nat): nat {
    if k == 0 then rtoUs else Backoff(TimeoutAfter(rtoUs, k - 1))
  }

  function Pow2(k: nat): nat {
    if k == 0 then 1 else 2 * Pow2(k - 1)
  }

  lemma {:induction false} TimeoutClosedForm(rtoUs: nat, k: nat)
    requires k >= 1
    ensures TimeoutAfter(rtoUs, k) == Min(Pow2(k) * rtoUs, 5_000)
  {
    if k == 1 {
      assert Pow2(1) == 2 && TimeoutAfter(rtoUs, 0) == rtoUs;
    } else {
      TimeoutClosedForm(rtoUs, k - 1);
      assert Pow2(k) * rtoUs == 2 * (Pow2(k - 1) * rtoUs);
    }
  }

  // A lower bound, in microseconds, on the time-out after k resends.
  function LeastTimeout(k: nat): nat {
    if k == 0 then 1000 else if k == 1 then 2000 else if k == 2 then 4000 else 5000
  }

  lemma {:induction false} TimeoutAtLeast(rtoUs: nat, k: nat)
    requires rtoUs >= 1000
    ensures TimeoutAfter(rtoUs, k) >= LeastTimeout(k)
  {
    if k > 0 { TimeoutAtLeast(rtoUs, k - 1); }
  }

  // Nanoseconds that k resends take at least, counted from the first transmission.
  function Spent(k: nat): nat {
    if k == 0 then 0 else Spent(k - 1) + 1000 * LeastTimeout(k - 1) + 500
  }

  lemma {:induction false} SpentClosedForm(k: nat)
    requires k >= 3
    ensures Spent(k) == 7_001_500 + (k - 3) * 5_000_500
  {
    if k == 3 {
      assert Spent(1) == 1_000_500;
      assert Spent(2) == 3_001_000;
    } else {
      SpentClosedForm(k - 1);
    }
  }

  lemma SpentWithinLimit(k: nat)
    requires Spent(k) <= 1000 * MAX_TIMEOUT_BEFORE_DROP_US + 499
    ensures k <= MAX_RESENDS
  {
    if k > MAX_RESENDS { SpentClosedForm(k); }
  }

  // The time-out and the times of an entry agree with the number of its resends.
  ghost predicate RetryOk(s: Net, e: Sent) {
    var k := Count(s.h.resent, e.tag);
    && (exists p :: p in s.h.accepted && p.tag == e.tag && p.ifc == e.ifc && p.shelf == e.shelf
          && (p.rtoUs == 0 || p.rtoUs >= 1000) && e.rtoUs == TimeoutAfter(p.rtoUs, k))
    && (e.retrans <==> k > 0)
    && (e.timeFirst != 0 ==> e.timeFirst + Spent(k) <= s.h.clock)
    && (e.timeSent != 0 ==> e.timeFirst + Spent(k) <= e.timeSent <= s.h.clock)
  }

  ghost predicate RetriesOk(s: Net) {
    && (forall i :: 0 <= i < |s.sent| ==> RetryOk(s, s.sent[i]))
    && (forall tag :: Count(s.h.resent, tag) <= MAX_RESENDS)
    && (forall tag :: tag in s.h.resent ==> tag in Tags(s.h.accepted))
  }

  lemma SameEntries(s: Net, s': Net)
    requires RetriesOk(s)
    requires forall i :: 0 <= i < |s'.sent| ==> s'.sent[i] in s.sent
    requires s'.h.resent == s.h.resent && s'.h.accepted == s.h.accepted && s.h.clock <= s'.h.clock
    ensures RetriesOk(s')
  {
    forall i | 0 <= i < |s'.sent| ensures RetryOk(s', s'.sent[i]) {
      var m :| 0 <= m < |s.sent| && s.sent[m] == s'.sent[i];
      assert RetryOk(s, s.sent[m]);
    }
  }

  lemma SendRetries(s: Net, tag: nat, ifc: int, shelf: int, retransmit: bool)
    requires RetriesOk(s) && Used(s.ports, ifc) && tag !in Tags(s.h.accepted)
    ensures RetriesOk(SendPacket(s, tag, ifc, shelf, retransmit))
  {
    var s' := SendPacket(s, tag, ifc, shelf, retransmit);
    assert forall p :: p in s.h.accepted ==> p in s'.h.accepted;
    forall i | 0 <= i < |s'.sent| ensures RetryOk(s', s'.sent[i]) {
      if i < |s.sent| {
        assert RetryOk(s, s.sent[i]);
      } else {
        var p := Packet(tag, ifc, shelf, s'.sent[i].rtoUs);
        assert s'.h.accepted[|s.h.accepted|] == p;
        assert Count(s.h.resent, tag) == 0;
      }
    }
  }

  lemma SendFromQueueRetries(s: Net, j: nat)
    requires QueuesOk(s) && RetriesOk(s) && j < |s.toSend| && s.h.clock > 0
    ensures RetriesOk(SendFromQueue(s, j))
  {
    var s' := SendFromQueue(s, j);
    var k := FindSent(s.sent, s.toSend[j].tag);
    FromQueueEntry(s, j);
    forall i | 0 <= i < |s'.sent| ensures RetryOk(s', s'.sent[i]) {
      assert RetryOk(s, s.sent[i]);
      if i == k {
        assert EntryOk(s, s.sent[k]);
        assert Spent(0) == 0;
      }
    }
  }

  lemma {:induction false} FlushRetries(s: Net, j: nat)
    requires QueuesOk(s) && RetriesOk(s) && j <= |s.toSend| && s.h.clock > 0
    ensures RetriesOk(FlushImmediate(s, j))
    decreases |s.toSend| - j
  {
    if j < |s.toSend| {
      if s.toSend[j].immediate {
        SendFromQueueRetries(s, j);
        SendFromQueueKeeps(s, j);
        FlushRetries(SendFromQueue(s, j), j);
      } else {
        FlushRetries(s, j + 1);
      }
    }
  }

  // A resend comes a full time-out after the last output and within the limit counted from
  // the first one, so the budget still covers it.
  lemma ResendInBudget(s: Net, e: Sent)
    requires RetryOk(s, e) && EntryOk(s, e) && Judge(e, s.h.clock) == Again
    ensures var k := Count(s.h.resent, e.tag);
      e.timeFirst + Spent(k + 1) <= s.h.clock && k + 1 <= MAX_RESENDS
  {
    var k := Count(s.h.resent, e.tag);
    var p :| p in s.h.accepted && p.tag == e.tag && (p.rtoUs == 0 || p.rtoUs >= 1000)
      && e.rtoUs == TimeoutAfter(p.rtoUs, k);
    if p.rtoUs == 0 {
      ZeroStaysZero(k);
    } else {
      TimeoutAtLeast(p.rtoUs, k);
      assert s.h.clock - e.timeSent >= 1000 * LeastTimeout(k) + 500;
      SpentWithinLimit(k + 1);
    }
  }

  lemma {:induction false} ZeroStaysZero(k: nat)
    ensures TimeoutAfter(0, k) == 0
  {
    if k > 0 { ZeroStaysZero(k - 1); }
  }

  lemma CountAppend(s: seq<nat>, x: nat, tag: nat)
    ensures Count(s + [x], tag) == Count(s, tag) + (if x == tag then 1 else 0)
  {
    CountConcat(s, [x], tag);
  }

  lemma ResendEntry(s: Net, i: nat, targets: nat, m: nat)
    requires QueuesOk(s) && RetriesOk(s) && i < |s.sent| && Judge(s.sent[i], s.h.clock) == Again && m < |s.sent|
    ensures RetryOk(Resend(s, i, targets), Resend(s, i, targets).sent[m])
  {
    assert EntryOk(s, s.sent[i]) && RetryOk(s, s.sent[i]) && RetryOk(s, s.sent[m]);
    ResendInBudget(s, s.sent[i]);
    CountAppend(s.h.resent, s.sent[i].tag, s.sent[m].tag);
  }

  lemma ResendRetries(s: Net, i: nat, targets: nat)
    requires QueuesOk(s) && RetriesOk(s) && i < |s.sent| && Judge(s.sent[i], s.h.clock) == Again
    ensures RetriesOk(Resend(s, i, targets)) && QueuesOk(Resend(s, i, targets))
  {
    ResendKeeps(s, i, targets);
    var s' := Resend(s, i, targets);
    var e := s.sent[i];
    assert EntryOk(s, e) && RetryOk(s, e);
    forall m | 0 <= m < |s'.sent| ensures RetryOk(s', s'.sent[m]) {
      ResendEntry(s, i, targets, m);
    }
    ResendInBudget(s, e);
    forall tag ensures Count(s'.h.resent, tag) <= MAX_RESENDS {
      CountAppend(s.h.resent, e.tag, tag);
    }
  }

  lemma DropRetries(s: Net, i: nat)
    requires QueuesOk(s) && RetriesOk(s) && i < |s.sent|
    ensures RetriesOk(Drop(s, i)) && QueuesOk(Drop(s, i))
  {
    RemoveSentKeeps(s, i, Drop(s, i));
    RemoveAtMembers(s.sent, i);
    SameEntries(s, Drop(s, i));
  }

  lemma CollapseRetries(s: Net, ifc: int)
    requires QueuesOk(s) && RetriesOk(s)
    ensures RetriesOk(CollapseWindow(s, ifc)) && QueuesOk(CollapseWindow(s, ifc))
  {
    PortsOkWindow(s.ports, ifc, 0);
    PortsOnly(s, CollapseWindow(s, ifc));
    SameEntries(s, CollapseWindow(s, ifc));
  }

  lemma AgainRetries(s: Net, i: nat, adjusted: bool, targets: nat) returns (r: Net)
    requires QueuesOk(s) && RetriesOk(s) && i < |s.sent| && Judge(s.sent[i], s.h.clock) == Again
    ensures RetriesOk(r) && QueuesOk(r) && |r.sent| == |s.sent|
    ensures RetransmitFrom(s, i, adjusted, targets) == RetransmitFrom(r, i + 1, true, targets)
  {
    var s' := if adjusted then s else CollapseWindow(s, s.sent[i].ifc);
    CollapseRetries(s, s.sent[i].ifc);
    ResendRetries(s', i, targets);
    r := Resend(s', i, targets);
  }

  lemma {:induction false} RetransmitRetries(s: Net, i: nat, adjusted: bool, targets: nat)
    requires QueuesOk(s) && RetriesOk(s) && i <= |s.sent|
    ensures RetriesOk(RetransmitFrom(s, i, adjusted, targets))
    decreases |s.sent| - i
  {
    if i < |s.sent| {
      match Judge(s.sent[i], s.h.clock)
      case Keep =>
        RetransmitRetries(s, i + 1, adjusted, targets);
      case Discard =>
        DropRetries(s, i);
        RetransmitRetries(Drop(s, i), i, adjusted, targets);
      case Again =>
        var r := AgainRetries(s, i, adjusted, targets);
        RetransmitRetries(r, i + 1, true, targets);
    }
  }

  lemma ReceiveRetries(s: Net, tag: nat, response: bool, error: bool, command: AoeCommand)
    requires RetriesOk(s)
    ensures RetriesOk(Receive(s, tag, response, error, command))
  {
    var k := FindSent(s.sent, tag);
    if k >= 0 { RemoveAtMembers(s.sent, k); }
    SameEntries(s, Receive(s, tag, response, error, command));
  }

  lemma EventKeepsRetries(s: Net, e: Event)
    requires QueuesOk(s) && RetriesOk(s) && s.h.clock > 0
    requires e.Send? ==> e.tag !in Tags(s.h.accepted)
    ensures RetriesOk(Step(s, e))
  {
    match e
    case Send(tag, ifc, shelf, retransmit) =>
      if Used(s.ports, ifc) {
        SendRetries(s, tag, ifc, shelf, retransmit);
      } else {
        SameEntries(s, Step(s, e));
      }
    case TransmitTick =>
      FlushRetries(s, 0);
      FlushKeeps(s, 0);
      var f := FlushImmediate(s, 0);
      if Choose(f, 0) >= 0 { SendFromQueueRetries(f, Choose(f, 0)); }
    case RetransmitTick(targets) => RetransmitRetries(s, 0, false, targets);
    case Incoming(tag, response, error, command) => ReceiveRetries(s, tag, response, error, command);
    case Disable(port) =>
      forall i | 0 <= i < |Step(s, e).sent| ensures Step(s, e).sent[i] in s.sent {
        assert Step(s, e).sent[i] in Step(s, e).sent;
      }
      SameEntries(s, Step(s, e));
    case _ => SameEntries(s, Step(s, e));
  }

  lemma {:induction false} RunKeepsRetries(s: Net, ts: seq<Timed>)
    requires QueuesOk(s) && RetriesOk(s) && LegalRun(s, ts)
    ensures RetriesOk(Run(s, ts)) && QueuesOk(Run(s, ts))
    decreases |ts|
  {
    if ts != [] {
      var s0 := At(s, ts[0].now);
      PortsOnly(s, s0);
      SameEntries(s, s0);
      EventKeepsRetries(s0, ts[0].event);
      StepKeepsQueues(s, ts[0]);
      RunKeepsRetries(Apply(s, ts[0]), ts[1..]);
    }
  }

  // Over every legal run no packet is resent more than 12000 times, and the time-out of a
  // queued packet is that of its first time-out doubled for each resend, up to the limit.
  lemma BoundedRetransmission(ts: seq<Timed>, tag: nat)
    requires LegalRun(InitialNet(), ts)
    ensures var s := Run(InitialNet(), ts);
      && Count(s.h.resent, tag) <= MAX_RESENDS
      && forall i :: 0 <= i < |s.sent| ==>
           var k := Count(s.h.resent, s.sent[i].tag);
           && (s.sent[i].retrans <==> k > 0)
           && exists p :: p in s.h.accepted && p.tag == s.sent[i].tag
                && s.sent[i].rtoUs == (if k == 0 then p.rtoUs else Min(Pow2(k) * p.rtoUs, 5_000))
  {
    PortsOkInitial();
    RunKeepsRetries(InitialNet(), ts);
    var s := Run(InitialNet(), ts);
    forall i | 0 <= i < |s.sent|
      ensures var k := Count(s.h.resent, s.sent[i].tag);
        && (s.sent[i].retrans <==> k > 0)
        && exists p :: p in s.h.accepted && p.tag == s.sent[i].tag
             && s.sent[i].rtoUs == (if k == 0 then p.rtoUs else Min(Pow2(k) * p.rtoUs, 5_000))
    {
      assert RetryOk(s, s.sent[i]);
      var k := Count(s.h.resent, s.sent[i].tag);
      var p :| p in s.h.accepted && p.tag == s.sent[i].tag && s.sent[i].rtoUs == TimeoutAfter(p.rtoUs, k);
      if k > 0 { TimeoutClosedForm(p.rtoUs, k); }
    }
  }
}
