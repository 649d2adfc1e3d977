/** The two queues agree: no packet is lost or queued twice. */
module Queues {
  import opened Common
  import opened Interfaces
  import opened Transport

  // The to-send entry of a packet that waits to go out.
  function Waiting(e: Sent): ToSend {
    ToSend(e.tag, e.ifc, e.shelf, e.timeFirst != 0)
  }

  ghost predicate DistinctSent(q: seq<Sent>) {
    forall i, j :: 0 <= i < j < |q| ==> q[i].tag != q[j].tag
  }

  ghost predicate DistinctToSend(q: seq<ToSend>) {
    forall i, j :: 0 <= i < j < |q| ==> q[i].tag != q[j].tag
  }

  // The flags and times of an entry are consistent, and it has its to-send entry exactly
  // while it waits to go out.
  ghost predicate EntryOk(s: Net, e: Sent) {
    && Used(s.ports, e.ifc)
    && e.tag in Tags(s.h.accepted)
    && (e.timeFirst == 0 ==> e.timeSent == 0 && !e.retrans)
    && (e.timeFirst != 0 && e.timeSent == 0 ==> e.retrans)
    && (e.timeSent == 0 ==> Waiting(e) in s.toSend)
  }

  ghost predicate ItemOk(s: Net, t: ToSend) {
    && Used(s.ports, t.ifc)
    && t.tag in Tags(s.h.accepted)
    && forall i :: 0 <= i < |s.sent| && s.sent[i].tag == t.tag ==>
         s.sent[i].timeSent == 0 && t == Waiting(s.sent[i])
  }

  ghost predicate QueuesOk(s: Net) {
    && PortsOk(s.ports)
    && DistinctSent(s.sent)
    && DistinctToSend(s.toSend)
    && (forall i :: 0 <= i < |s.sent| ==> EntryOk(s, s.sent[i]))
    && (forall j :: 0 <= j < |s.toSend| ==> ItemOk(s, s.toSend[j]))
  }

  // Operations on the ports that leave every port's link state alone.
  ghost predicate SameLinks(ps: Ports, ps': Ports) {
    && PortsOk(ps')
    && |ps'| == |ps|
    && forall k :: 0 <= k < |ps| ==> ps'[k].enabled == ps[k].enabled && ps'[k].ifnet == ps[k].ifnet
  }

  lemma PortsOnly(s: Net, s': Net)
    requires QueuesOk(s) && SameLinks(s.ports, s'.ports)
    requires s'.sent == s.sent && s'.toSend == s.toSend && s'.h.accepted == s.h.accepted
    ensures QueuesOk(s')
  {
    forall i | 0 <= i < |s'.sent| ensures EntryOk(s', s'.sent[i]) {
      assert EntryOk(s, s.sent[i]);
    }
    forall j | 0 <= j < |s'.toSend| ensures ItemOk(s', s'.toSend[j]) {
      assert ItemOk(s, s.toSend[j]);
    }
  }

  lemma SendKeeps(s: Net, tag: nat, ifc: int, shelf: int, retransmit: bool)
    requires QueuesOk(s) && tag !in Tags(s.h.accepted) && Used(s.ports, ifc)
    ensures QueuesOk(SendPacket(s, tag, ifc, shelf, retransmit))
  {
    var s' := SendPacket(s, tag, ifc, shelf, retransmit);
    var p := s'.h.accepted[|s.h.accepted|];
    assert forall q :: q in s.h.accepted ==> q in s'.h.accepted;
    assert p in s'.h.accepted && p.tag == tag;
    forall i | 0 <= i < |s'.sent| ensures EntryOk(s', s'.sent[i]) {
      if i < |s.sent| {
        assert EntryOk(s, s.sent[i]);
      } else {
        assert s'.toSend[|s.toSend|] == Waiting(s'.sent[i]);
      }
    }
    forall j | 0 <= j < |s'.toSend| ensures ItemOk(s', s'.toSend[j]) {
      if j < |s.toSend| {
        assert ItemOk(s, s.toSend[j]);
      } else {
        forall i | 0 <= i < |s.sent| ensures s.sent[i].tag != tag {
          assert EntryOk(s, s.sent[i]);
        }
      }
    }
    forall j | 0 <= j < |s.toSend| ensures s.toSend[j].tag != tag {
      assert ItemOk(s, s.toSend[j]);
    }
    forall i | 0 <= i < |s.sent| ensures s.sent[i].tag != tag {
      assert EntryOk(s, s.sent[i]);
    }
  }

  // The entry a to-send item stands for, if its packet is still in the sent queue.
  lemma FromQueueEntry(s: Net, j: nat)
    requires QueuesOk(s) && j < |s.toSend|
    ensures var k := FindSent(s.sent, s.toSend[j].tag);
      k >= 0 ==> s.toSend[j] == Waiting(s.sent[k]) && s.sent[k].timeSent == 0
  {
    assert ItemOk(s, s.toSend[j]);
  }

  lemma SendFromQueueKeeps(s: Net, j: nat)
    requires QueuesOk(s) && j < |s.toSend| && s.h.clock > 0
    ensures QueuesOk(SendFromQueue(s, j))
  {
    var t := s.toSend[j];
    var k := FindSent(s.sent, t.tag);
    var s' := SendFromQueue(s, j);
    FromQueueEntry(s, j);
    RemoveAtMembers(s.toSend, j);
    forall i | 0 <= i < |s'.sent| ensures EntryOk(s', s'.sent[i]) {
      assert EntryOk(s, s.sent[i]);
      if i != k {
        assert s.sent[i].tag != t.tag;
        assert Waiting(s.sent[i]) != t;
      }
    }
    forall m | 0 <= m < |s'.toSend| ensures ItemOk(s', s'.toSend[m]) {
      var m' := if m < j then m else m + 1;
      assert ItemOk(s, s.toSend[m']);
      assert s'.toSend[m].tag != t.tag;
    }
  }

  lemma {:induction false} FlushKeeps(s: Net, j: nat)
    requires QueuesOk(s) && j <= |s.toSend| && s.h.clock > 0
    requires forall m :: 0 <= m < j ==> !s.toSend[m].immediate
    ensures var s' := FlushImmediate(s, j);
      && QueuesOk(s') && s'.h.clock == s.h.clock
      && forall m :: 0 <= m < |s'.toSend| ==> !s'.toSend[m].immediate
    decreases |s.toSend| - j
  {
    if j < |s.toSend| {
      if s.toSend[j].immediate {
        SendFromQueueKeeps(s, j);
        FlushKeeps(SendFromQueue(s, j), j);
      } else {
        FlushKeeps(s, j + 1);
      }
    }
  }

  lemma TransmitKeeps(s: Net)
    requires QueuesOk(s) && s.h.clock > 0
    ensures QueuesOk(Transmit(s))
  {
    FlushKeeps(s, 0);
    var flushed := FlushImmediate(s, 0);
    if Choose(flushed, 0) >= 0 {
      SendFromQueueKeeps(flushed, Choose(flushed, 0));
    }
  }

  // Taking an entry out of the sent queue leaves at most an orphan to-send item behind,
  // which send_packet_from_queue discards.
  lemma RemoveSentKeeps(s: Net, k: nat, s': Net)
    requires QueuesOk(s) && k < |s.sent|
    requires s'.sent == RemoveAt(s.sent, k) && s'.toSend == s.toSend
    requires SameLinks(s.ports, s'.ports) && s'.h.accepted == s.h.accepted
    ensures QueuesOk(s')
  {
    forall i | 0 <= i < |s'.sent| ensures EntryOk(s', s'.sent[i]) {
      assert EntryOk(s, s.sent[if i < k then i else i + 1]);
    }
    forall j | 0 <= j < |s'.toSend| ensures ItemOk(s', s'.toSend[j]) {
      assert ItemOk(s, s.toSend[j]);
    }
  }

  lemma ResendKeeps(s: Net, k: nat, targets: nat)
    requires QueuesOk(s) && k < |s.sent| && s.sent[k].timeFirst != 0 && s.sent[k].timeSent != 0
    ensures QueuesOk(Resend(s, k, targets))
  {
    var s' := Resend(s, k, targets);
    var e := s.sent[k];
    assert EntryOk(s, e);
    assert s'.toSend[|s.toSend|] == Waiting(s'.sent[k]);
    forall j | 0 <= j < |s.toSend| ensures s.toSend[j].tag != e.tag {
      assert ItemOk(s, s.toSend[j]);
    }
    forall i | 0 <= i < |s'.sent| ensures EntryOk(s', s'.sent[i]) {
      assert EntryOk(s, s.sent[i]);
      assert forall t :: t in s.toSend ==> t in s'.toSend;
    }
    forall j | 0 <= j < |s'.toSend| ensures ItemOk(s', s'.toSend[j]) {
      if j < |s.toSend| {
        assert ItemOk(s, s.toSend[j]);
      }
    }
  }

  lemma {:induction false} RetransmitKeeps(s: Net, i: nat, adjusted: bool, targets: nat)
    requires QueuesOk(s) && i <= |s.sent|
    ensures QueuesOk(RetransmitFrom(s, i, adjusted, targets))
    decreases |s.sent| - i
  {
    if i < |s.sent| {
      match Judge(s.sent[i], s.h.clock)
      case Keep =>
        RetransmitKeeps(s, i + 1, adjusted, targets);
      case Discard =>
        RemoveSentKeeps(s, i, Drop(s, i));
        RetransmitKeeps(Drop(s, i), i, adjusted, targets);
      case Again =>
        var s' := if adjusted then s else CollapseWindow(s, s.sent[i].ifc);
        PortsOkWindow(s.ports, s.sent[i].ifc, 0);
        PortsOnly(s, s');
        ResendKeeps(s', i, targets);
        RetransmitKeeps(Resend(s', i, targets), i + 1, true, targets);
    }
  }

  lemma AcknowledgeKeeps(s: Net, k: nat)
    requires QueuesOk(s) && k < |s.sent|
    ensures QueuesOk(Acknowledge(s, k))
  {
    var e := s.sent[k];
    PortsOkOutstanding(s.ports, e.ifc, 0, e.retrans);
    PortsOkWindow(AckOutstanding(s.ports, e.ifc, e.retrans), e.ifc, 0);
    RemoveSentKeeps(s, k, Acknowledge(s, k));
  }

  lemma {:induction false} PurgeSentDistinct(ps: Ports, q: seq<Sent>)
    requires DistinctSent(q)
    ensures DistinctSent(PurgeSent(ps, q))
  {
    if q != [] {
      PurgeSentDistinct(ps, q[1..]);
      var r := PurgeSent(ps, q[1..]);
      forall i | 0 <= i < |r| ensures r[i].tag != q[0].tag {
        assert r[i] in q[1..];
      }
    }
  }

  lemma {:induction false} PurgeToSendDistinct(ps: Ports, q: seq<ToSend>)
    requires DistinctToSend(q)
    ensures DistinctToSend(PurgeToSend(ps, q))
  {
    if q != [] {
      PurgeToSendDistinct(ps, q[1..]);
      var r := PurgeToSend(ps, q[1..]);
      forall i | 0 <= i < |r| ensures r[i].tag != q[0].tag {
        assert r[i] in q[1..];
      }
    }
  }

  // While every entry is on an enabled port there is nothing to purge.
  lemma {:induction false} PurgeToSendNothing(ps: Ports, q: seq<ToSend>)
    requires forall j :: 0 <= j < |q| ==> Used(ps, q[j].ifc)
    ensures PurgeToSend(ps, q) == q
  {
    if q != [] { PurgeToSendNothing(ps, q[1..]); }
  }

  lemma RejectedSendIsNoOp(s: Net, tag: nat, ifc: int, shelf: int, retransmit: bool)
    requires QueuesOk(s) && !Used(s.ports, ifc)
    ensures SendPacket(s, tag, ifc, shelf, retransmit) == s
  {
    forall j | 0 <= j < |s.toSend| ensures Used(s.ports, s.toSend[j].ifc) {
      assert ItemOk(s, s.toSend[j]);
    }
    PurgeToSendNothing(s.ports, s.toSend);
  }

  lemma DisableKeeps(s: Net, port: nat)
    requires QueuesOk(s)
    ensures QueuesOk(DisableLink(s, port))
  {
    var s' := DisableLink(s, port);
    PurgeSentDistinct(s'.ports, s.sent);
    PurgeToSendDistinct(s'.ports, s.toSend);
    forall i | 0 <= i < |s'.sent| ensures EntryOk(s', s'.sent[i]) {
      assert s'.sent[i] in s'.sent;
      var m :| 0 <= m < |s.sent| && s.sent[m] == s'.sent[i];
      assert EntryOk(s, s.sent[m]);
    }
    forall j | 0 <= j < |s'.toSend| ensures ItemOk(s', s'.toSend[j]) {
      assert s'.toSend[j] in s'.toSend;
      var m :| 0 <= m < |s.toSend| && s.toSend[m] == s'.toSend[j];
      assert ItemOk(s, s.toSend[m]);
      forall i | 0 <= i < |s'.sent| && s'.sent[i].tag == s'.toSend[j].tag
        ensures s'.sent[i].timeSent == 0 && s'.toSend[j] == Waiting(s'.sent[i])
      {
        assert s'.sent[i] in s'.sent;
        var n :| 0 <= n < |s.sent| && s.sent[n] == s'.sent[i];
      }
    }
  }

  // Bringing a port up disturbs no queued packet.
  lemma LinkUpKeeps(s: Net, s': Net, port: nat)
    requires QueuesOk(s)
    requires s'.ports == EnablePort(s.ports, port) || s'.ports == ReconnectPort(s.ports, port)
    requires s'.sent == s.sent && s'.toSend == s.toSend && s'.h.accepted == s.h.accepted
    ensures QueuesOk(s')
  {
    forall i | 0 <= i < |s'.sent| ensures EntryOk(s', s'.sent[i]) {
      assert EntryOk(s, s.sent[i]);
    }
    forall j | 0 <= j < |s'.toSend| ensures ItemOk(s', s'.toSend[j]) {
      assert ItemOk(s, s.toSend[j]);
    }
  }

  lemma ReceiveKeeps(s: Net, tag: nat, response: bool, error: bool, command: AoeCommand)
    requires QueuesOk(s)
    ensures QueuesOk(Receive(s, tag, response, error, command))
  {
    var k := FindSent(s.sent, tag);
    if k >= 0 {
      AcknowledgeKeeps(s, k);
    }
    var s' := if k < 0 || !response then s else Acknowledge(s, k);
    PortsOnly(s', Receive(s, tag, response, error, command));
  }

  lemma SettingsKeep(s: Net, e: Event)
    requires QueuesOk(s) && (e.IdleTick? || e.SetUserWindow? || e.SetShelf?)
    ensures QueuesOk(Step(s, e))
  {
    PortsOnly(s, Step(s, e));
  }

  lemma EventKeepsQueues(s: Net, e: Event)
    requires QueuesOk(s) && s.h.clock > 0 && (e.Send? ==> e.tag !in Tags(s.h.accepted))
    ensures QueuesOk(Step(s, e))
  {
    match e
    case Send(tag, ifc, shelf, retransmit) =>
      if Used(s.ports, ifc) {
        SendKeeps(s, tag, ifc, shelf, retransmit);
      } else {
        RejectedSendIsNoOp(s, tag, ifc, shelf, retransmit);
      }
    case TransmitTick => TransmitKeeps(s);
    case RetransmitTick(targets) => RetransmitKeeps(s, 0, false, targets);
    case Incoming(tag, response, error, command) => ReceiveKeeps(s, tag, response, error, command);
    case Enable(port) => LinkUpKeeps(s, Step(s, e), port);
    case Disable(port) => DisableKeeps(s, port);
    case Reconnect(port) => LinkUpKeeps(s, Step(s, e), port);
    case _ => SettingsKeep(s, e);
  }

  lemma StepKeepsQueues(s: Net, t: Timed)
    requires QueuesOk(s) && Legal(s, t)
    ensures QueuesOk(Apply(s, t))
  {
    PortsOnly(s, At(s, t.now));
    EventKeepsQueues(At(s, t.now), t.event);
  }

  // The two-queue invariant over every legal run.
  lemma {:induction false} RunKeepsQueues(s: Net, ts: seq<Timed>)
    requires QueuesOk(s) && LegalRun(s, ts)
    ensures QueuesOk(Run(s, ts))
    decreases |ts|
  {
    if ts != [] {
      StepKeepsQueues(s, ts[0]);
      RunKeepsQueues(Apply(s, ts[0]), ts[1..]);
    }
  }

  lemma ReachableQueues(ts: seq<Timed>)
    requires LegalRun(InitialNet(), ts)
    ensures QueuesOk(Run(InitialNet(), ts))
  {
    PortsOkInitial();
    RunKeepsQueues(InitialNet(), ts);
  }

  // What the invariant means for one packet: a packet that waits to go out has exactly one
  // to-send entry, which is immediate just when the packet has been out before; any other
  // packet of the sent queue has none.
  lemma ExactlyOneWaiting(s: Net, i: nat)
    requires QueuesOk(s) && i < |s.sent|
    ensures var e := s.sent[i];
      if e.timeSent == 0 then
        exists j :: 0 <= j < |s.toSend| && s.toSend[j] == Waiting(e) &&
          forall m :: 0 <= m < |s.toSend| && s.toSend[m].tag == e.tag ==> m == j
      else
        forall m :: 0 <= m < |s.toSend| ==> s.toSend[m].tag != e.tag
  {
    var e := s.sent[i];
    assert EntryOk(s, e);
    if e.timeSent == 0 {
      var j :| 0 <= j < |s.toSend| && s.toSend[j] == Waiting(e);
    } else {
      forall m | 0 <= m < |s.toSend| ensures s.toSend[m].tag != e.tag {
        assert ItemOk(s, s.toSend[m]);
      }
    }
  }
}
