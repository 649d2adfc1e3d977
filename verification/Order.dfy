/** Packets for one port and shelf first go out in the order in which they were accepted. */
module Order {
  import opened Common
  import opened Interfaces
  import opened Transport
  import opened Queues

  // Tags of the packets accepted for (ifc, shelf), of the first transmissions made there, and
  // of the fresh packets still queued for it, each in order.
  function Accepted(ps: seq<Packet>, ifc: int, shelf: int): seq<nat> {
    if ps == [] then []
    else
      var p := ps[|ps| - 1];
      Accepted(ps[..|ps| - 1], ifc, shelf) + (if p.ifc == ifc && p.shelf == shelf then [p.tag] else [])
  }

  lemma AcceptedAppend(ps: seq<Packet>, p: Packet, ifc: int, shelf: int)
    ensures Accepted(ps + [p], ifc, shelf)
         == Accepted(ps, ifc, shelf) + (if p.ifc == ifc && p.shelf == shelf then [p.tag] else [])
  {
    assert (ps + [p])[..|ps|] == ps;
  }

  function FirstSent(w: seq<Frame>, ifc: int, shelf: int): seq<nat> {
    if w == [] then []
    else
      var f := w[|w| - 1];
      FirstSent(w[..|w| - 1], ifc, shelf)
        + (if f.first && f.ifc == ifc && f.shelf == shelf then [f.tag] else [])
  }

  lemma FirstSentAppend(w: seq<Frame>, f: Frame, ifc: int, shelf: int)
    ensures FirstSent(w + [f], ifc, shelf)
         == FirstSent(w, ifc, shelf) + (if f.first && f.ifc == ifc && f.shelf == shelf then [f.tag] else [])
  {
    assert (w + [f])[..|w|] == w;
  }

  function One(t: ToSend, ifc: int, shelf: int): seq<nat> {
    if !t.immediate && t.ifc == ifc && t.shelf == shelf then [t.tag] else []
  }

  function Pending(q: seq<ToSend>, ifc: int, shelf: int): seq<nat> {
    if q == [] then [] else One(q[0], ifc, shelf) + Pending(q[1..], ifc, shelf)
  }

  lemma PendingFirst(q: seq<ToSend>, ifc: int, shelf: int)
    requires q != []
    ensures Pending(q, ifc, shelf) == One(q[0], ifc, shelf) + Pending(q[1..], ifc, shelf)
  {
  }

  lemma Regroup(x: seq<nat>, y: seq<nat>, z: seq<nat>)
    ensures x + (y + z) == x + y + z
  {
  }

  lemma {:induction false} PendingConcat(a: seq<ToSend>, b: seq<ToSend>, ifc: int, shelf: int)
    ensures Pending(a + b, ifc, shelf) == Pending(a, ifc, shelf) + Pending(b, ifc, shelf)
  {
    if a == [] {
      assert a + b == b;
    } else {
      PendingConcat(a[1..], b, ifc, shelf);
      assert (a + b)[1..] == a[1..] + b && (a + b)[0] == a[0];
      PendingFirst(a, ifc, shelf);
      PendingFirst(a + b, ifc, shelf);
      Regroup(One(a[0], ifc, shelf), Pending(a[1..], ifc, shelf), Pending(b, ifc, shelf));
    }
  }

  lemma PendingSplit(q: seq<ToSend>, j: nat, ifc: int, shelf: int)
    requires j < |q|
    ensures var before, after := Pending(q[..j], ifc, shelf), Pending(q[j + 1..], ifc, shelf);
      && Pending(q, ifc, shelf) == before + One(q[j], ifc, shelf) + after
      && Pending(RemoveAt(q, j), ifc, shelf) == before + after
  {
    var rest := q[j..];
    assert q == q[..j] + rest;
    PendingConcat(q[..j], rest, ifc, shelf);
    PendingFirst(rest, ifc, shelf);
    assert rest[1..] == q[j + 1..] && rest[0] == q[j];
    PendingConcat(q[..j], q[j + 1..], ifc, shelf);
  }

  // The first transmissions so far followed by the queued packets, as a subsequence of the
  // packets in their order of acceptance.
  ghost predicate InOrder(s: Net, ifc: int, shelf: int) {
    Subsequence(FirstSent(s.h.wire, ifc, shelf) + Pending(s.toSend, ifc, shelf),
                Accepted(s.h.accepted, ifc, shelf))
  }

  // Removing queued packets keeps the order.
  lemma FewerPending(s: Net, s': Net, ifc: int, shelf: int)
    requires InOrder(s, ifc, shelf)
    requires s'.h.accepted == s.h.accepted && s'.h.wire == s.h.wire
    requires Subsequence(Pending(s'.toSend, ifc, shelf), Pending(s.toSend, ifc, shelf))
    ensures InOrder(s', ifc, shelf)
  {
    var sent := FirstSent(s.h.wire, ifc, shelf);
    SubsequenceSelf(sent);
    SubsequenceConcat(sent, sent, Pending(s'.toSend, ifc, shelf), Pending(s.toSend, ifc, shelf));
    SubsequenceTransitive(sent + Pending(s'.toSend, ifc, shelf), sent + Pending(s.toSend, ifc, shelf),
                          Accepted(s.h.accepted, ifc, shelf));
  }

  // Sending from position j moves a fresh packet from the queue to the wire.
  lemma SendFromQueueMoves(s: Net, j: nat, ifc: int, shelf: int)
    requires QueuesOk(s) && j < |s.toSend|
    ensures var s' := SendFromQueue(s, j);
      && s'.h.accepted == s.h.accepted
      && (FindSent(s.sent, s.toSend[j].tag) < 0 ==> s'.h.wire == s.h.wire)
      && (FindSent(s.sent, s.toSend[j].tag) >= 0 ==>
           FirstSent(s'.h.wire, ifc, shelf)
           == FirstSent(s.h.wire, ifc, shelf) + One(s.toSend[j], ifc, shelf))
  {
    var t := s.toSend[j];
    var k := FindSent(s.sent, t.tag);
    FromQueueEntry(s, j);
    if k >= 0 {
      assert EntryOk(s, s.sent[k]);
      FirstSentAppend(s.h.wire, Frame(t.tag, t.ifc, t.shelf, s.sent[k].timeFirst == 0, s.h.clock), ifc, shelf);
    }
  }

  lemma MoveOne(sent: seq<nat>, before: seq<nat>, one: seq<nat>, after: seq<nat>, all: seq<nat>)
    requires Subsequence(sent + (before + one + after), all)
    requires one != [] ==> before == []
    ensures Subsequence((sent + one) + (before + after), all)
    ensures Subsequence(sent + (before + after), all)
  {
    var rest := before + after;
    if one == [] {
      assert before + one == before && sent + one == sent;
    } else {
      assert before + one == one && rest == after;
      Regroup(sent, one, rest);
      DropMiddle(sent, one, rest, all);
    }
  }

  lemma DropMiddle(sent: seq<nat>, one: seq<nat>, rest: seq<nat>, all: seq<nat>)
    requires Subsequence(sent + (one + rest), all)
    ensures Subsequence(sent + rest, all)
  {
    SubsequenceEmpty(one);
    SubsequenceSelf(sent);
    SubsequenceSelf(rest);
    SubsequenceConcat([], one, rest, rest);
    assert [] + rest == rest;
    SubsequenceConcat(sent, sent, rest, one + rest);
    SubsequenceTransitive(sent + rest, sent + (one + rest), all);
  }

  // It keeps the order of a key none of whose fresh packets is queued in front of j.
  lemma SendFromQueueOrder(s: Net, j: nat, ifc: int, shelf: int)
    requires QueuesOk(s) && j < |s.toSend| && InOrder(s, ifc, shelf)
    requires One(s.toSend[j], ifc, shelf) != [] ==> Pending(s.toSend[..j], ifc, shelf) == []
    ensures InOrder(SendFromQueue(s, j), ifc, shelf)
  {
    PendingSplit(s.toSend, j, ifc, shelf);
    SendFromQueueMoves(s, j, ifc, shelf);
    MoveOne(FirstSent(s.h.wire, ifc, shelf), Pending(s.toSend[..j], ifc, shelf), One(s.toSend[j], ifc, shelf),
            Pending(s.toSend[j + 1..], ifc, shelf), Accepted(s.h.accepted, ifc, shelf));
  }

  lemma {:induction false} FlushOrder(s: Net, j: nat, ifc: int, shelf: int)
    requires QueuesOk(s) && j <= |s.toSend| && s.h.clock > 0 && InOrder(s, ifc, shelf)
    ensures InOrder(FlushImmediate(s, j), ifc, shelf)
    decreases |s.toSend| - j
  {
    if j < |s.toSend| {
      if s.toSend[j].immediate {
        var r := SendFromQueue(s, j);
        assert One(s.toSend[j], ifc, shelf) == [];
        SendFromQueueKeeps(s, j);
        SendFromQueueOrder(s, j, ifc, shelf);
        FlushOrder(r, j, ifc, shelf);
      } else {
        FlushOrder(s, j + 1, ifc, shelf);
      }
    }
  }

  lemma {:induction false} NonePending(q: seq<ToSend>, ifc: int, shelf: int)
    requires forall k :: 0 <= k < |q| ==> q[k].ifc != ifc || q[k].shelf != shelf
    ensures Pending(q, ifc, shelf) == []
  {
    if q != [] { NonePending(q[1..], ifc, shelf); }
  }

  // The tick never passes over a packet for the same port and shelf: both see one window.
  lemma TransmitOrder(s: Net, ifc: int, shelf: int)
    requires QueuesOk(s) && s.h.clock > 0 && InOrder(s, ifc, shelf)
    ensures InOrder(Transmit(s), ifc, shelf)
  {
    FlushKeeps(s, 0);
    FlushOrder(s, 0, ifc, shelf);
    var f := FlushImmediate(s, 0);
    var j := Choose(f, 0);
    if j >= 0 {
      if One(f.toSend[j], ifc, shelf) != [] {
        forall k | 0 <= k < j ensures f.toSend[k].ifc != ifc || f.toSend[k].shelf != shelf {
          assert !WindowOpen(f, f.toSend[k]);
        }
        NonePending(f.toSend[..j], ifc, shelf);
      }
      SendFromQueueOrder(f, j, ifc, shelf);
    }
  }

  lemma {:induction false} RetransmitOrder(s: Net, i: nat, adjusted: bool, targets: nat, ifc: int, shelf: int)
    requires i <= |s.sent|
    ensures var s' := RetransmitFrom(s, i, adjusted, targets);
      && s'.h.accepted == s.h.accepted && s'.h.wire == s.h.wire
      && Pending(s'.toSend, ifc, shelf) == Pending(s.toSend, ifc, shelf)
    decreases |s.sent| - i
  {
    if i < |s.sent| {
      match Judge(s.sent[i], s.h.clock)
      case Keep => RetransmitOrder(s, i + 1, adjusted, targets, ifc, shelf);
      case Discard => RetransmitOrder(Drop(s, i), i, adjusted, targets, ifc, shelf);
      case Again =>
        var s' := if adjusted then s else CollapseWindow(s, s.sent[i].ifc);
        ResendOrder(s', i, targets, ifc, shelf);
        RetransmitOrder(Resend(s', i, targets), i + 1, true, targets, ifc, shelf);
    }
  }

  // What is queued to be sent again is not pending for the first time.
  lemma ResendOrder(s: Net, i: nat, targets: nat, ifc: int, shelf: int)
    requires i < |s.sent|
    ensures var r := Resend(s, i, targets);
      && r.h.accepted == s.h.accepted && r.h.wire == s.h.wire
      && Pending(r.toSend, ifc, shelf) == Pending(s.toSend, ifc, shelf)
  {
    var e := s.sent[i];
    var again := ToSend(e.tag, e.ifc, e.shelf, true);
    PendingConcat(s.toSend, [again], ifc, shelf);
    PendingFirst([again], ifc, shelf);
  }

  lemma {:induction false} PurgeOrder(ps: Ports, q: seq<ToSend>, ifc: int, shelf: int)
    ensures Subsequence(Pending(PurgeToSend(ps, q), ifc, shelf), Pending(q, ifc, shelf))
  {
    if q != [] {
      PurgeOrder(ps, q[1..], ifc, shelf);
      var kept := if Used(ps, q[0].ifc) then [q[0]] else [];
      PendingConcat(kept, PurgeToSend(ps, q[1..]), ifc, shelf);
      SubsequenceSelf(One(q[0], ifc, shelf));
      assert Subsequence(Pending(kept, ifc, shelf), One(q[0], ifc, shelf)) by {
        if kept != [] { assert Pending(kept, ifc, shelf) == One(q[0], ifc, shelf); }
      }
      SubsequenceConcat(Pending(kept, ifc, shelf), One(q[0], ifc, shelf),
                        Pending(PurgeToSend(ps, q[1..]), ifc, shelf), Pending(q[1..], ifc, shelf));
    }
  }

  lemma SendOrder(s: Net, tag: nat, ifc: int, shelf: int, retransmit: bool, i: int, sh: int)
    requires InOrder(s, i, sh) && Used(s.ports, ifc)
    ensures InOrder(SendPacket(s, tag, ifc, shelf, retransmit), i, sh)
  {
    var s' := SendPacket(s, tag, ifc, shelf, retransmit);
    var t := s'.toSend[|s.toSend|];
    PendingConcat(s.toSend, [t], i, sh);
    assert Pending([t], i, sh) == One(t, i, sh);
    AcceptedAppend(s.h.accepted, s'.h.accepted[|s.h.accepted|], i, sh);
    var before := FirstSent(s.h.wire, i, sh) + Pending(s.toSend, i, sh);
    SubsequenceSelf(One(t, i, sh));
    SubsequenceConcat(before, Accepted(s.h.accepted, i, sh), One(t, i, sh), One(t, i, sh));
    Regroup(FirstSent(s.h.wire, i, sh), Pending(s.toSend, i, sh), One(t, i, sh));
  }

  lemma EventKeepsOrder(s: Net, e: Event, ifc: int, shelf: int)
    requires QueuesOk(s) && s.h.clock > 0 && InOrder(s, ifc, shelf)
    ensures InOrder(Step(s, e), ifc, shelf)
  {
    match e
    case Send(tag, i, sh, retransmit) =>
      if Used(s.ports, i) {
        SendOrder(s, tag, i, sh, retransmit, ifc, shelf);
      } else {
        RejectedSendIsNoOp(s, tag, i, sh, retransmit);
      }
    case TransmitTick => TransmitOrder(s, ifc, shelf);
    case RetransmitTick(targets) => RetransmitOrder(s, 0, false, targets, ifc, shelf);
    case Disable(port) =>
      PurgeOrder(Step(s, e).ports, s.toSend, ifc, shelf);
      FewerPending(s, Step(s, e), ifc, shelf);
    case _ =>
  }

  lemma {:induction false} RunKeepsOrder(s: Net, ts: seq<Timed>, ifc: int, shelf: int)
    requires QueuesOk(s) && LegalRun(s, ts) && InOrder(s, ifc, shelf)
    ensures InOrder(Run(s, ts), ifc, shelf)
    decreases |ts|
  {
    if ts != [] {
      var s0 := At(s, ts[0].now);
      PortsOnly(s, s0);
      StepKeepsQueues(s, ts[0]);
      EventKeepsOrder(s0, ts[0].event, ifc, shelf);
      RunKeepsOrder(Apply(s, ts[0]), ts[1..], ifc, shelf);
    }
  }

  // Over every legal run: for each port and shelf the first transmissions form a subsequence
  // of the packets in their order of acceptance.
  lemma FirstTransmissionsInOrder(ts: seq<Timed>, ifc: int, shelf: int)
    requires LegalRun(InitialNet(), ts)
    ensures var h := Run(InitialNet(), ts).h;
      Subsequence(FirstSent(h.wire, ifc, shelf), Accepted(h.accepted, ifc, shelf))
  {
    var s := Run(InitialNet(), ts);
    PortsOkInitial();
    RunKeepsOrder(InitialNet(), ts, ifc, shelf);
    var sent, queued := FirstSent(s.h.wire, ifc, shelf), Pending(s.toSend, ifc, shelf);
    SubsequenceSelf(sent);
    SubsequenceConcat(sent, sent, [], queued);
    assert sent + [] == sent;
    SubsequenceTransitive(sent, sent + queued, Accepted(s.h.accepted, ifc, shelf));
  }
}
