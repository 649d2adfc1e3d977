/** Reachable states, and the steps that the runs given as examples are made of: on ports that
    are up, with a window of 8 for shelf 7. */
module Scenarios {
  import opened Common
  import opened Interfaces
  import opened Transport
  import opened Queues
  import opened Ledger

  ghost predicate Reached(s: Net) {
    exists ts :: LegalRun(InitialNet(), ts) && s == Run(InitialNet(), ts)
  }

  lemma ReachedInitial()
    ensures Reached(InitialNet())
  {
    assert LegalRun(InitialNet(), []) && Run(InitialNet(), []) == InitialNet();
  }

  lemma {:induction false} RunOneMore(s: Net, ts: seq<Timed>, t: Timed)
    ensures Run(s, ts + [t]) == Apply(Run(s, ts), t)
    ensures LegalRun(s, ts + [t]) <==> LegalRun(s, ts) && Legal(Run(s, ts), t)
    decreases |ts|
  {
    if ts == [] {
      assert ts + [t] == [t] && [t][1..] == [];
      assert Run(Apply(s, t), []) == Apply(s, t);
    } else {
      assert (ts + [t])[1..] == ts[1..] + [t];
      RunOneMore(Apply(s, ts[0]), ts[1..], t);
    }
  }

  lemma ReachedStep(s: Net, t: Timed)
    requires Reached(s) && Legal(s, t)
    ensures Reached(Apply(s, t))
  {
    var ts :| LegalRun(InitialNet(), ts) && s == Run(InitialNet(), ts);
    RunOneMore(InitialNet(), ts, t);
  }

  lemma ReachedIsOk(s: Net)
    requires Reached(s)
    ensures QueuesOk(s)
  {
    var ts :| LegalRun(InitialNet(), ts) && s == Run(InitialNet(), ts);
    ReachableQueues(ts);
  }

  // Port p is up, in slow start, with so many packets counted and that window.
  ghost predicate Up(s: Net, p: nat, outstanding: int, cwnd: int) {
    && p < |s.ports| && Used(s.ports, p)
    && var f := s.ports[p];
       && f.outstanding == outstanding && f.cwnd == cwnd < f.ssthresh == 64 && f.frac == 0
       && |f.shelfMax| == MAX_SHELFS && f.shelfMax[7] == 8
  }

  // A state on the way: no packet waits to be resent, and the tags from n on are fresh.
  ghost predicate OnTheWay(s: Net, n: nat, now: nat) {
    && Reached(s) && |s.ports| == MAX_PORTS && s.userWindow == DEFAULT_CONGESTION_WINDOW && s.h.clock == now
    && (forall i :: 0 <= i < |s.toSend| ==> !s.toSend[i].immediate)
    && (forall i :: 0 <= i < |s.sent| ==> s.sent[i].tag < n)
    && forall q :: q in s.h.accepted ==> q.tag < n
  }

  lemma AtStart(n: nat)
    ensures OnTheWay(InitialNet(), n, 0)
  {
    ReachedInitial();
  }

  // A port that was never up comes up, and hears of its window for shelf 7.
  lemma ComesUp(s: Net, n: nat, p: nat) returns (s': Net)
    requires OnTheWay(s, n, s.h.clock) && p < MAX_PORTS && s.ports[p] == InitialIface()
    ensures OnTheWay(s', n, s.h.clock + 1) && Up(s', p, 0, 1)
    ensures s'.ports == s.ports[p := s'.ports[p]] && s'.sent == s.sent && s'.toSend == s.toSend && s'.h == At(s, s.h.clock + 1).h
    ensures var on, shelf := Timed(s.h.clock + 1, Enable(p)), Timed(s.h.clock + 1, SetShelf(p, 7, 8));
      s' == Apply(Apply(s, on), shelf) && Apply(s, on).ports == s.ports[p := Apply(s, on).ports[p]]
  {
    var now := s.h.clock + 1;
    var up := Apply(s, Timed(now, Enable(p)));
    s' := Apply(up, Timed(now, SetShelf(p, 7, 8)));
    ReachedStep(s, Timed(now, Enable(p)));
    ReachedStep(up, Timed(now, SetShelf(p, 7, 8)));
    assert s'.ports[p].shelfMax[7] == 8;
  }

  // A packet for shelf 7 is accepted on port p.
  lemma IsAccepted(s: Net, n: nat, p: nat) returns (s': Net)
    requires OnTheWay(s, n, s.h.clock) && p < |s.ports| && Used(s.ports, p)
    ensures OnTheWay(s', n + 1, s.h.clock + 1) && s'.ports == s.ports
    ensures s'.toSend == s.toSend + [ToSend(n, p, 7, false)]
    ensures |s'.sent| == |s.sent| + 1 && s'.sent[..|s.sent|] == s.sent
    ensures var e := s'.sent[|s.sent|]; e.tag == n && e.ifc == p && !e.retrans && e.timeFirst == 0
    ensures s'.h.dispatched == s.h.dispatched && Tags(s'.h.accepted) == Tags(s.h.accepted) + {n}
    ensures var t := Timed(s.h.clock + 1, Send(n, p, 7, true)); Legal(s, t) && s' == Apply(s, t)
  {
    var t := Timed(s.h.clock + 1, Send(n, p, 7, true));
    s' := Apply(s, t);
    ReachedStep(s, t);
    assert forall q :: q in s'.h.accepted <==> q in s.h.accepted || q == s'.h.accepted[|s.h.accepted|];
    assert s'.h.accepted[|s.h.accepted|].tag == n;
  }

  lemma {:induction false} NoneImmediate(s: Net, j: nat)
    requires j <= |s.toSend| && forall i :: j <= i < |s.toSend| ==> !s.toSend[i].immediate
    ensures FlushImmediate(s, j) == s
    decreases |s.toSend| - j
  {
    if j < |s.toSend| { NoneImmediate(s, j + 1); }
  }

  // The packet at the head of the queue, at position k of the sent queue, goes out in a tick.
  lemma GoesOut(s: Net, n: nat, k: nat, outstanding: int, cwnd: int) returns (s': Net)
    requires OnTheWay(s, n, s.h.clock) && s.toSend != [] && k < |s.sent| && FindSent(s.sent, s.toSend[0].tag) == k
    requires s.toSend[0].shelf == 7 && s.toSend[0].ifc >= 0
    requires Up(s, s.toSend[0].ifc, outstanding, cwnd) && outstanding < cwnd <= 8
    ensures OnTheWay(s', n, s.h.clock + 1) && Up(s', s.toSend[0].ifc, outstanding + 1, cwnd)
    ensures s'.ports == s.ports[s.toSend[0].ifc := s'.ports[s.toSend[0].ifc]]
    ensures s'.toSend == s.toSend[1..] && s'.sent == s.sent[k := Output(s.sent[k], s.h.clock + 1)]
    ensures s' == Apply(s, Timed(s.h.clock + 1, TransmitTick))
    ensures s'.h.dispatched == s.h.dispatched && s'.h.accepted == s.h.accepted
  {
    var t := Timed(s.h.clock + 1, TransmitTick);
    s' := Apply(s, t);
    ReachedStep(s, t);
    HeadGoesOut(At(s, s.h.clock + 1));
    assert s' == SendFromQueue(At(s, s.h.clock + 1), 0);
  }

  lemma HeadGoesOut(s: Net)
    requires s.toSend != [] && WindowOpen(s, s.toSend[0])
    requires forall i :: 0 <= i < |s.toSend| ==> !s.toSend[i].immediate
    ensures Transmit(s) == SendFromQueue(s, 0)
  {
    NoneImmediate(s, 0);
    assert Choose(s, 0) == 0;
  }

  // A target on shelf 7, slot 0, answers the packet at position k of the sent queue.
  lemma IsAnswered(s: Net, n: nat, k: nat, p: nat, outstanding: int, cwnd: int) returns (s': Net)
    requires OnTheWay(s, n, s.h.clock) && k < |s.sent| && FindSent(s.sent, s.sent[k].tag) == k
    requires s.sent[k].ifc == p && !s.sent[k].retrans
    requires Up(s, p, outstanding, cwnd) && 0 < outstanding && 0 < cwnd < 63
    ensures OnTheWay(s', n, s.h.clock + 1) && Up(s', p, outstanding - 1, cwnd + 1)
    ensures s'.ports == s.ports[p := s'.ports[p]]
    ensures s'.toSend == s.toSend && s'.sent == RemoveAt(s.sent, k)
    ensures s'.h.dispatched == s.h.dispatched + [Response(s.sent[k].tag, AtaCommand(7, 0))]
    ensures s'.h.accepted == s.h.accepted
    ensures s' == Apply(s, Timed(s.h.clock + 1, Incoming(s.sent[k].tag, true, false, AtaCommand(7, 0))))
  {
    var t := Timed(s.h.clock + 1, Incoming(s.sent[k].tag, true, false, AtaCommand(7, 0)));
    s' := Apply(s, t);
    ReachedStep(s, t);
    var s0 := At(s, s.h.clock + 1);
    AnswerGrows(s.ports, p);
    assert s'.ports == Acknowledge(s0, k).ports;
  }

  // The first packet of the queue goes out and is answered.
  lemma OutAndBack(s: Net, n: nat, p: nat, cwnd: nat) returns (s': Net)
    requires OnTheWay(s, n, s.h.clock) && Up(s, p, 0, cwnd) && 0 < cwnd <= 8
    requires s.toSend != [] && s.toSend[0].ifc == p && s.toSend[0].shelf == 7
    requires s.sent != [] && s.sent[0].tag == s.toSend[0].tag && s.sent[0].ifc == p && !s.sent[0].retrans
    ensures OnTheWay(s', n, s'.h.clock) && Up(s', p, 0, cwnd + 1) && s'.h.clock > 0
    ensures s'.ports == s.ports[p := s'.ports[p]] && s'.toSend == s.toSend[1..] && s'.sent == s.sent[1..]
    ensures s'.h.dispatched == s.h.dispatched + [Response(s.toSend[0].tag, AtaCommand(7, 0))]
    ensures s'.h.accepted == s.h.accepted
  {
    var out := GoesOut(s, n, 0, 0, cwnd);
    s' := IsAnswered(out, n, 0, p, 1, cwnd);
    assert RemoveAt(out.sent, 0) == s.sent[1..];
  }

  lemma AnswerGrows(ps: Ports, p: nat)
    requires p < |ps| && Attached(ps, p) && 0 < ps[p].cwnd < ps[p].ssthresh && ps[p].frac == 0 && ps[p].outstanding > 0
    ensures AckWindow(AckOutstanding(ps, p, false), p)
         == ps[p := ps[p].(outstanding := ps[p].outstanding - 1, cwnd := ps[p].cwnd + 1)]
  {
  }

  // ---- A count below zero, and orphans ----

  // The to-send queue holds an item that is not immediate, with no packet in the sent queue.
  predicate Orphans(s: Net) {
    s.sent == [] && |s.toSend| == 1 && !s.toSend[0].immediate
  }

  // A search that a retransmit tick drops before it went out was never counted: the count of
  // the port drops below zero.
  lemma CountBelowZero()
    ensures exists s :: Reached(s) && |s.ports| == MAX_PORTS && s.ports[0].enabled && s.ports[0].outstanding == -1
                        && Flying(s.sent, 0) == 0 && Orphans(s)
  {
    AtStart(1);
    var s := ComesUp(InitialNet(), 1, 0);
    var search := Timed(s.h.clock, Send(0x4000_0001, 0, -1, false));
    var queued := Apply(s, search);
    var tick := Timed(s.h.clock, RetransmitTick(0));
    var end := Apply(queued, tick);
    ReachedStep(s, search);
    ReachedStep(queued, tick);
    assert queued.sent == [Sent(0x4000_0001, 0, -1, 0, 0, 0, false)];
    assert end == RetransmitFrom(Drop(At(queued, s.h.clock), 0), 0, false, 0);
    assert end.sent == [];
    assert end.toSend == queued.toSend == [ToSend(0x4000_0001, 0, -1, false)];
  }

  // So does the reply to a packet that never went out.
  lemma EarlyReplyLeavesOrphan()
    ensures exists s :: Reached(s) && Orphans(s)
  {
    AtStart(1);
    var s1 := ComesUp(InitialNet(), 1, 0);
    var s2 := IsAccepted(s1, 1, 0);
    var t := Timed(s2.h.clock, Incoming(1, true, false, AtaCommand(7, 0)));
    var s := Apply(s2, t);
    ReachedStep(s2, t);
    assert FindSent(s2.sent, 1) == 0;
    assert s.sent == RemoveAt(s2.sent, 0) == [] && s.toSend == s2.toSend;
    assert Orphans(s);
  }

  // ---- Room unused ----

  // Port 0 is full with its one packet. Port 1 has one packet out and a window of two, and its
  // next packet is queued behind one for port 0: the tick sends nothing.
  lemma RoomUnused()
    ensures exists s :: (Reached(s) && s.h.clock > 0 && |s.toSend| == 2 && WindowOpen(s, s.toSend[1])
                         && Transmit(s) == s)
  {
    AtStart(1);
    var s1 := ComesUp(InitialNet(), 1, 0);
    var s2 := ComesUp(s1, 1, 1);
    var s3 := IsAccepted(s2, 1, 1);
    var s5 := OutAndBack(s3, 2, 1, 1);
    var s := OneOutOnEach(s5);
    StopsAtFirst(s, 6);
  }

  lemma OneOutOnEach(s5: Net) returns (s: Net)
    requires OnTheWay(s5, 2, s5.h.clock) && Up(s5, 0, 0, 1) && Up(s5, 1, 0, 2) && s5.toSend == [] && s5.sent == []
    requires forall k :: 2 <= k < |s5.ports| ==> !s5.ports[k].enabled
    ensures OnTheWay(s, 6, s.h.clock) && Up(s, 0, 1, 1) && Up(s, 1, 1, 2) && s.h.clock > 0
    ensures s.toSend == [ToSend(4, 0, 7, false), ToSend(5, 1, 7, false)]
    ensures forall k :: 2 <= k < |s.ports| ==> !s.ports[k].enabled
  {
    var s6 := IsAccepted(s5, 2, 0);
    var s7 := GoesOut(s6, 3, 0, 0, 1);
    var s9 := SecondPortOut(s7);
    s := TwoQueued(s9);
  }

  lemma SecondPortOut(s7: Net) returns (s9: Net)
    requires OnTheWay(s7, 3, s7.h.clock) && Up(s7, 0, 1, 1) && Up(s7, 1, 0, 2) && s7.toSend == [] && |s7.sent| == 1
    ensures OnTheWay(s9, 4, s9.h.clock) && Up(s9, 0, 1, 1) && Up(s9, 1, 1, 2) && s9.toSend == []
    ensures forall k :: 2 <= k < |s7.ports| ==> |s9.ports| == |s7.ports| && s9.ports[k] == s7.ports[k]
  {
    var s8 := IsAccepted(s7, 3, 1);
    s9 := GoesOut(s8, 4, 1, 0, 2);
  }

  lemma TwoQueued(s9: Net) returns (s: Net)
    requires OnTheWay(s9, 4, s9.h.clock) && Up(s9, 0, 1, 1) && Up(s9, 1, 1, 2) && s9.toSend == []
    ensures OnTheWay(s, 6, s.h.clock) && s.ports == s9.ports && s.h.clock > 0
    ensures s.toSend == [ToSend(4, 0, 7, false), ToSend(5, 1, 7, false)]
  {
    var s10 := IsAccepted(s9, 4, 0);
    s := IsAccepted(s10, 5, 1);
  }

  lemma StopsAtFirst(s: Net, n: nat)
    requires OnTheWay(s, n, s.h.clock) && Up(s, 0, 1, 1) && Up(s, 1, 1, 2)
    requires s.toSend == [ToSend(4, 0, 7, false), ToSend(5, 1, 7, false)]
    requires forall k :: 2 <= k < |s.ports| ==> !s.ports[k].enabled
    ensures WindowOpen(s, s.toSend[1]) && Transmit(s) == s
  {
    NoneImmediate(s, 0);
    assert Window(s.ports, s.userWindow, 0, 7) == 1;
    assert AllFull(s.ports, 1);
    assert Choose(s, 0) == -1;
  }

  // Windows of one on both ports: port 0 is full with its one packet, nothing is out on port
  // 1, and the next packet for port 0 is queued in front of one for port 1. The tick passes
  // over the first and sends the second.
  lemma PassesFullPort()
    ensures exists s :: Reached(s) && s.h.clock > 0 && s.toSend == [ToSend(2, 0, 7, false), ToSend(3, 1, 7, false)]
                        && Up(s, 0, 1, 1) && Up(s, 1, 0, 1)
                        && Transmit(s).toSend == [ToSend(2, 0, 7, false)]
                        && Transmit(s).h.wire == s.h.wire + [Frame(3, 1, 7, true, s.h.clock)]
  {
    AtStart(1);
    var s1 := ComesUp(InitialNet(), 1, 0);
    var s2 := ComesUp(s1, 1, 1);
    var s4 := OneOutOnFirst(s2);
    var s5 := IsAccepted(s4, 2, 0);
    var s := IsAccepted(s5, 3, 1);
    assert FindSent(s.sent, 3) == 2;
    SecondGoesOut(s, 4, 2);
  }

  lemma OneOutOnFirst(s2: Net) returns (s: Net)
    requires OnTheWay(s2, 1, s2.h.clock) && Up(s2, 0, 0, 1) && Up(s2, 1, 0, 1) && s2.toSend == [] && s2.sent == []
    ensures OnTheWay(s, 2, s.h.clock) && Up(s, 0, 1, 1) && Up(s, 1, 0, 1) && s.h.clock > 0
    ensures s.toSend == [] && |s.sent| == 1
  {
    var s3 := IsAccepted(s2, 1, 0);
    s := GoesOut(s3, 2, 0, 0, 1);
  }

  lemma SecondGoesOut(s: Net, n: nat, k: nat)
    requires OnTheWay(s, n, s.h.clock) && Up(s, 0, 1, 1) && Up(s, 1, 0, 1)
    requires s.toSend == [ToSend(2, 0, 7, false), ToSend(3, 1, 7, false)]
    requires k < |s.sent| && FindSent(s.sent, 3) == k && s.sent[k].timeFirst == 0
    ensures Transmit(s).toSend == [ToSend(2, 0, 7, false)]
    ensures Transmit(s).h.wire == s.h.wire + [Frame(3, 1, 7, true, s.h.clock)]
  {
    NoneImmediate(s, 0);
    assert Window(s.ports, s.userWindow, 0, 7) == 1 == Window(s.ports, s.userWindow, 1, 7);
    assert s.ports[1].enabled && s.ports[1].outstanding == 0;
    assert Choose(s, 0) == Choose(s, 1) == 1;
  }
}
