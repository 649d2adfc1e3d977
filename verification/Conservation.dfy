/** No packet is lost: each one accepted is in the sent queue, or has left it for one reason. */
module Conservation {
  import opened Common
  import opened Interfaces
  import opened Transport
  import opened Dispatch
  import opened Timers

  function QueuedTags(q: seq<Sent>): (r: seq<nat>)
    ensures |r| == |q|
  {
    seq(|q|, i requires 0 <= i < |q| => q[i].tag)
  }

  function AcceptedTags(ps: seq<Packet>): (r: seq<nat>)
    ensures |r| == |ps|
  {
    seq(|ps|, i requires 0 <= i < |ps| => ps[i].tag)
  }

  function GoneTags(gs: seq<Gone>): (r: seq<nat>)
    ensures |r| == |gs|
  {
    seq(|gs|, i requires 0 <= i < |gs| => gs[i].tag)
  }

  // The packets accepted are those queued and those gone, each counted as often.
  ghost predicate Conserved(s: Net) {
    multiset(AcceptedTags(s.h.accepted)) == multiset(QueuedTags(s.sent)) + multiset(GoneTags(s.h.gone))
  }

  lemma QueuedAppend(a: seq<Sent>, b: seq<Sent>)
    ensures QueuedTags(a + b) == QueuedTags(a) + QueuedTags(b)
  {
  }

  lemma GoneAppend(a: seq<Gone>, b: seq<Gone>)
    ensures GoneTags(a + b) == GoneTags(a) + GoneTags(b)
    ensures multiset(GoneTags(a + b)) == multiset(GoneTags(a)) + multiset(GoneTags(b))
  {
  }

  // The tags of what a retransmit tick keeps and drops are those of the queue.
  lemma {:induction false} SweptOrDropped(q: seq<Sent>, now: nat)
    ensures multiset(QueuedTags(Swept(q, now))) + multiset(GoneTags(Dropped(q, now))) == multiset(QueuedTags(q))
  {
    if q != [] {
      SweptOrDropped(q[1..], now);
      assert q == [q[0]] + q[1..];
      QueuedAppend([q[0]], q[1..]);
      var verdict := Judge(q[0], now);
      var kept := match verdict case Keep => [q[0]] case Discard => [] case Again => [Resent(q[0])];
      var dropped := if verdict == Discard then [DropOf(q[0], now)] else [];
      QueuedAppend(kept, Swept(q[1..], now));
      GoneAppend(dropped, Dropped(q[1..], now));
      OneOfEach(q[0], verdict, now);
    }
  }

  lemma OneOfEach(e: Sent, verdict: Verdict, now: nat)
    ensures var kept := match verdict case Keep => [e] case Discard => [] case Again => [Resent(e)];
      var dropped := if verdict == Discard then [DropOf(e, now)] else [];
      multiset(QueuedTags(kept)) + multiset(GoneTags(dropped)) == multiset{e.tag} == multiset(QueuedTags([e]))
  {
    assert QueuedTags([e]) == [e.tag] && QueuedTags([Resent(e)]) == [e.tag] && GoneTags([DropOf(e, now)]) == [e.tag];
  }

  lemma {:induction false} KeptOrPurged(ps: Ports, q: seq<Sent>, now: nat)
    ensures multiset(QueuedTags(PurgeSent(ps, q))) + multiset(GoneTags(PurgedSent(ps, q, now))) == multiset(QueuedTags(q))
  {
    if q != [] {
      KeptOrPurged(ps, q[1..], now);
      assert q == [q[0]] + q[1..];
      QueuedAppend([q[0]], q[1..]);
      var used := Used(ps, q[0].ifc);
      QueuedAppend(if used then [q[0]] else [], PurgeSent(ps, q[1..]));
      GoneAppend(if used then [] else [Gone(q[0].tag, PortDown, now)], PurgedSent(ps, q[1..], now));
      OneOrOther(q[0], used, now);
    }
  }

  lemma OneOrOther(e: Sent, kept: bool, now: nat)
    ensures multiset(QueuedTags(if kept then [e] else [])) + multiset(GoneTags(if kept then [] else [Gone(e.tag, PortDown, now)]))
         == multiset{e.tag} == multiset(QueuedTags([e]))
  {
    assert QueuedTags([e]) == [e.tag] && GoneTags([Gone(e.tag, PortDown, now)]) == [e.tag];
  }

  // A purge keeps the entries in order.
  lemma {:induction false} PurgeSentOrder(ps: Ports, q: seq<Sent>)
    ensures Subsequence(PurgeSent(ps, q), q)
  {
    if q != [] {
      PurgeSentOrder(ps, q[1..]);
      var rest := PurgeSent(ps, q[1..]);
      if Used(ps, q[0].ifc) {
        assert ([q[0]] + rest)[1..] == rest;
      } else {
        assert PurgeSent(ps, q) == rest;
        SubsequencePrepend(rest, q);
      }
    }
  }

  lemma {:induction false} PurgeToSendOrder(ps: Ports, q: seq<ToSend>)
    ensures Subsequence(PurgeToSend(ps, q), q)
  {
    if q != [] {
      PurgeToSendOrder(ps, q[1..]);
      var rest := PurgeToSend(ps, q[1..]);
      if Used(ps, q[0].ifc) {
        assert ([q[0]] + rest)[1..] == rest;
      } else {
        assert PurgeToSend(ps, q) == rest;
        SubsequencePrepend(rest, q);
      }
    }
  }

  lemma QueuedRemove(q: seq<Sent>, k: nat)
    requires k < |q|
    ensures multiset(QueuedTags(RemoveAt(q, k))) + multiset{q[k].tag} == multiset(QueuedTags(q))
  {
    assert q == q[..k] + ([q[k]] + q[k + 1..]);
    QueuedAppend(q[..k], q[k + 1..]);
    QueuedAppend(q[..k], [q[k]] + q[k + 1..]);
    QueuedAppend([q[k]], q[k + 1..]);
    assert QueuedTags([q[k]]) == [q[k].tag];
  }

  // Output changes no tag of the sent queue.
  lemma SendFromQueueTags(s: Net, j: nat)
    requires j < |s.toSend|
    ensures var s' := SendFromQueue(s, j);
      QueuedTags(s'.sent) == QueuedTags(s.sent) && s'.h.accepted == s.h.accepted && s'.h.gone == s.h.gone
  {
  }

  lemma {:induction false} FlushTags(s: Net, j: nat)
    requires j <= |s.toSend|
    ensures var s' := FlushImmediate(s, j);
      QueuedTags(s'.sent) == QueuedTags(s.sent) && s'.h.accepted == s.h.accepted && s'.h.gone == s.h.gone
    decreases |s.toSend| - j
  {
    if j < |s.toSend| {
      if s.toSend[j].immediate {
        SendFromQueueTags(s, j);
        FlushTags(SendFromQueue(s, j), j);
      } else {
        FlushTags(s, j + 1);
      }
    }
  }

  // The packets that event e takes out of the sent queue, and why.
  function NewlyGone(s: Net, e: Event): seq<Gone> {
    match e
    case RetransmitTick(_) => Dropped(s.sent, s.h.clock)
    case Incoming(tag, response, _, _) => if response && FindSent(s.sent, tag) >= 0 then [Gone(tag, Answered, s.h.clock)] else []
    case Disable(n) => PurgedSent(DisconnectPort(s.ports, n), s.sent, s.h.clock)
    case _ => []
  }

  lemma SendConserves(s: Net, tag: nat, ifc: int, shelf: int, retransmit: bool)
    requires Conserved(s)
    ensures Conserved(SendPacket(s, tag, ifc, shelf, retransmit))
  {
    if Used(s.ports, ifc) {
      var s' := SendPacket(s, tag, ifc, shelf, retransmit);
      var e := s'.sent[|s.sent|];
      QueuedAppend(s.sent, [e]);
      assert QueuedTags([e]) == [tag];
      assert AcceptedTags(s'.h.accepted) == AcceptedTags(s.h.accepted) + [tag];
    }
  }

  lemma TransmitConserves(s: Net)
    ensures var s' := Transmit(s);
      QueuedTags(s'.sent) == QueuedTags(s.sent) && s'.h.accepted == s.h.accepted && s'.h.gone == s.h.gone
  {
    FlushTags(s, 0);
    var f := FlushImmediate(s, 0);
    if Choose(f, 0) >= 0 { SendFromQueueTags(f, Choose(f, 0)); }
  }

  lemma RetransmitConserves(s: Net, targets: nat)
    requires Conserved(s)
    ensures var s' := RetransmitFrom(s, 0, false, targets);
      Conserved(s') && s'.h.gone == s.h.gone + Dropped(s.sent, s.h.clock)
  {
    RetransmitSweeps(s, 0, false, targets);
    RetransmitDispatch(s, 0, false, targets);
    assert s.sent[0..] == s.sent && s.sent[..0] == [];
    assert RetransmitFrom(s, 0, false, targets).sent == Swept(s.sent, s.h.clock);
    SweptOrDropped(s.sent, s.h.clock);
    GoneAppend(s.h.gone, Dropped(s.sent, s.h.clock));
  }

  // What a packet with that tag that comes in does to the sent queue.
  ghost predicate AnswersTag(s: Net, tag: nat, response: bool, s': Net) {
    var k := FindSent(s.sent, tag);
    && s'.h.accepted == s.h.accepted
    && s'.sent == (if response && k >= 0 then RemoveAt(s.sent, k) else s.sent)
    && s'.h.gone == s.h.gone + (if response && k >= 0 then [Gone(tag, Answered, s.h.clock)] else [])
  }

  lemma ReceiveAnswers(s: Net, tag: nat, response: bool, error: bool, command: AoeCommand)
    ensures AnswersTag(s, tag, response, Receive(s, tag, response, error, command))
  {
  }

  lemma AnswerConserves(s: Net, tag: nat, response: bool, s': Net)
    requires Conserved(s) && AnswersTag(s, tag, response, s')
    ensures Conserved(s')
  {
    var k := FindSent(s.sent, tag);
    if response && k >= 0 {
      QueuedRemove(s.sent, k);
      GoneAppend(s.h.gone, [Gone(tag, Answered, s.h.clock)]);
      assert GoneTags([Gone(tag, Answered, s.h.clock)]) == [tag];
    } else {
      assert s'.h.gone == s.h.gone;
    }
  }

  lemma ReceiveConserves(s: Net, tag: nat, response: bool, error: bool, command: AoeCommand)
    requires Conserved(s)
    ensures Conserved(Receive(s, tag, response, error, command))
  {
    ReceiveAnswers(s, tag, response, error, command);
    AnswerConserves(s, tag, response, Receive(s, tag, response, error, command));
  }

  lemma DisableConserves(s: Net, n: nat)
    requires Conserved(s)
    ensures Conserved(DisableLink(s, n))
  {
    var ps := DisconnectPort(s.ports, n);
    KeptOrPurged(ps, s.sent, s.h.clock);
    GoneAppend(s.h.gone, PurgedSent(ps, s.sent, s.h.clock));
  }

  lemma StepConserves(s: Net, e: Event)
    requires Conserved(s)
    ensures Conserved(Step(s, e)) && Step(s, e).h.gone == s.h.gone + NewlyGone(s, e)
  {
    match e
    case Send(tag, ifc, shelf, retransmit) => SendConserves(s, tag, ifc, shelf, retransmit);
    case TransmitTick => TransmitConserves(s);
    case RetransmitTick(targets) => RetransmitConserves(s, targets);
    case Incoming(tag, response, error, command) =>
      ReceiveConserves(s, tag, response, error, command);
      ReceiveAnswers(s, tag, response, error, command);
    case Disable(n) => DisableConserves(s, n);
    case _ =>
  }

  lemma {:induction false} RunConserves(s: Net, ts: seq<Timed>)
    requires Conserved(s)
    ensures Conserved(Run(s, ts))
    decreases |ts|
  {
    if ts != [] {
      StepConserves(At(s, ts[0].now), ts[0].event);
      RunConserves(Apply(s, ts[0]), ts[1..]);
    }
  }

  // ---- Each tag once ----

  ghost predicate OnceAccepted(s: Net) {
    forall i, j :: 0 <= i < j < |s.h.accepted| ==> s.h.accepted[i].tag != s.h.accepted[j].tag
  }

  lemma StepOnceAccepted(s: Net, t: Timed)
    requires OnceAccepted(s) && Legal(s, t)
    ensures OnceAccepted(Apply(s, t))
  {
    var s0 := At(s, t.now);
    match t.event
    case Send(_, _, _, _) =>
      forall i | 0 <= i < |s.h.accepted| ensures s.h.accepted[i].tag != t.event.tag {
        assert s.h.accepted[i] in s.h.accepted;
      }
    case TransmitTick => TransmitConserves(s0);
    case RetransmitTick(targets) => RetransmitDispatch(s0, 0, false, targets);
    case _ =>
  }

  lemma {:induction false} RunOnceAccepted(s: Net, ts: seq<Timed>)
    requires OnceAccepted(s) && LegalRun(s, ts)
    ensures OnceAccepted(Run(s, ts))
    decreases |ts|
  {
    if ts != [] {
      StepOnceAccepted(s, ts[0]);
      RunOnceAccepted(Apply(s, ts[0]), ts[1..]);
    }
  }

  lemma {:induction false} DistinctCount(s: seq<nat>, x: nat)
    requires x in s && forall i, j :: 0 <= i < j < |s| ==> s[i] != s[j]
    ensures multiset(s)[x] == 1
    decreases |s|
  {
    assert s == [s[0]] + s[1..];
    if s[0] == x {
      assert x !in s[1..];
    } else {
      DistinctCount(s[1..], x);
    }
  }

  // Over every legal run each accepted packet is either in the sent queue, in one entry, or
  // has left it, for one recorded reason; and nothing else is queued or gone.
  lemma NothingLost(ts: seq<Timed>, tag: nat)
    requires LegalRun(InitialNet(), ts)
    ensures var s := Run(InitialNet(), ts);
      multiset(QueuedTags(s.sent))[tag] + multiset(GoneTags(s.h.gone))[tag] == (if tag in Tags(s.h.accepted) then 1 else 0)
  {
    var s := Run(InitialNet(), ts);
    RunConserves(InitialNet(), ts);
    RunOnceAccepted(InitialNet(), ts);
    var all := AcceptedTags(s.h.accepted);
    if tag in Tags(s.h.accepted) {
      var p :| p in s.h.accepted && p.tag == tag;
      var i :| 0 <= i < |s.h.accepted| && s.h.accepted[i] == p;
      assert all[i] == tag;
      DistinctCount(all, tag);
    } else {
      forall i | 0 <= i < |all| ensures all[i] != tag {
        assert s.h.accepted[i] in s.h.accepted;
      }
      assert tag !in multiset(all);
    }
  }
}
