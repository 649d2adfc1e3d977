/** Replies reach the controllers at most once. */
module Dispatch {
  import opened Common
  import opened Interfaces
  import opened Transport
  import opened Queues

  predicate Unicast(tag: nat) {
    tag != DEVICE_ONLINE_TAG && !IsBroadcast(tag)
  }

  function SentTags(q: seq<Sent>): set<nat> {
    set e | e in q :: e.tag
  }

  lemma SentTagsUpdate(q: seq<Sent>, k: nat, e: Sent)
    requires k < |q| && e.tag == q[k].tag
    ensures SentTags(q[k := e]) <= SentTags(q)
  {
    forall x | x in q[k := e] ensures x.tag in SentTags(q) {
      var i :| 0 <= i < |q| && q[k := e][i] == x;
      assert q[i] in q && x.tag == q[i].tag;
    }
  }

  // What the loops of the two timers leave alone.
  lemma {:induction false} FlushDispatch(s: Net, j: nat)
    requires j <= |s.toSend|
    ensures var s' := FlushImmediate(s, j);
      && SentTags(s'.sent) <= SentTags(s.sent)
      && s'.h.dispatched == s.h.dispatched && s'.h.accepted == s.h.accepted
    decreases |s.toSend| - j
  {
    if j < |s.toSend| {
      if s.toSend[j].immediate {
        SendFromQueueDispatch(s, j);
        FlushDispatch(SendFromQueue(s, j), j);
      } else {
        FlushDispatch(s, j + 1);
      }
    }
  }

  lemma SendFromQueueDispatch(s: Net, j: nat)
    requires j < |s.toSend|
    ensures var s' := SendFromQueue(s, j);
      && SentTags(s'.sent) <= SentTags(s.sent)
      && s'.h.dispatched == s.h.dispatched && s'.h.accepted == s.h.accepted
  {
    var k := FindSent(s.sent, s.toSend[j].tag);
    if k >= 0 { SentTagsUpdate(s.sent, k, Output(s.sent[k], s.h.clock)); }
  }

  lemma {:induction false} RetransmitDispatch(s: Net, i: nat, adjusted: bool, targets: nat)
    requires i <= |s.sent|
    ensures var s' := RetransmitFrom(s, i, adjusted, targets);
      && SentTags(s'.sent) <= SentTags(s.sent)
      && s'.h.dispatched == s.h.dispatched && s'.h.accepted == s.h.accepted
    decreases |s.sent| - i
  {
    if i < |s.sent| {
      match Judge(s.sent[i], s.h.clock)
      case Keep => RetransmitDispatch(s, i + 1, adjusted, targets);
      case Discard =>
        RemoveAtMembers(s.sent, i);
        assert SentTags(Drop(s, i).sent) <= SentTags(s.sent);
        RetransmitDispatch(Drop(s, i), i, adjusted, targets);
      case Again =>
        var s' := if adjusted then s else CollapseWindow(s, s.sent[i].ifc);
        SentTagsUpdate(s.sent, i, Resent(s.sent[i]));
        RetransmitDispatch(Resend(s', i, targets), i + 1, true, targets);
    }
  }

  // A dispatched unicast tag was accepted once and is gone from the sent queue for good.
  ghost predicate DispatchOk(s: Net) {
    && (forall a :: 0 <= a < |s.h.dispatched| && Unicast(s.h.dispatched[a].tag) ==>
          s.h.dispatched[a].tag in Tags(s.h.accepted) && s.h.dispatched[a].tag !in SentTags(s.sent))
    && (forall a, b :: 0 <= a < b < |s.h.dispatched| && Unicast(s.h.dispatched[a].tag) ==>
          s.h.dispatched[a].tag != s.h.dispatched[b].tag)
  }

  lemma ShrinkKeeps(s: Net, s': Net)
    requires DispatchOk(s)
    requires SentTags(s'.sent) <= SentTags(s.sent) && s'.h.dispatched == s.h.dispatched
    requires Tags(s.h.accepted) <= Tags(s'.h.accepted)
    ensures DispatchOk(s')
  {
  }

  // The answered tag leaves the sent queue.
  lemma AnsweredLeaves(s: Net, k: nat)
    requires QueuesOk(s) && k < |s.sent|
    ensures var q := RemoveAt(s.sent, k);
      && SentTags(q) <= SentTags(s.sent) && s.sent[k].tag !in SentTags(q)
      && s.sent[k].tag in SentTags(s.sent) && s.sent[k].tag in Tags(s.h.accepted)
  {
    RemoveAtMembers(s.sent, k);
    var q := RemoveAt(s.sent, k);
    forall e | e in q ensures e.tag != s.sent[k].tag {
      var m :| 0 <= m < |q| && q[m] == e;
    }
    assert EntryOk(s, s.sent[k]);
    assert s.sent[k] in s.sent;
  }

  lemma HandedOver(s: Net, s': Net, r: Response)
    requires DispatchOk(s) && SentTags(s'.sent) <= SentTags(s.sent) && s'.h.accepted == s.h.accepted
    requires s'.h.dispatched == s.h.dispatched + [r]
    requires Unicast(r.tag) ==>
      r.tag in SentTags(s.sent) && r.tag !in SentTags(s'.sent) && r.tag in Tags(s.h.accepted)
    ensures DispatchOk(s')
  {
  }

  lemma ReceiveDispatch(s: Net, tag: nat, response: bool, error: bool, command: AoeCommand)
    requires QueuesOk(s) && DispatchOk(s)
    ensures DispatchOk(Receive(s, tag, response, error, command))
  {
    var k := FindSent(s.sent, tag);
    var s' := Receive(s, tag, response, error, command);
    if response && k >= 0 {
      AnsweredLeaves(s, k);
      DispatchAfter(s, s', tag, response, error, command, RemoveAt(s.sent, k));
    } else {
      DispatchAfter(s, s', tag, response, error, command, s.sent);
    }
  }

  lemma DispatchAfter(s: Net, s': Net, tag: nat, response: bool, error: bool, command: AoeCommand, q: seq<Sent>)
    requires DispatchOk(s) && s'.sent == q && SentTags(q) <= SentTags(s.sent) && s'.h.accepted == s.h.accepted
    requires response && FindSent(s.sent, tag) >= 0 ==>
      tag in SentTags(s.sent) && tag !in SentTags(q) && tag in Tags(s.h.accepted)
    requires s'.h.dispatched
      == s.h.dispatched + (if IsHandedOver(s, tag, response, error, command) then [Response(tag, command)] else [])
    ensures DispatchOk(s')
  {
    if IsHandedOver(s, tag, response, error, command) {
      HandedOver(s, s', Response(tag, command));
    } else {
      ShrinkKeeps(s, s');
    }
  }

  lemma EventKeepsDispatch(s: Net, e: Event)
    requires QueuesOk(s) && DispatchOk(s) && s.h.clock > 0
    requires e.Send? ==> e.tag !in Tags(s.h.accepted)
    ensures DispatchOk(Step(s, e))
  {
    match e
    case Send(tag, ifc, shelf, retransmit) =>
      if Used(s.ports, ifc) {
        var s' := Step(s, e);
        assert forall x :: x in s'.sent ==> x in s.sent || x.tag == tag;
        assert SentTags(s'.sent) <= SentTags(s.sent) + {tag};
        assert forall p :: p in s.h.accepted ==> p in s'.h.accepted;
        assert Tags(s.h.accepted) <= Tags(s'.h.accepted);
      }
    case TransmitTick =>
      FlushDispatch(s, 0);
      var f := FlushImmediate(s, 0);
      ShrinkKeeps(s, f);
      if Choose(f, 0) >= 0 {
        SendFromQueueDispatch(f, Choose(f, 0));
        ShrinkKeeps(f, Step(s, e));
      }
    case RetransmitTick(targets) =>
      RetransmitDispatch(s, 0, false, targets);
      ShrinkKeeps(s, Step(s, e));
    case Incoming(tag, response, error, command) => ReceiveDispatch(s, tag, response, error, command);
    case Disable(port) =>
      assert SentTags(Step(s, e).sent) <= SentTags(s.sent);
      ShrinkKeeps(s, Step(s, e));
    case _ => ShrinkKeeps(s, Step(s, e));
  }

  lemma {:induction false} RunKeepsDispatch(s: Net, ts: seq<Timed>)
    requires QueuesOk(s) && DispatchOk(s) && LegalRun(s, ts)
    ensures DispatchOk(Run(s, ts))
    decreases |ts|
  {
    if ts != [] {
      PortsOnly(s, At(s, ts[0].now));
      EventKeepsDispatch(At(s, ts[0].now), ts[0].event);
      StepKeepsQueues(s, ts[0]);
      RunKeepsDispatch(Apply(s, ts[0]), ts[1..]);
    }
  }

  ghost predicate AnswersAccepted(h: History) {
    forall a :: 0 <= a < |h.dispatched| && Unicast(h.dispatched[a].tag) ==> h.dispatched[a].tag in Tags(h.accepted)
  }

  ghost predicate UnicastsDiffer(rs: seq<Response>) {
    forall a, b :: 0 <= a < b < |rs| && Unicast(rs[a].tag) ==> rs[a].tag != rs[b].tag
  }

  // Over every legal run the reply to a unicast packet is handed over at most once, and only
  // if the packet was accepted.
  lemma AtMostOnce(ts: seq<Timed>)
    requires LegalRun(InitialNet(), ts)
    ensures var h := Run(InitialNet(), ts).h;
      AnswersAccepted(h) && UnicastsDiffer(h.dispatched)
  {
    PortsOkInitial();
    RunKeepsDispatch(InitialNet(), ts);
  }

  // A response to a tag that no queued packet has changes nothing but a counter, unless the
  // tag is one that every target may answer.
  lemma StrangerIgnored(s: Net, tag: nat, error: bool, command: AoeCommand)
    requires Unicast(tag) && tag !in SentTags(s.sent)
    ensures Receive(s, tag, true, error, command) == s.(unexpected := s.unexpected + 1)
  {
    forall m | 0 <= m < |s.sent| ensures s.sent[m].tag != tag {
      assert s.sent[m] in s.sent;
    }
  }

  // ---- Every response is handed over or counted ----

  // A response goes to the controllers just when it reports no error, is an ATA or a config
  // response, and answers a queued packet, a search or nothing in particular (tag 0).
  lemma HandedOverIff(s: Net, tag: nat, error: bool, command: AoeCommand)
    ensures var s' := Receive(s, tag, true, error, command);
      if !error && (command.AtaCommand? || command.CfgCommand?)
         && (tag in SentTags(s.sent) || tag == 0 || (tag / 0x4000_0000) % 2 == 1)
      then s'.h.dispatched == s.h.dispatched + [Response(tag, command)] && s'.unexpected == s.unexpected
      else s'.h.dispatched == s.h.dispatched && s'.unexpected == s.unexpected + 1
  {
    var k := FindSent(s.sent, tag);
    if k >= 0 {
      assert s.sent[k] in s.sent;
      AcknowledgeUncounted(s, k);
    } else {
      forall e | e in s.sent ensures e.tag != tag {
        var i :| 0 <= i < |s.sent| && s.sent[i] == e;
      }
    }
  }

  lemma AcknowledgeUncounted(s: Net, k: nat)
    requires k < |s.sent|
    ensures Acknowledge(s, k).unexpected == s.unexpected
  {
  }

  lemma {:induction false} FlushUncounted(s: Net, j: nat)
    requires j <= |s.toSend|
    ensures FlushImmediate(s, j).unexpected == s.unexpected
    decreases |s.toSend| - j
  {
    if j < |s.toSend| {
      if s.toSend[j].immediate { FlushUncounted(SendFromQueue(s, j), j); } else { FlushUncounted(s, j + 1); }
    }
  }

  lemma {:induction false} RetransmitUncounted(s: Net, i: nat, adjusted: bool, targets: nat)
    requires i <= |s.sent|
    ensures RetransmitFrom(s, i, adjusted, targets).unexpected == s.unexpected
    decreases |s.sent| - i
  {
    if i < |s.sent| {
      match Judge(s.sent[i], s.h.clock)
      case Keep => RetransmitUncounted(s, i + 1, adjusted, targets);
      case Discard => RetransmitUncounted(Drop(s, i), i, adjusted, targets);
      case Again =>
        RetransmitUncounted(Resend(if adjusted then s else CollapseWindow(s, s.sent[i].ifc), i, targets), i + 1, true, targets);
    }
  }

  function ResponseOf(e: Event): nat {
    if e.Incoming? && e.response then 1 else 0
  }

  function ResponsesIn(ts: seq<Timed>): nat {
    if ts == [] then 0 else ResponseOf(ts[0].event) + ResponsesIn(ts[1..])
  }

  lemma StepAccountsResponse(s: Net, e: Event)
    ensures |Step(s, e).h.dispatched| + Step(s, e).unexpected == |s.h.dispatched| + s.unexpected + ResponseOf(e)
  {
    match e
    case TransmitTick =>
      FlushDispatch(s, 0);
      FlushUncounted(s, 0);
      var f := FlushImmediate(s, 0);
      if Choose(f, 0) >= 0 { SendFromQueueDispatch(f, Choose(f, 0)); }
    case RetransmitTick(targets) =>
      RetransmitDispatch(s, 0, false, targets);
      RetransmitUncounted(s, 0, false, targets);
    case Incoming(tag, response, error, command) =>
      if response { HandedOverIff(s, tag, error, command); }
    case _ =>
  }

  // Over every run each response that comes in is either handed over or counted as unexpected.
  lemma {:induction false} EveryResponseAccounted(s: Net, ts: seq<Timed>)
    ensures var s' := Run(s, ts);
      |s'.h.dispatched| + s'.unexpected == |s.h.dispatched| + s.unexpected + ResponsesIn(ts)
    decreases |ts|
  {
    if ts != [] {
      StepAccountsResponse(At(s, ts[0].now), ts[0].event);
      EveryResponseAccounted(Apply(s, ts[0]), ts[1..]);
    }
  }
}
