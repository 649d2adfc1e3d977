/** When each packet was put on the wire, and which round trips the estimator is given. */
module RoundTrips {
  import opened Common
  import opened Interfaces
  import opened RtoEstimator
  import opened Transport
  import opened Queues
  import opened Dispatch
  import opened Lifetimes

  // The times at which a packet was put on the wire.
  function Outputs(w: seq<Frame>, tag: nat): seq<nat> {
    if w == [] then []
    else Outputs(w[..|w| - 1], tag) + OutputOf(w[|w| - 1], tag)
  }

  function OutputOf(f: Frame, tag: nat): seq<nat> {
    if f.tag == tag then [f.at] else []
  }

  lemma OutputsAppend(w: seq<Frame>, f: Frame, tag: nat)
    ensures Outputs(w + [f], tag) == Outputs(w, tag) + OutputOf(f, tag)
  {
    assert (w + [f])[..|w|] == w;
  }

  // The round trip that a packet gives: none unless it was answered and never resent, and
  // then the time from its output to the answer. A packet that was answered before it went
  // out has time of output 0, and gives the whole uptime.
  function SampleOf(g: Gone, h: History): seq<nat> {
    var o := Outputs(h.wire, g.tag);
    if g.fate != Answered || g.tag in h.resent then []
    else if o == [] then [g.at]
    else [Max(g.at - o[0], 0)]
  }

  // In the order of the answers.
  function Samples(gs: seq<Gone>, h: History): seq<nat> {
    if gs == [] then []
    else Samples(gs[..|gs| - 1], h) + SampleOf(gs[|gs| - 1], h)
  }

  lemma SamplesAppend(gs: seq<Gone>, g: Gone, h: History)
    ensures Samples(gs + [g], h) == Samples(gs, h) + SampleOf(g, h)
  {
    assert (gs + [g])[..|gs|] == gs;
  }

  lemma {:induction false} NoSamples(gs: seq<Gone>, more: seq<Gone>, h: History)
    requires forall g :: g in more ==> g.fate != Answered
    ensures Samples(gs + more, h) == Samples(gs, h)
    decreases |more|
  {
    if more == [] {
      assert gs + more == gs;
    } else {
      var most, last := more[..|more| - 1], more[|more| - 1];
      assert gs + more == (gs + most) + [last];
      SamplesAppend(gs + most, last, h);
      NoSamples(gs, most, h);
    }
  }

  lemma {:induction false} EstimateAppend(r: Rto, rtts: seq<nat>, x: nat)
    ensures Estimate(r, rtts + [x]) == UpdateRto(Estimate(r, rtts), x)
    decreases |rtts|
  {
    if rtts == [] {
      assert [] + [x] == [x] && [x][1..] == [];
      assert Estimate(UpdateRto(r, x), []) == UpdateRto(r, x);
    } else {
      assert (rtts + [x])[1..] == rtts[1..] + [x];
      EstimateAppend(UpdateRto(r, rtts[0]), rtts[1..], x);
    }
  }

  // ---- The invariant ----

  // The packet was accepted for that port and shelf.
  ghost predicate Known(ps: seq<Packet>, tag: nat, ifc: int, shelf: int) {
    exists p :: p in ps && p.tag == tag && p.ifc == ifc && p.shelf == shelf
  }

  lemma StillKnown(ps: seq<Packet>, more: seq<Packet>)
    ensures forall tag, ifc, shelf :: Known(ps, tag, ifc, shelf) ==> Known(ps + more, tag, ifc, shelf)
  {
    forall tag, ifc, shelf | Known(ps, tag, ifc, shelf) ensures Known(ps + more, tag, ifc, shelf) {
      var p :| p in ps && p.tag == tag && p.ifc == ifc && p.shelf == shelf;
      assert p in ps + more;
    }
  }

  // The times of an entry are those of its outputs; each resend has led, or will lead, to one
  // more of them.
  ghost predicate TimesOk(h: History, e: Sent) {
    var o := Outputs(h.wire, e.tag);
    && |o| == Count(h.resent, e.tag) + (if e.timeSent == 0 then 0 else 1)
    && e.timeFirst == (if o == [] then 0 else o[0])
    && (e.timeSent != 0 ==> e.timeSent == o[|o| - 1])
    && (e.retrans <==> e.tag in h.resent)
    && (forall i :: 0 <= i < |o| ==> 0 < o[i] <= h.clock)
    && Known(h.accepted, e.tag, e.ifc, e.shelf)
  }

  ghost predicate AllTimesOk(s: Net) {
    forall i :: 0 <= i < |s.sent| ==> TimesOk(s.h, s.sent[i])
  }

  // Nothing is sent that was not accepted for that port and shelf, and a packet that is gone
  // stays so.
  ghost predicate TagsOk(s: Net) {
    && (forall f :: f in s.h.wire ==> Known(s.h.accepted, f.tag, f.ifc, f.shelf))
    && (forall tag :: tag in s.h.resent ==> tag in Tags(s.h.accepted))
    && (forall g :: g in s.h.gone ==> g.tag in Tags(s.h.accepted) && g.tag !in SentTags(s.sent))
  }

  ghost predicate RtoOk(s: Net) {
    s.rto == Estimate(InitialRto(), Samples(s.h.gone, s.h))
  }

  // A packet dropped as too old was put on the wire 60 s before, rounded to microseconds.
  ghost predicate OldEnough(h: History, g: Gone) {
    g.fate == TooOld ==>
      var o := Outputs(h.wire, g.tag);
      o != [] && g.at - o[0] >= 60_000_000_500
  }

  ghost predicate DropsOk(h: History) {
    forall g :: g in h.gone ==> OldEnough(h, g)
  }

  ghost predicate TripsOk(s: Net) {
    AllTimesOk(s) && TagsOk(s) && RtoOk(s) && DropsOk(s.h)
  }

  // ---- What a step must leave alone ----

  // Histories that agree on the outputs and resends of a packet.
  ghost predicate SameTrip(h: History, h': History, tag: nat) {
    Outputs(h'.wire, tag) == Outputs(h.wire, tag) && Count(h'.resent, tag) == Count(h.resent, tag)
  }

  lemma {:induction false} SameSamples(gs: seq<Gone>, h: History, h': History)
    requires forall g :: g in gs ==> SameTrip(h, h', g.tag)
    ensures Samples(gs, h') == Samples(gs, h)
    ensures forall g :: g in gs && OldEnough(h, g) ==> OldEnough(h', g)
  {
    if gs != [] {
      var g := gs[|gs| - 1];
      assert g in gs && SameTrip(h, h', g.tag);
      SameSamples(gs[..|gs| - 1], h, h');
    }
  }

  lemma {:induction false} NoOutputs(w: seq<Frame>, tag: nat)
    requires forall f :: f in w ==> f.tag != tag
    ensures Outputs(w, tag) == []
  {
    if w != [] {
      assert w[|w| - 1] in w;
      NoOutputs(w[..|w| - 1], tag);
    }
  }

  lemma TimesKept(h: History, h': History, e: Sent)
    requires TimesOk(h, e) && SameTrip(h, h', e.tag) && h.clock <= h'.clock
    requires h.accepted <= h'.accepted
    ensures TimesOk(h', e)
  {
    StillKnown(h.accepted, h'.accepted[|h.accepted|..]);
    assert h'.accepted == h.accepted + h'.accepted[|h.accepted|..];
  }

  // ---- Each step ----

  // The queue may lose entries, the clock may advance, and the rest stays.
  lemma FewerEntries(s: Net, s': Net)
    requires TripsOk(s) && (forall e :: e in s'.sent ==> e in s.sent)
    requires s'.h == s.h.(clock := s'.h.clock, dispatched := s'.h.dispatched) && s.h.clock <= s'.h.clock && s'.rto == s.rto
    ensures TripsOk(s')
  {
    forall i | 0 <= i < |s'.sent| ensures TimesOk(s'.h, s'.sent[i]) {
      assert s'.sent[i] in s'.sent;
      var m :| 0 <= m < |s.sent| && s.sent[m] == s'.sent[i];
      TimesKept(s.h, s'.h, s.sent[m]);
    }
    SameSamples(s.h.gone, s.h, s'.h);
    assert SentTags(s'.sent) <= SentTags(s.sent);
  }

  // Entries leave for the reasons given in `more`, none of them an answer.
  lemma LeaveUnanswered(s: Net, s': Net, more: seq<Gone>)
    requires TripsOk(s) && (forall e :: e in s'.sent ==> e in s.sent)
    requires s'.h == s.h.(gone := s.h.gone + more) && s'.rto == s.rto
    requires forall g :: g in more ==> g.fate != Answered && g.tag in SentTags(s.sent) && g.tag !in SentTags(s'.sent)
    requires SentTags(s.sent) <= Tags(s.h.accepted) && forall g :: g in more ==> OldEnough(s.h, g)
    ensures TripsOk(s')
  {
    forall i | 0 <= i < |s'.sent| ensures TimesOk(s'.h, s'.sent[i]) {
      assert s'.sent[i] in s'.sent;
      var m :| 0 <= m < |s.sent| && s.sent[m] == s'.sent[i];
      TimesKept(s.h, s'.h, s.sent[m]);
    }
    assert SentTags(s'.sent) <= SentTags(s.sent);
    NoSamples(s.h.gone, more, s'.h);
    SameSamples(s.h.gone, s.h, s'.h);
  }

  lemma SendTrips(s: Net, tag: nat, ifc: int, shelf: int, retransmit: bool)
    requires TripsOk(s) && tag !in Tags(s.h.accepted) && Used(s.ports, ifc)
    ensures TripsOk(SendPacket(s, tag, ifc, shelf, retransmit))
  {
    var s' := SendPacket(s, tag, ifc, shelf, retransmit);
    StillKnown(s.h.accepted, s'.h.accepted[|s.h.accepted|..]);
    assert s'.h.accepted[|s.h.accepted|] in s'.h.accepted;
    forall f | f in s.h.wire ensures f.tag != tag { assert Known(s.h.accepted, f.tag, f.ifc, f.shelf); }
    NoOutputs(s.h.wire, tag);
    assert Count(s.h.resent, tag) == 0;
    forall i | 0 <= i < |s'.sent| ensures TimesOk(s'.h, s'.sent[i]) {
      if i < |s.sent| { TimesKept(s.h, s'.h, s.sent[i]); }
    }
    SameSamples(s.h.gone, s.h, s'.h);
    assert forall p :: p in s.h.accepted ==> p in s'.h.accepted;
    assert Tags(s.h.accepted) <= Tags(s'.h.accepted);
    assert forall x :: x in s'.sent ==> x in s.sent || x.tag == tag;
    assert SentTags(s'.sent) <= SentTags(s.sent) + {tag};
  }

  // The entry at position k becomes e', and the history of its packet goes on.
  lemma OneGoesOn(s: Net, s': Net, k: nat, e': Sent)
    requires QueuesOk(s) && TripsOk(s) && k < |s.sent| && e'.tag == s.sent[k].tag
    requires s'.sent == s.sent[k := e'] && s'.rto == s.rto
    requires s'.h == s.h.(wire := s'.h.wire, resent := s'.h.resent)
    requires forall tag :: tag != e'.tag ==> SameTrip(s.h, s'.h, tag)
    requires TimesOk(s'.h, e')
    requires forall f :: f in s'.h.wire ==> f in s.h.wire || Known(s.h.accepted, f.tag, f.ifc, f.shelf)
    requires forall tag :: tag in s'.h.resent ==> tag in s.h.resent || tag == e'.tag
    ensures TripsOk(s')
  {
    assert EntryOk(s, s.sent[k]);
    assert s.sent[k] in s.sent;
    SentTagsUpdate(s.sent, k, e');
    forall i | 0 <= i < |s'.sent| ensures TimesOk(s'.h, s'.sent[i]) {
      if i != k { TimesKept(s.h, s'.h, s.sent[i]); }
    }
    SameSamples(s.h.gone, s.h, s'.h);
  }

  lemma SendFromQueueTrips(s: Net, j: nat)
    requires QueuesOk(s) && TripsOk(s) && j < |s.toSend| && s.h.clock > 0
    ensures TripsOk(SendFromQueue(s, j))
  {
    var t := s.toSend[j];
    var s' := SendFromQueue(s, j);
    var k := FindSent(s.sent, t.tag);
    FromQueueEntry(s, j);
    if k < 0 {
      FewerEntries(s, s');
    } else {
      var f := s'.h.wire[|s.h.wire|];
      assert EntryOk(s, s.sent[k]) && TimesOk(s.h, s.sent[k]);
      OutputTimes(s.h, s'.h, s.sent[k], f);
      forall tag | tag != t.tag ensures SameTrip(s.h, s'.h, tag) { OutputsAppend(s.h.wire, f, tag); }
      OneGoesOn(s, s', k, Output(s.sent[k], s.h.clock));
    }
  }

  lemma OutputTimes(h: History, h': History, e: Sent, f: Frame)
    requires TimesOk(h, e) && e.timeSent == 0 && h.clock > 0
    requires h' == h.(wire := h.wire + [f]) && f.tag == e.tag && f.at == h.clock
    ensures TimesOk(h', Output(e, h.clock))
  {
    OutputsAppend(h.wire, f, e.tag);
  }

  lemma {:induction false} FlushTrips(s: Net, j: nat)
    requires QueuesOk(s) && TripsOk(s) && j <= |s.toSend| && s.h.clock > 0
    ensures TripsOk(FlushImmediate(s, j))
    decreases |s.toSend| - j
  {
    if j < |s.toSend| {
      if s.toSend[j].immediate {
        SendFromQueueTrips(s, j);
        SendFromQueueKeeps(s, j);
        FlushTrips(SendFromQueue(s, j), j);
      } else {
        FlushTrips(s, j + 1);
      }
    }
  }

  lemma TransmitTrips(s: Net)
    requires QueuesOk(s) && TripsOk(s) && s.h.clock > 0
    ensures TripsOk(Transmit(s))
  {
    FlushKeeps(s, 0);
    FlushTrips(s, 0);
    var f := FlushImmediate(s, 0);
    if Choose(f, 0) >= 0 { SendFromQueueTrips(f, Choose(f, 0)); }
  }

  lemma ResendTrips(s: Net, k: nat, targets: nat)
    requires QueuesOk(s) && TripsOk(s) && k < |s.sent| && s.sent[k].timeFirst != 0 && s.sent[k].timeSent != 0
    ensures TripsOk(Resend(s, k, targets))
  {
    var s' := Resend(s, k, targets);
    var e := s.sent[k];
    forall tag ensures Count(s'.h.resent, tag) == Count(s.h.resent, tag) + (if tag == e.tag then 1 else 0) {
      CountConcat(s.h.resent, [e.tag], tag);
      assert [e.tag][1..] == [];
    }
    OneGoesOn(s, s', k, Resent(e));
  }

  lemma DropTrips(s: Net, k: nat)
    requires QueuesOk(s) && TripsOk(s) && k < |s.sent| && Judge(s.sent[k], s.h.clock) == Discard
    ensures TripsOk(Drop(s, k))
  {
    assert TimesOk(s.h, s.sent[k]);
    VerdictIff(s.sent[k], s.h.clock);
    RemoveAtMembers(s.sent, k);
    AnsweredLeaves(s, k);
    QueuedAccepted(s);
    LeaveUnanswered(s, Drop(s, k), [DropOf(s.sent[k], s.h.clock)]);
  }

  lemma QueuedAccepted(s: Net)
    requires QueuesOk(s)
    ensures SentTags(s.sent) <= Tags(s.h.accepted)
  {
    forall e | e in s.sent ensures e.tag in Tags(s.h.accepted) {
      assert EntryOk(s, e);
    }
  }

  lemma {:induction false} RetransmitTrips(s: Net, i: nat, adjusted: bool, targets: nat)
    requires QueuesOk(s) && TripsOk(s) && i <= |s.sent|
    ensures TripsOk(RetransmitFrom(s, i, adjusted, targets))
    decreases |s.sent| - i
  {
    if i < |s.sent| {
      match Judge(s.sent[i], s.h.clock)
      case Keep =>
        RetransmitTrips(s, i + 1, adjusted, targets);
      case Discard =>
        DropTrips(s, i);
        RemoveSentKeeps(s, i, Drop(s, i));
        RetransmitTrips(Drop(s, i), i, adjusted, targets);
      case Again =>
        var s' := AgainTrips(s, i, adjusted, targets);
        RetransmitTrips(s', i + 1, true, targets);
        assert RetransmitFrom(s, i, adjusted, targets) == RetransmitFrom(s', i + 1, true, targets);
    }
  }

  lemma AgainTrips(s: Net, i: nat, adjusted: bool, targets: nat) returns (r: Net)
    requires QueuesOk(s) && TripsOk(s) && i < |s.sent| && Judge(s.sent[i], s.h.clock) == Again
    ensures r == Resend(if adjusted then s else CollapseWindow(s, s.sent[i].ifc), i, targets)
    ensures QueuesOk(r) && TripsOk(r)
  {
    var s' := if adjusted then s else CollapseWindow(s, s.sent[i].ifc);
    PortsOkWindow(s.ports, s.sent[i].ifc, 0);
    PortsOnly(s, s');
    FewerEntries(s, s');
    ResendTrips(s', i, targets);
    ResendKeeps(s', i, targets);
    r := Resend(s', i, targets);
  }

  // An answer to a packet that was never resent adds its round trip, and no other does.
  lemma AcknowledgeTrips(s: Net, k: nat)
    requires QueuesOk(s) && TripsOk(s) && k < |s.sent|
    ensures TripsOk(Acknowledge(s, k))
  {
    AcknowledgedRto(s, k);
    AnsweredLeaves(s, k);
    QueuedAccepted(s);
    assert TimesOk(s.h, s.sent[k]);
    EntryAnswered(s, Acknowledge(s, k), k);
  }

  lemma AcknowledgedRto(s: Net, k: nat)
    requires k < |s.sent|
    ensures Acknowledge(s, k).rto == RtoAfter(s.rto, s.sent[k], s.h.clock)
  {
  }

  function RtoAfter(r: Rto, e: Sent, now: nat): Rto {
    if e.retrans then r else UpdateRto(r, Max(now - e.timeSent, 0))
  }

  lemma EntryAnswered(s: Net, s': Net, k: nat)
    requires TripsOk(s) && k < |s.sent| && s'.sent == RemoveAt(s.sent, k)
    requires s'.h == s.h.(gone := s.h.gone + [Gone(s.sent[k].tag, Answered, s.h.clock)])
    requires s.sent[k].tag in Tags(s.h.accepted) && s.sent[k].tag !in SentTags(s'.sent)
    requires SentTags(s'.sent) <= SentTags(s.sent)
    requires s'.rto == RtoAfter(s.rto, s.sent[k], s.h.clock)
    ensures TripsOk(s')
  {
    var g := Gone(s.sent[k].tag, Answered, s.h.clock);
    forall i | 0 <= i < |s'.sent| ensures TimesOk(s'.h, s'.sent[i]) {
      TimesKept(s.h, s'.h, s.sent[if i < k then i else i + 1]);
    }
    SamplesAppend(s.h.gone, g, s'.h);
    SameSamples(s.h.gone, s.h, s'.h);
    assert TimesOk(s.h, s.sent[k]);
    AnswerSample(s.h, s'.h, s.sent[k], g, Samples(s.h.gone, s.h));
  }

  lemma AnswerSample(h: History, h': History, e: Sent, g: Gone, before: seq<nat>)
    requires TimesOk(h, e) && h'.wire == h.wire && h'.resent == h.resent && g == Gone(e.tag, Answered, h.clock)
    ensures RtoAfter(Estimate(InitialRto(), before), e, h.clock) == Estimate(InitialRto(), before + SampleOf(g, h'))
  {
    SampleOfEntry(h, h', e, g);
    OneMoreSample(InitialRto(), before, e, h.clock, SampleOf(g, h'));
  }

  lemma OneMoreSample(r: Rto, before: seq<nat>, e: Sent, now: nat, sample: seq<nat>)
    requires e.timeSent <= now && sample == if e.retrans then [] else [now - e.timeSent]
    ensures RtoAfter(Estimate(r, before), e, now) == Estimate(r, before + sample)
  {
    if e.retrans {
      assert before + sample == before;
    } else {
      EstimateAppend(r, before, now - e.timeSent);
    }
  }

  lemma SampleOfEntry(h: History, h': History, e: Sent, g: Gone)
    requires TimesOk(h, e) && h'.wire == h.wire && h'.resent == h.resent && g == Gone(e.tag, Answered, h.clock)
    ensures e.timeSent <= h.clock && SampleOf(g, h') == if e.retrans then [] else [h.clock - e.timeSent]
  {
    var o := Outputs(h.wire, e.tag);
    assert e.timeSent != 0 ==> e.timeSent == o[|o| - 1];
  }

  lemma ReceiveTrips(s: Net, tag: nat, response: bool, error: bool, command: AoeCommand)
    requires QueuesOk(s) && TripsOk(s)
    ensures TripsOk(Receive(s, tag, response, error, command))
  {
    var k := FindSent(s.sent, tag);
    var s' := if response && k >= 0 then Acknowledge(s, k) else s;
    if response && k >= 0 { AcknowledgeTrips(s, k); }
    FewerEntries(s', Receive(s, tag, response, error, command));
  }

  lemma {:induction false} PurgedTags(ps: Ports, q: seq<Sent>, now: nat)
    requires DistinctSent(q)
    ensures forall g :: g in PurgedSent(ps, q, now) ==>
      g.fate == PortDown && g.tag in SentTags(q) && g.tag !in SentTags(PurgeSent(ps, q))
  {
    if q != [] {
      PurgedTags(ps, q[1..], now);
      assert q[0] in q && forall x :: x in q[1..] ==> x in q;
      assert forall x :: x in q[1..] ==> x.tag != q[0].tag;
    }
  }

  lemma DisableTrips(s: Net, port: nat)
    requires QueuesOk(s) && TripsOk(s)
    ensures TripsOk(DisableLink(s, port))
  {
    var ps := DisconnectPort(s.ports, port);
    PurgedTags(ps, s.sent, s.h.clock);
    QueuedAccepted(s);
    LeaveUnanswered(s, DisableLink(s, port), PurgedSent(ps, s.sent, s.h.clock));
  }

  lemma EventKeepsTrips(s: Net, e: Event)
    requires QueuesOk(s) && TripsOk(s) && s.h.clock > 0
    requires e.Send? ==> e.tag !in Tags(s.h.accepted)
    ensures TripsOk(Step(s, e))
  {
    match e
    case Send(tag, ifc, shelf, retransmit) =>
      if Used(s.ports, ifc) {
        SendTrips(s, tag, ifc, shelf, retransmit);
      } else {
        FewerEntries(s, Step(s, e));
      }
    case TransmitTick => TransmitTrips(s);
    case RetransmitTick(targets) => RetransmitTrips(s, 0, false, targets);
    case Incoming(tag, response, error, command) => ReceiveTrips(s, tag, response, error, command);
    case Disable(port) => DisableTrips(s, port);
    case _ => FewerEntries(s, Step(s, e));
  }

  lemma {:induction false} RunKeepsTrips(s: Net, ts: seq<Timed>)
    requires QueuesOk(s) && TripsOk(s) && LegalRun(s, ts)
    ensures TripsOk(Run(s, ts))
    decreases |ts|
  {
    if ts != [] {
      var s0 := At(s, ts[0].now);
      PortsOnly(s, s0);
      FewerEntries(s, s0);
      EventKeepsTrips(s0, ts[0].event);
      StepKeepsQueues(s, ts[0]);
      RunKeepsTrips(Apply(s, ts[0]), ts[1..]);
    }
  }

  // ---- The results ----

  // Over every legal run the estimator is what update_rto makes, from its initial value, of
  // the round trips of the packets that were answered without ever having been resent, in the
  // order of the answers.
  lemma EstimatorHasTheRoundTrips(ts: seq<Timed>)
    requires LegalRun(InitialNet(), ts)
    ensures var s := Run(InitialNet(), ts);
      s.rto == Estimate(Rto(10_000_000, 0, 0), Samples(s.h.gone, s.h))
  {
    PortsOkInitial();
    RunKeepsTrips(InitialNet(), ts);
  }

  ghost predicate SamplesAtMost(h: History, m: nat) {
    AllAtMost(Samples(h.gone, h), m)
  }

  // With round trips of up to m, the time-out of the next packet accepted is the average plus
  // four times the deviation, at least 1 ms, rounded to microseconds; it is 10 ms as long as
  // there was no round trip, and 0 for a packet that is never to be resent.
  lemma FirstTimeout(ts: seq<Timed>, m: nat, tag: nat, ifc: int, shelf: int, retransmit: bool)
    requires LegalRun(InitialNet(), ts) && SamplesAtMost(Run(InitialNet(), ts).h, m) && 5 * m < 0x8000_0000
    requires Used(Run(InitialNet(), ts).ports, ifc)
    ensures var s := Run(InitialNet(), ts);
      var r, e := s.rto, SendPacket(s, tag, ifc, shelf, retransmit).sent[|s.sent|];
      && 0 <= r.avg <= m && 0 <= r.dev <= m
      && e.rtoUs == (if !retransmit then 0
                     else if Samples(s.h.gone, s.h) == [] then 10_000
                     else if r.avg + 4 * r.dev < 1_000_000 then 1_000
                     else (r.avg + 4 * r.dev + 500) / 1000)
  {
    var s := Run(InitialNet(), ts);
    EstimatorHasTheRoundTrips(ts);
    EstimateInBounds(InitialRto(), Samples(s.h.gone, s.h), m);
  }

  // Over every legal run a queued packet has been put on the wire once, and once more for each
  // resend, except that the last resend may still wait; and its entry has the times of the
  // first and the last output.
  lemma OutputsMatchResends(ts: seq<Timed>, i: nat)
    requires LegalRun(InitialNet(), ts) && i < |Run(InitialNet(), ts).sent|
    ensures var s := Run(InitialNet(), ts);
      var e, o := s.sent[i], Outputs(s.h.wire, s.sent[i].tag);
      && |o| == Count(s.h.resent, e.tag) + (if e.timeSent == 0 then 0 else 1)
      && e.timeFirst == (if o == [] then 0 else o[0])
      && (e.timeSent != 0 ==> e.timeSent == o[|o| - 1])
  {
    PortsOkInitial();
    RunKeepsTrips(InitialNet(), ts);
    assert TimesOk(Run(InitialNet(), ts).h, Run(InitialNet(), ts).sent[i]);
  }

  // Over every legal run whatever is put on the wire is a packet that was accepted, and goes
  // out by the port and to the shelf for which it was accepted.
  lemma FramesWereAccepted(ts: seq<Timed>, k: nat)
    requires LegalRun(InitialNet(), ts) && k < |Run(InitialNet(), ts).h.wire|
    ensures var h := Run(InitialNet(), ts).h;
      exists p :: p in h.accepted && p.tag == h.wire[k].tag && p.ifc == h.wire[k].ifc && p.shelf == h.wire[k].shelf
  {
    PortsOkInitial();
    RunKeepsTrips(InitialNet(), ts);
    var h := Run(InitialNet(), ts).h;
    assert h.wire[k] in h.wire && Known(h.accepted, h.wire[k].tag, h.wire[k].ifc, h.wire[k].shelf);
  }

  // Over every legal run a packet that was dropped as too old had first been put on the wire
  // 60 s before, rounded to microseconds.
  lemma OldWhenDropped(ts: seq<Timed>, k: nat)
    requires LegalRun(InitialNet(), ts) && k < |Run(InitialNet(), ts).h.gone|
    ensures var h := Run(InitialNet(), ts).h;
      h.gone[k].fate == TooOld ==>
        var o := Outputs(h.wire, h.gone[k].tag);
        o != [] && h.gone[k].at - o[0] >= 60_000_000_500
  {
    PortsOkInitial();
    RunKeepsTrips(InitialNet(), ts);
    var h := Run(InitialNet(), ts).h;
    assert h.gone[k] in h.gone && OldEnough(h, h.gone[k]);
  }
}
