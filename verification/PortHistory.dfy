/** What a port remembers: its last output, the limits of the shelves, and its congestion window. */
module PortHistory {
  import opened Common
  import opened Interfaces
  import opened Transport
  import opened Queues
  import opened Windows
  import opened Order

  // ---- The last output ----

  // When the last frame went out by port p, 0 if none did.
  function LastOutput(w: seq<Frame>, p: int): nat {
    if w == [] then 0
    else if w[|w| - 1].ifc == p then w[|w| - 1].at
    else LastOutput(w[..|w| - 1], p)
  }

  lemma LastOutputAppend(w: seq<Frame>, f: Frame, p: int)
    ensures LastOutput(w + [f], p) == if f.ifc == p then f.at else LastOutput(w, p)
  {
    assert (w + [f])[..|w|] == w;
  }

  ghost predicate OutputsSeen(s: Net) {
    forall p :: 0 <= p < |s.ports| ==> s.ports[p].lastSend == LastOutput(s.h.wire, p)
  }

  lemma SendFromQueueSeen(s: Net, j: nat)
    requires QueuesOk(s) && OutputsSeen(s) && j < |s.toSend|
    ensures OutputsSeen(SendFromQueue(s, j))
  {
    var t, s' := s.toSend[j], SendFromQueue(s, j);
    assert ItemOk(s, t);
    if FindSent(s.sent, t.tag) >= 0 {
      forall p | 0 <= p < |s.ports| ensures s'.ports[p].lastSend == LastOutput(s'.h.wire, p) {
        LastOutputAppend(s.h.wire, s'.h.wire[|s.h.wire|], p);
      }
    }
  }

  lemma {:induction false} FlushSeen(s: Net, j: nat)
    requires QueuesOk(s) && OutputsSeen(s) && j <= |s.toSend| && s.h.clock > 0
    ensures OutputsSeen(FlushImmediate(s, j))
    decreases |s.toSend| - j
  {
    if j < |s.toSend| {
      if s.toSend[j].immediate {
        SendFromQueueSeen(s, j);
        SendFromQueueKeeps(s, j);
        FlushSeen(SendFromQueue(s, j), j);
      } else {
        FlushSeen(s, j + 1);
      }
    }
  }

  lemma TransmitSeen(s: Net)
    requires QueuesOk(s) && OutputsSeen(s) && s.h.clock > 0
    ensures OutputsSeen(Transmit(s))
  {
    FlushKeeps(s, 0);
    FlushSeen(s, 0);
    var f := FlushImmediate(s, 0);
    if Choose(f, 0) >= 0 { SendFromQueueSeen(f, Choose(f, 0)); }
  }

  // What an event other than a transmit tick and an answer does to one port.
  ghost predicate PortAfter(s: Net, e: Event, p: nat, f: Iface, g: Iface) {
    match e
    case RetransmitTick(_) =>
      g == f.(outstanding := g.outstanding, cwnd := g.cwnd, frac := g.frac, ssthresh := g.ssthresh) && g.cwnd <= f.cwnd
    case IdleTick =>
      g == if f.enabled && f.lastSend != 0 && s.h.clock - f.lastSend >= 5_000_000_500
           then f.(cwnd := 1, frac := 0, outstanding := 0, ssthresh := f.minMax / 2) else f
    case Enable(n) =>
      g == if n == p
           then f.(ifnet := p, enabled := true, cwnd := 1, frac := 0, outstanding := 0, ssthresh := f.minMax / 2) else f
    case Reconnect(n) => g == if n == p then f.(ifnet := p, enabled := true) else f
    case Disable(n) => g == if n == p then f.(ifnet := NO_IFNET, enabled := false) else f
    case SetShelf(ifc, shelf, limit) =>
      g == if ifc == p && f.enabled && shelf < |f.shelfMax|
           then f.(shelfMax := f.shelfMax[shelf := limit], minMax := if limit < f.minMax then limit else f.minMax) else f
    case _ => g == f
  }

  lemma PortStep(s: Net, e: Event, p: nat)
    requires QueuesOk(s) && p < |s.ports| && !e.TransmitTick? && !e.Incoming?
    ensures |Step(s, e).ports| == |s.ports| && PortAfter(s, e, p, s.ports[p], Step(s, e).ports[p])
  {
    assert PortOk(s.ports[p], p);
    match e
    case RetransmitTick(targets) =>
      RetransmitCollapsesOnce(s, 0, false, targets);
      var first := FirstAgain(s.sent, s.h.clock, 0);
      if first >= 0 { CollapseIsRestart(s.ports, s.sent[first].ifc, p); }
    case _ =>
  }

  // An answer counts one packet off its port, unless the packet was resent, and widens the
  // port's window: by one below the threshold, by one in the potential above it.
  ghost predicate Widened(f: Iface, g: Iface, resent: bool) {
    && g == f.(outstanding := g.outstanding, cwnd := g.cwnd, frac := g.frac)
    && g.outstanding == Max(f.outstanding - (if resent then 0 else 1), 0)
    && (f.cwnd < f.ssthresh ==> g.cwnd == f.cwnd + 1 && g.frac == f.frac)
    && (f.cwnd >= f.ssthresh ==> Potential(g.cwnd, g.frac) == Potential(f.cwnd, f.frac) + 1 && 0 <= g.frac < g.cwnd)
  }

  lemma AnswerWidens(s: Net, tag: nat, response: bool, error: bool, command: AoeCommand, p: nat)
    requires QueuesOk(s) && p < |s.ports|
    ensures var k, ps := FindSent(s.sent, tag), Receive(s, tag, response, error, command).ports;
      && |ps| == |s.ports|
      && if response && k >= 0 && s.sent[k].ifc == p then Widened(s.ports[p], ps[p], s.sent[k].retrans)
         else ps[p] == s.ports[p]
  {
    var k := FindSent(s.sent, tag);
    var r := Receive(s, tag, response, error, command);
    if response && k >= 0 {
      assert EntryOk(s, s.sent[k]);
      var e, counted := s.sent[k], AckOutstanding(s.ports, s.sent[k].ifc, s.sent[k].retrans);
      assert PortOk(s.ports[e.ifc], e.ifc);
      AckLaw(counted[e.ifc]);
      AcknowledgedPorts(s, k);
      assert r.ports == Acknowledge(s, k).ports;
    } else {
      assert r.ports == s.ports;
    }
  }

  lemma AcknowledgedPorts(s: Net, k: nat)
    requires k < |s.sent|
    ensures var e := s.sent[k];
      Acknowledge(s, k).ports == AckWindow(AckOutstanding(s.ports, e.ifc, e.retrans), e.ifc)
  {
  }

  // Only the answer to a packet of the port widens its window, by at most one.
  lemma OnlyAnswersWiden(s: Net, e: Event, p: nat)
    requires QueuesOk(s) && s.h.clock > 0 && p < |s.ports|
    ensures |Step(s, e).ports| == |s.ports|
    ensures Step(s, e).ports[p].cwnd <= s.ports[p].cwnd
         || (e.Incoming? && e.response && Step(s, e).ports[p].cwnd == s.ports[p].cwnd + 1
             && exists i :: 0 <= i < |s.sent| && s.sent[i].tag == e.tag && s.sent[i].ifc == p)
  {
    match e
    case TransmitTick => TransmitWithinWindow(s, p);
    case Incoming(tag, response, error, command) =>
      AnswerWidens(s, tag, response, error, command, p);
      assert PortOk(s.ports[p], p);
      WidensByOne(s.ports[p], Step(s, e).ports[p]);
    case _ =>
      PortStep(s, e, p);
      assert PortOk(s.ports[p], p);
  }

  lemma WidensByOne(f: Iface, g: Iface)
    requires 0 <= f.frac < f.cwnd
    requires g == f || Widened(f, g, true) || Widened(f, g, false)
    ensures g.cwnd <= f.cwnd + 1
  {
    if g.cwnd > f.cwnd + 1 {
      PotentialNext(f.cwnd);
      PotentialGap(f.cwnd + 1, g.cwnd);
      assert false;
    }
  }

  lemma NoOutput(s: Net, e: Event, p: nat)
    requires QueuesOk(s) && p < |s.ports| && !e.TransmitTick?
    ensures |Step(s, e).ports| == |s.ports| && Step(s, e).ports[p].lastSend == s.ports[p].lastSend
  {
    match e
    case Incoming(tag, response, error, command) => AnswerWidens(s, tag, response, error, command, p);
    case _ => PortStep(s, e, p);
  }

  lemma EventSeen(s: Net, e: Event)
    requires QueuesOk(s) && OutputsSeen(s) && s.h.clock > 0
    ensures OutputsSeen(Step(s, e))
  {
    if e.TransmitTick? {
      TransmitSeen(s);
    } else {
      WireStays(s, e);
      var ps := Step(s, e).ports;
      NoOutput(s, e, 0);
      forall p | 0 <= p < |ps| ensures ps[p].lastSend == LastOutput(s.h.wire, p) {
        NoOutput(s, e, p);
      }
    }
  }

  lemma WireStays(s: Net, e: Event)
    requires QueuesOk(s) && !e.TransmitTick?
    ensures Step(s, e).h.wire == s.h.wire
  {
    if e.RetransmitTick? { RetransmitOrder(s, 0, false, e.targets, 0, 0); }
  }

  lemma {:induction false} RunSeen(s: Net, ts: seq<Timed>)
    requires QueuesOk(s) && OutputsSeen(s) && LegalRun(s, ts)
    ensures OutputsSeen(Run(s, ts)) && QueuesOk(Run(s, ts))
    decreases |ts|
  {
    if ts != [] {
      PortsOnly(s, At(s, ts[0].now));
      EventSeen(At(s, ts[0].now), ts[0].event);
      StepKeepsQueues(s, ts[0]);
      RunSeen(Apply(s, ts[0]), ts[1..]);
    }
  }

  // After any legal run an idle tick resets a port in use just when something has gone out by
  // it and the last output is more than 5 s back, rounded to microseconds: window 1, nothing
  // counted, and half of the least limit as the threshold. Any other port stays as it is.
  lemma IdleSinceLastOutput(ts: seq<Timed>, now: nat, p: nat)
    requires LegalRun(InitialNet(), ts) && Run(InitialNet(), ts).h.clock <= now && p < MAX_PORTS
    ensures var s := Run(InitialNet(), ts);
      && p < |s.ports| == |Apply(s, Timed(now, IdleTick)).ports|
      && var f, last := s.ports[p], LastOutput(s.h.wire, p);
         Apply(s, Timed(now, IdleTick)).ports[p]
           == if f.enabled && last != 0 && now - last >= 5_000_000_500
              then f.(cwnd := 1, frac := 0, outstanding := 0, ssthresh := f.minMax / 2) else f
  {
    PortsOkInitial();
    RunSeen(InitialNet(), ts);
    var s := Run(InitialNet(), ts);
    PortsOnly(s, At(s, now));
    PortStep(At(s, now), IdleTick, p);
  }

  // ---- The limits of the shelves ----

  // A limit that a port in use was given for a shelf.
  datatype Limit = Limit(shelf: nat, limit: int)

  function LimitNow(s: Net, e: Event, p: nat): seq<Limit> {
    if e.SetShelf? && e.ifc == p && p < |s.ports| && s.ports[p].enabled && e.onShelf < MAX_SHELFS
    then [Limit(e.onShelf, e.limit)] else []
  }

  // Those of a run, oldest first.
  function Limits(s: Net, ts: seq<Timed>, p: nat): seq<Limit>
    decreases |ts|
  {
    if ts == [] then [] else LimitNow(s, ts[0].event, p) + Limits(Apply(s, ts[0]), ts[1..], p)
  }

  function LastFor(ls: seq<Limit>, shelf: nat): int {
    if ls == [] then 0
    else if ls[|ls| - 1].shelf == shelf then ls[|ls| - 1].limit
    else LastFor(ls[..|ls| - 1], shelf)
  }

  ghost predicate IsLeast(m: int, ls: seq<Limit>) {
    && m <= 128
    && (forall l :: l in ls ==> m <= l.limit)
    && (m == 128 || exists l :: l in ls && l.limit == m)
  }

  // The port's records agree with the limits it was given.
  ghost predicate LimitsKept(f: Iface, ls: seq<Limit>) {
    && IsLeast(f.minMax, ls)
    && |f.shelfMax| == MAX_SHELFS
    && forall x :: 0 <= x < MAX_SHELFS ==> f.shelfMax[x] == LastFor(ls, x)
  }

  lemma OneMoreLimit(f: Iface, g: Iface, ls: seq<Limit>, l: Limit)
    requires LimitsKept(f, ls) && l.shelf < MAX_SHELFS
    requires g.shelfMax == f.shelfMax[l.shelf := l.limit] && g.minMax == (if l.limit < f.minMax then l.limit else f.minMax)
    ensures LimitsKept(g, ls + [l])
  {
    var all := ls + [l];
    assert all[..|ls|] == ls && l in all;
    if g.minMax != 128 && l.limit >= f.minMax {
      var x :| x in ls && x.limit == g.minMax;
      assert x in all;
    }
    forall x | 0 <= x < MAX_SHELFS ensures g.shelfMax[x] == LastFor(all, x) {
      assert LastFor(all, x) == if l.shelf == x then l.limit else LastFor(ls, x);
    }
  }

  lemma EventLimits(s: Net, e: Event, p: nat, ls: seq<Limit>)
    requires QueuesOk(s) && s.h.clock > 0 && p < |s.ports| && LimitsKept(s.ports[p], ls)
    ensures |Step(s, e).ports| == |s.ports| && LimitsKept(Step(s, e).ports[p], ls + LimitNow(s, e, p))
  {
    LimitsStay(s, e, p);
    if LimitNow(s, e, p) == [] {
      assert ls + LimitNow(s, e, p) == ls;
    } else {
      PortStep(s, e, p);
      OneMoreLimit(s.ports[p], Step(s, e).ports[p], ls, Limit(e.onShelf, e.limit));
    }
  }

  lemma LimitsStay(s: Net, e: Event, p: nat)
    requires QueuesOk(s) && s.h.clock > 0 && p < |s.ports|
    ensures |Step(s, e).ports| == |s.ports|
    ensures LimitNow(s, e, p) == [] ==>
      Step(s, e).ports[p].minMax == s.ports[p].minMax && Step(s, e).ports[p].shelfMax == s.ports[p].shelfMax
  {
    assert PortOk(s.ports[p], p);
    match e
    case TransmitTick => TransmitWithinWindow(s, p);
    case Incoming(tag, response, error, command) => AnswerWidens(s, tag, response, error, command, p);
    case _ => PortStep(s, e, p);
  }

  lemma {:induction false} RunLimits(s: Net, ts: seq<Timed>, p: nat, ls: seq<Limit>)
    requires QueuesOk(s) && LegalRun(s, ts) && p < |s.ports| && LimitsKept(s.ports[p], ls)
    ensures p < |Run(s, ts).ports| && LimitsKept(Run(s, ts).ports[p], ls + Limits(s, ts, p))
    decreases |ts|
  {
    if ts == [] {
      assert ls + Limits(s, ts, p) == ls;
    } else {
      var s' := Apply(s, ts[0]);
      var now, later := LimitNow(s, ts[0].event, p), Limits(s', ts[1..], p);
      StepLimits(s, ts[0], p, ls);
      RunLimits(s', ts[1..], p, ls + now);
      Associate(ls, now, later);
    }
  }

  lemma StepLimits(s: Net, t: Timed, p: nat, ls: seq<Limit>)
    requires QueuesOk(s) && Legal(s, t) && p < |s.ports| && LimitsKept(s.ports[p], ls)
    ensures p < |Apply(s, t).ports| && LimitsKept(Apply(s, t).ports[p], ls + LimitNow(s, t.event, p))
    ensures QueuesOk(Apply(s, t))
  {
    PortsOnly(s, At(s, t.now));
    EventLimits(At(s, t.now), t.event, p, ls);
    StepKeepsQueues(s, t);
  }

  lemma Associate(a: seq<Limit>, b: seq<Limit>, c: seq<Limit>)
    ensures a + b + c == a + (b + c)
  {
  }

  // Over every legal run the limit of a shelf is the last one that the port was given for it
  // while it was in use, 0 if there was none; and the limit of a broadcast is the least of 128
  // and all limits the port was given, whether they still hold or not.
  lemma LimitsOfRun(ts: seq<Timed>, p: nat)
    requires LegalRun(InitialNet(), ts) && p < MAX_PORTS
    ensures var s, ls := Run(InitialNet(), ts), Limits(InitialNet(), ts, p);
      && p < |s.ports| && |s.ports[p].shelfMax| == MAX_SHELFS
      && (forall x :: 0 <= x < MAX_SHELFS ==> s.ports[p].shelfMax[x] == LastFor(ls, x))
      && s.ports[p].minMax <= 128 && (forall l :: l in ls ==> s.ports[p].minMax <= l.limit)
      && (s.ports[p].minMax == 128 || exists l :: l in ls && l.limit == s.ports[p].minMax)
  {
    PortsOkInitial();
    assert LimitsKept(InitialNet().ports[p], []);
    RunLimits(InitialNet(), ts, p, []);
    assert [] + Limits(InitialNet(), ts, p) == Limits(InitialNet(), ts, p);
  }
}
