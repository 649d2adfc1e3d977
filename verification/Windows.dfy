/** What may change the counts and the congestion windows, and by how much. */
module Windows {
  import opened Common
  import opened Interfaces
  import opened Transport
  import opened Queues

  // Immediate sends touch nothing of a port but the time of its last output.
  lemma {:induction false} FlushPorts(s: Net, j: nat, p: nat)
    requires j <= |s.toSend| && p < |s.ports|
    ensures var f := FlushImmediate(s, j);
      f.ports[p] == s.ports[p].(lastSend := f.ports[p].lastSend)
    decreases |s.toSend| - j
  {
    if j < |s.toSend| {
      if s.toSend[j].immediate { FlushPorts(SendFromQueue(s, j), j, p); } else { FlushPorts(s, j + 1, p); }
    }
  }

  // A transmit tick counts at most one more packet, a fresh one, and only within the least of
  // the congestion window, the shelf's window and the user's window.
  lemma TransmitWithinWindow(s: Net, p: nat)
    requires QueuesOk(s) && s.h.clock > 0 && p < |s.ports|
    ensures var s' := Transmit(s);
      && (s'.ports[p].outstanding == s.ports[p].outstanding
          || (s'.ports[p].outstanding == s.ports[p].outstanding + 1 &&
              exists j :: 0 <= j < |s.toSend| && s.toSend[j].ifc == p && !s.toSend[j].immediate &&
                s'.ports[p].outstanding <= Window(s.ports, s.userWindow, p, s.toSend[j].shelf)))
      && s'.ports[p] == s.ports[p].(outstanding := s'.ports[p].outstanding, lastSend := s'.ports[p].lastSend)
  {
    FlushKeeps(s, 0);
    FlushPorts(s, 0, p);
    var f := FlushImmediate(s, 0);
    var m := Choose(f, 0);
    if m >= 0 {
      var t := f.toSend[m];
      FlushSubset(s, 0);
      assert t in f.toSend;
      var j :| 0 <= j < |s.toSend| && s.toSend[j] == t;
      if t.ifc == p {
        assert Window(f.ports, f.userWindow, p, t.shelf) == Window(s.ports, s.userWindow, p, s.toSend[j].shelf);
      }
    }
  }

  lemma {:induction false} FlushSubset(s: Net, j: nat)
    requires j <= |s.toSend|
    ensures forall t :: t in FlushImmediate(s, j).toSend ==> t in s.toSend
    decreases |s.toSend| - j
  {
    if j < |s.toSend| {
      if s.toSend[j].immediate {
        RemoveAtMembers(s.toSend, j);
        FlushSubset(SendFromQueue(s, j), j);
      } else {
        FlushSubset(s, j + 1);
      }
    }
  }

  // The position, from i on, of the first entry the retransmit tick resends, or -1.
  function FirstAgain(q: seq<Sent>, now: nat, i: nat): (r: int)
    requires i <= |q|
    ensures -1 <= r < |q|
    ensures r >= 0 ==> i <= r && Judge(q[r], now) == Again
    decreases |q| - i
  {
    if i == |q| then -1 else if Judge(q[i], now) == Again then i else FirstAgain(q, now, i + 1)
  }

  lemma {:induction false} FirstAgainShift(q: seq<Sent>, q': seq<Sent>, now: nat, i: nat, i': nat)
    requires i <= |q| && i' <= |q'| && q[i..] == q'[i'..]
    ensures var r := FirstAgain(q, now, i);
      FirstAgain(q', now, i') == (if r < 0 then -1 else r - i + i')
    decreases |q| - i
  {
    if i < |q| {
      assert q[i] == q[i..][0] == q'[i'..][0] == q'[i'];
      assert q[i + 1..] == q[i..][1..] == q'[i'..][1..] == q'[i' + 1..];
      if Judge(q[i], now) != Again {
        FirstAgainShift(q, q', now, i + 1, i' + 1);
      }
    }
  }

  // Two port tables with the same links and windows (their counts may differ).
  ghost predicate SameWindows(ps: Ports, ps': Ports) {
    && |ps| == |ps'|
    && forall p :: 0 <= p < |ps| ==>
         ps'[p] == ps[p].(outstanding := ps'[p].outstanding) && ps'[p].outstanding <= ps[p].outstanding
  }

  lemma SameWindowsTransitive(a: Ports, b: Ports, c: Ports)
    requires SameWindows(a, b) && SameWindows(b, c)
    ensures SameWindows(a, c)
  {
    forall p | 0 <= p < |a| ensures c[p] == a[p].(outstanding := c[p].outstanding) {
      assert b[p] == a[p].(outstanding := b[p].outstanding);
    }
  }

  lemma CollapseSame(a: Ports, b: Ports, ifc: int)
    requires SameWindows(a, b)
    ensures SameWindows(Collapse(a, ifc), Collapse(b, ifc))
  {
    forall p | 0 <= p < |a|
      ensures Collapse(b, ifc)[p] == Collapse(a, ifc)[p].(outstanding := Collapse(b, ifc)[p].outstanding)
      ensures Collapse(b, ifc)[p].outstanding <= Collapse(a, ifc)[p].outstanding
    {
      assert b[p] == a[p].(outstanding := b[p].outstanding);
      CollapseIsRestart(a, ifc, p);
      CollapseIsRestart(b, ifc, p);
    }
  }

  // The ports after the window reaction of a tick that goes on from position i.
  function Reaction(s: Net, i: nat, adjusted: bool): Ports
    requires i <= |s.sent|
  {
    var first := FirstAgain(s.sent, s.h.clock, i);
    if adjusted || first < 0 then s.ports else Collapse(s.ports, s.sent[first].ifc)
  }

  lemma DropReaction(s: Net, i: nat, adjusted: bool)
    requires i < |s.sent| && Judge(s.sent[i], s.h.clock) == Discard
    ensures SameWindows(Reaction(s, i, adjusted), Reaction(Drop(s, i), i, adjusted))
  {
    var d := Drop(s, i);
    assert d.sent[i..] == s.sent[i + 1..];
    FirstAgainShift(s.sent, d.sent, s.h.clock, i + 1, i);
    var first := FirstAgain(s.sent, s.h.clock, i);
    assert SameWindows(s.ports, d.ports);
    if first >= 0 { CollapseSame(s.ports, d.ports, s.sent[first].ifc); }
  }

  // A retransmit tick collapses the window of at most one port, that of the first packet it
  // resends, whatever else it resends; and it never raises a count.
  lemma {:induction false} RetransmitCollapsesOnce(s: Net, i: nat, adjusted: bool, targets: nat)
    requires i <= |s.sent|
    ensures SameWindows(Reaction(s, i, adjusted), RetransmitFrom(s, i, adjusted, targets).ports)
    decreases |s.sent| - i
  {
    if i < |s.sent| {
      match Judge(s.sent[i], s.h.clock)
      case Keep =>
        RetransmitCollapsesOnce(s, i + 1, adjusted, targets);
      case Discard =>
        DropReaction(s, i, adjusted);
        RetransmitCollapsesOnce(Drop(s, i), i, adjusted, targets);
        SameWindowsTransitive(Reaction(s, i, adjusted), Reaction(Drop(s, i), i, adjusted),
                              RetransmitFrom(s, i, adjusted, targets).ports);
      case Again =>
        var s' := if adjusted then s else CollapseWindow(s, s.sent[i].ifc);
        var r := Resend(s', i, targets);
        assert SameWindows(Reaction(s, i, adjusted), r.ports);
        RetransmitCollapsesOnce(r, i + 1, true, targets);
        SameWindowsTransitive(Reaction(s, i, adjusted), r.ports, RetransmitFrom(s, i, adjusted, targets).ports);
    }
  }

  // What the collapse is: the window restarts at one with half of it as the threshold.
  lemma CollapseIsRestart(ps: Ports, ifc: int, p: nat)
    requires p < |ps|
    ensures var f := Collapse(ps, ifc)[p];
      if p == ifc && Attached(ps, ifc) then
        f == ps[p].(cwnd := 1, frac := 0, ssthresh := Max(ps[p].cwnd / 2, 1))
      else f == ps[p]
  {
  }

  // No event but a transmit tick counts a packet; other raises only reset a negative count.
  lemma OnlyTransmitCounts(s: Net, e: Event, p: nat)
    requires QueuesOk(s) && s.h.clock > 0 && p < |s.ports| && !e.TransmitTick?
    ensures |Step(s, e).ports| == |s.ports|
    ensures Step(s, e).ports[p].outstanding <= Max(s.ports[p].outstanding, 0)
  {
    match e
    case RetransmitTick(targets) =>
      RetransmitCollapsesOnce(s, 0, false, targets);
      var first := FirstAgain(s.sent, s.h.clock, 0);
      if first >= 0 { CollapseIsRestart(s.ports, s.sent[first].ifc, p); }
    case Incoming(tag, response, error, command) =>
      AckLowers(s, p, e);
    case _ =>
  }

  lemma WindowKeepsCount(ps: Ports, ifc: int, p: nat)
    requires p < |ps|
    ensures AckWindow(ps, ifc)[p].outstanding == ps[p].outstanding
  {
  }

  lemma AckLowers(s: Net, p: nat, e: Event)
    requires p < |s.ports| && e.Incoming?
    ensures |Step(s, e).ports| == |s.ports|
    ensures Step(s, e).ports[p].outstanding <= Max(s.ports[p].outstanding, 0)
  {
    var k := FindSent(s.sent, e.tag);
    var r := Receive(s, e.tag, e.response, e.error, e.command);
    if e.response && k >= 0 {
      WindowKeepsCount(AckOutstanding(s.ports, s.sent[k].ifc, s.sent[k].retrans), s.sent[k].ifc, p);
      assert r.ports == Acknowledge(s, k).ports;
    } else {
      assert r.ports == s.ports;
    }
  }

  ghost predicate WithinUserWindow(s: Net, limit: nat) {
    s.userWindow == limit && forall p :: 0 <= p < |s.ports| ==> s.ports[p].outstanding <= limit
  }

  lemma {:induction false} RetransmitUserWindow(s: Net, i: nat, adjusted: bool, targets: nat)
    requires i <= |s.sent|
    ensures RetransmitFrom(s, i, adjusted, targets).userWindow == s.userWindow
    decreases |s.sent| - i
  {
    if i < |s.sent| {
      match Judge(s.sent[i], s.h.clock)
      case Keep => RetransmitUserWindow(s, i + 1, adjusted, targets);
      case Discard => RetransmitUserWindow(Drop(s, i), i, adjusted, targets);
      case Again =>
        var s' := if adjusted then s else CollapseWindow(s, s.sent[i].ifc);
        RetransmitUserWindow(Resend(s', i, targets), i + 1, true, targets);
    }
  }

  lemma StepWithinUserWindow(s: Net, t: Timed, limit: nat)
    requires QueuesOk(s) && Legal(s, t) && !t.event.SetUserWindow? && WithinUserWindow(s, limit)
    ensures WithinUserWindow(Apply(s, t), limit)
  {
    var s0 := At(s, t.now);
    PortsOnly(s, s0);
    match t.event {
      case RetransmitTick(targets) => RetransmitUserWindow(s0, 0, false, targets);
      case _ =>
    }
    assert Apply(s, t).userWindow == limit;
    assert |Apply(s, t).ports| == |s.ports| by {
      if !t.event.TransmitTick? { OnlyTransmitCounts(s0, t.event, 0); }
    }
    forall p | 0 <= p < |s.ports| ensures Apply(s, t).ports[p].outstanding <= limit {
      if t.event.TransmitTick? {
        TransmitWithinWindow(s0, p);
      } else {
        OnlyTransmitCounts(s0, t.event, p);
      }
    }
  }

  // With a constant user window no port ever counts more packets than it allows, over every
  // legal run, link changes included.
  lemma {:induction false} RunWithinUserWindow(s: Net, ts: seq<Timed>, limit: nat)
    requires QueuesOk(s) && WithinUserWindow(s, limit) && LegalRun(s, ts)
    requires forall i :: 0 <= i < |ts| ==> !ts[i].event.SetUserWindow?
    ensures WithinUserWindow(Run(s, ts), limit)
    decreases |ts|
  {
    if ts != [] {
      StepKeepsQueues(s, ts[0]);
      StepWithinUserWindow(s, ts[0], limit);
      RunWithinUserWindow(Apply(s, ts[0]), ts[1..], limit);
    }
  }
}
