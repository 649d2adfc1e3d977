/** What a link that goes down and is reconnected does to flow control: the count of the port
    survives (AoE/EInterfaces.cpp, interface_reconnected; AoE/AoEService.cpp,
    cg_disable_interface), so the window of a shelf may stay shut with nothing in flight. */
module Reconnect {
  import opened Common
  import opened Interfaces
  import opened RtoEstimator
  import opened Transport
  import opened Queues
  import opened Ledger
  import opened Windows
  import opened Order
  import opened Timers
  import opened Scenarios

  // What the count of a port exceeds the packets in flight by, once the searches that wait
  // there have been dropped: each of them takes one off.
  function Debt(s: Net, p: nat): int
    requires p < |s.ports|
  {
    -Deficit(s, p) - UnsentCount(s.sent, p)
  }

  // MIN(MIN(cwnd, shelf window), user window) of a port that is up
  function WindowOf(f: Iface, userWindow: int, shelf: int): int {
    Min(Min(f.cwnd, if shelf < 0 then f.minMax else if shelf < |f.shelfMax| then f.shelfMax[shelf] else 0), userWindow)
  }

  // The window that port p has for the shelf is used up by packets that are counted but not in
  // flight: no reply to a packet that was out, and no time-out of one, takes them off the count.
  ghost predicate Stuck(s: Net, p: nat, shelf: int) {
    && QueuesOk(s) && p < |s.ports| && s.ports[p].enabled
    && Debt(s, p) >= Window(s.ports, s.userWindow, p, shelf)
  }

  lemma WindowIs(s: Net, p: nat, shelf: int)
    requires QueuesOk(s) && p < |s.ports| && s.ports[p].enabled
    ensures Window(s.ports, s.userWindow, p, shelf) == WindowOf(s.ports[p], s.userWindow, shelf)
  {
    assert PortOk(s.ports[p], p);
  }

  // Then flow control lets no packet for the shelf out.
  lemma StuckIsShut(s: Net, p: nat, shelf: int)
    requires Stuck(s, p, shelf)
    ensures forall t: ToSend :: t.ifc == p && t.shelf == shelf ==> !WindowOpen(s, t)
  {
    assert PortOk(s.ports[p], p);
  }

  // A debt of the congestion window or of the user's window shuts the port for every shelf.
  lemma StuckForAll(s: Net, p: nat, shelf: int)
    requires QueuesOk(s) && p < |s.ports| && s.ports[p].enabled
    requires Debt(s, p) >= s.ports[p].cwnd || Debt(s, p) >= s.userWindow
    ensures Stuck(s, p, shelf)
  {
    WindowIs(s, p, shelf);
  }

  // ---- What an event does to the port, in terms of the state before it ----

  function UnsentAfter(s: Net, e: Event, p: nat): int {
    match e
    case Send(_, ifc, _, retransmit) =>
      UnsentCount(s.sent, p) + (if ifc == p && (!retransmit || GetRtoUs(s.rto) == 0) then 1 else 0)
    case RetransmitTick(_) => 0
    case Incoming(tag, _, _, _) =>
      UnsentCount(s.sent, p) - (if Answers(s, e, p) && Unsent(s.sent[FindSent(s.sent, tag)], p) then 1 else 0)
    case _ => UnsentCount(s.sent, p)
  }

  function PortAfter(s: Net, e: Event, p: nat): Iface
    requires p < |s.ports|
  {
    match e
    case Incoming(_, _, _, _) => if Answers(s, e, p) && s.ports[p].cwnd >= 1 then AckGrowth(s.ports[p]) else s.ports[p]
    case IdleTick => if IsIdle(s.ports[p], s.h.clock) then ResetIface(s.ports[p]) else s.ports[p]
    case Enable(n) => if n == p then ResetIface(s.ports[p]) else s.ports[p]
    case SetShelf(ifc, shelf, limit) => if ifc == p then SetShelfMax(s.ports[p], shelf, limit) else s.ports[p]
    case _ => s.ports[p]
  }

  function UserWindowAfter(s: Net, e: Event): int {
    if e.SetUserWindow? then e.window else s.userWindow
  }

  // When port p stays stuck for the shelf through event e. The two ticks never help.
  predicate Survives(s: Net, e: Event, p: nat, shelf: int)
    requires p < |s.ports|
  {
    match e
    case TransmitTick => true
    case RetransmitTick(_) => true
    case Disable(n) => n != p
    case _ =>
      Debt(s, p) - Leak(s, e, p) + UnsentCount(s.sent, p) - UnsentAfter(s, e, p)
        >= WindowOf(PortAfter(s, e, p), UserWindowAfter(s, e), shelf)
  }

  // Frames were added to the wire, but no first transmission for the shelf on port p.
  ghost predicate SilentFor(w: seq<Frame>, w': seq<Frame>, p: nat, shelf: int) {
    && |w| <= |w'| && w'[..|w|] == w
    && forall k :: |w| <= k < |w'| ==> !(w'[k].first && w'[k].ifc == p && w'[k].shelf == shelf)
  }

  lemma SilentTransitive(a: seq<Frame>, b: seq<Frame>, c: seq<Frame>, p: nat, shelf: int)
    requires SilentFor(a, b, p, shelf) && SilentFor(b, c, p, shelf)
    ensures SilentFor(a, c, p, shelf)
  {
    assert c[..|a|] == c[..|b|][..|a|];
    forall k | |a| <= k < |c| ensures !(c[k].first && c[k].ifc == p && c[k].shelf == shelf) {
      if k < |b| { assert c[k] == c[..|b|][k]; }
    }
  }

  // ---- Counting the searches that wait ----

  lemma {:induction false} UnsentConcat(a: seq<Sent>, b: seq<Sent>, p: int)
    ensures UnsentCount(a + b, p) == UnsentCount(a, p) + UnsentCount(b, p)
  {
    if a == [] {
      assert a + b == b;
    } else {
      UnsentConcat(a[1..], b, p);
      assert (a + b)[1..] == a[1..] + b;
    }
  }

  lemma UnsentSplit(q: seq<Sent>, k: nat, p: int)
    requires k < |q|
    ensures UnsentCount(q, p) == UnsentCount(RemoveAt(q, k), p) + (if Unsent(q[k], p) then 1 else 0)
  {
    assert q == q[..k] + ([q[k]] + q[k + 1..]);
    UnsentConcat(q[..k], [q[k]] + q[k + 1..], p);
    UnsentConcat(q[..k], q[k + 1..], p);
  }

  lemma UnsentUpdate(q: seq<Sent>, k: nat, e: Sent, p: int)
    requires k < |q|
    ensures UnsentCount(q[k := e], p)
         == UnsentCount(q, p) - (if Unsent(q[k], p) then 1 else 0) + (if Unsent(e, p) then 1 else 0)
  {
    UnsentSplit(q, k, p);
    UnsentSplit(q[k := e], k, p);
    assert RemoveAt(q[k := e], k) == RemoveAt(q, k);
  }

  lemma {:induction false} UnsentPurge(ps: Ports, q: seq<Sent>, p: int)
    requires Used(ps, p)
    ensures UnsentCount(PurgeSent(ps, q), p) == UnsentCount(q, p)
  {
    if q != [] {
      UnsentPurge(ps, q[1..], p);
      UnsentConcat(if Used(ps, q[0].ifc) then [q[0]] else [], PurgeSent(ps, q[1..]), p);
    }
  }

  lemma {:induction false} UnsentNone(q: seq<Sent>, p: int)
    requires forall k :: 0 <= k < |q| ==> !Unsent(q[k], p)
    ensures UnsentCount(q, p) == 0
  {
    if q != [] { UnsentNone(q[1..], p); }
  }

  // ---- The transmit tick ----

  // An item that goes out is not a fresh one for a shut shelf; it takes no search off the
  // waiting ones but by counting it.
  lemma SendFromQueueStuck(s: Net, j: nat, p: nat, shelf: int)
    requires QueuesOk(s) && j < |s.toSend| && s.h.clock > 0 && p < |s.ports|
    requires s.toSend[j].immediate || !(s.toSend[j].ifc == p && s.toSend[j].shelf == shelf)
    ensures var s' := SendFromQueue(s, j);
      && QueuesOk(s') && s'.h.clock == s.h.clock && Debt(s', p) >= Debt(s, p)
      && SilentFor(s.h.wire, s'.h.wire, p, shelf)
  {
    FromQueueEntry(s, j);
    SendFromQueueKeeps(s, j);
    SendFromQueueBalanced(s, j, p);
    var k := FindSent(s.sent, s.toSend[j].tag);
    if k >= 0 {
      UnsentUpdate(s.sent, k, Output(s.sent[k], s.h.clock), p);
    }
  }

  lemma {:induction false} FlushStuck(s: Net, j: nat, p: nat, shelf: int)
    requires QueuesOk(s) && j <= |s.toSend| && s.h.clock > 0 && p < |s.ports|
    ensures var s' := FlushImmediate(s, j);
      && QueuesOk(s') && s'.h.clock == s.h.clock && Debt(s', p) >= Debt(s, p)
      && SilentFor(s.h.wire, s'.h.wire, p, shelf)
    decreases |s.toSend| - j
  {
    if j < |s.toSend| {
      if s.toSend[j].immediate {
        SendFromQueueStuck(s, j, p, shelf);
        FlushStuck(SendFromQueue(s, j), j, p, shelf);
        SilentTransitive(s.h.wire, SendFromQueue(s, j).h.wire, FlushImmediate(s, j).h.wire, p, shelf);
      } else {
        FlushStuck(s, j + 1, p, shelf);
      }
    }
  }

  lemma TransmitStuck(s: Net, p: nat, shelf: int)
    requires Stuck(s, p, shelf) && s.h.clock > 0
    ensures Stuck(Transmit(s), p, shelf) && SilentFor(s.h.wire, Transmit(s).h.wire, p, shelf)
  {
    FlushStuck(s, 0, p, shelf);
    FlushPorts(s, 0, p);
    var f := FlushImmediate(s, 0);
    WindowIs(s, p, shelf);
    WindowIs(f, p, shelf);
    var j := Choose(f, 0);
    if j >= 0 {
      StuckIsShut(f, p, shelf);
      SendFromQueueStuck(f, j, p, shelf);
      SilentTransitive(s.h.wire, f.h.wire, Transmit(s).h.wire, p, shelf);
    }
    TransmitWithinWindow(s, p);
    WindowIs(Transmit(s), p, shelf);
  }

  // ---- The retransmit tick ----

  // The tick drops the searches, so it leaves the debt alone, and no window grows.
  lemma RetransmitStuck(s: Net, targets: nat, p: nat, shelf: int)
    requires QueuesOk(s) && p < |s.ports| && s.ports[p].enabled
    ensures var s' := RetransmitFrom(s, 0, false, targets);
      && QueuesOk(s') && |s'.ports| == |s.ports| && s'.ports[p].enabled
      && UnsentCount(s'.sent, p) == 0 && Debt(s', p) == Debt(s, p) && s'.h.wire == s.h.wire
      && Window(s'.ports, s'.userWindow, p, shelf) <= Window(s.ports, s.userWindow, p, shelf)
  {
    var s' := RetransmitFrom(s, 0, false, targets);
    RetransmitKeeps(s, 0, false, targets);
    RetransmitOrder(s, 0, false, targets, p, shelf);
    SearchesDropped(s, targets, p);
    RetransmitWindow(s, targets, p, shelf);
  }

  lemma SearchesDropped(s: Net, targets: nat, p: nat)
    requires QueuesOk(s) && p < |s.ports|
    ensures var s' := RetransmitFrom(s, 0, false, targets);
      |s'.ports| == |s.ports| && UnsentCount(s'.sent, p) == 0 && Debt(s', p) == Debt(s, p)
  {
    RetransmitLeak(s, 0, false, targets, p);
    assert s.sent[0..] == s.sent;
    NothingOverdue(s, targets);
    var end := Step(s, RetransmitTick(targets));
    forall k | 0 <= k < |end.sent| ensures !Unsent(end.sent[k], p) {
      assert InTime(end.sent[k], s.h.clock);
    }
    UnsentNone(end.sent, p);
  }

  lemma RetransmitWindow(s: Net, targets: nat, p: nat, shelf: int)
    requires QueuesOk(s) && p < |s.ports| && s.ports[p].enabled
    ensures var s' := RetransmitFrom(s, 0, false, targets);
      && |s'.ports| == |s.ports| && s'.ports[p].enabled
      && Window(s'.ports, s'.userWindow, p, shelf) <= Window(s.ports, s.userWindow, p, shelf)
  {
    var s' := RetransmitFrom(s, 0, false, targets);
    RetransmitKeeps(s, 0, false, targets);
    RetransmitCollapsesOnce(s, 0, false, targets);
    RetransmitUserWindow(s, 0, false, targets);
    var first := FirstAgain(s.sent, s.h.clock, 0);
    if first >= 0 { CollapseIsRestart(s.ports, s.sent[first].ifc, p); }
    assert PortOk(s.ports[p], p);
    WindowIs(s, p, shelf);
    WindowIs(s', p, shelf);
  }

  // ---- The other events ----

  // With the debt and the window after the event as they are predicted, it is decided.
  lemma Decided(s: Net, e: Event, p: nat, shelf: int)
    requires Stuck(s, p, shelf) && s.h.clock > 0 && QueuesOk(Step(s, e)) && |Step(s, e).ports| == |s.ports|
    requires Step(s, e).ports[p].enabled && UnsentCount(Step(s, e).sent, p) == UnsentAfter(s, e, p)
    requires Step(s, e).userWindow == UserWindowAfter(s, e)
    requires WindowOf(Step(s, e).ports[p], UserWindowAfter(s, e), shelf) == WindowOf(PortAfter(s, e, p), UserWindowAfter(s, e), shelf)
    requires !e.TransmitTick? && !e.RetransmitTick? && !e.Disable?
    ensures Stuck(Step(s, e), p, shelf) <==> Survives(s, e, p, shelf)
  {
    EventAccounting(s, e, p);
    WindowIs(Step(s, e), p, shelf);
  }

  lemma SendSurvives(s: Net, e: Event, p: nat, shelf: int)
    requires Stuck(s, p, shelf) && s.h.clock > 0 && e.Send? && e.tag !in Tags(s.h.accepted)
    ensures Stuck(Step(s, e), p, shelf) <==> Survives(s, e, p, shelf)
    ensures Step(s, e).h.wire == s.h.wire
  {
    assert PortOk(s.ports[p], p);
    if Used(s.ports, e.ifc) {
      SendKeeps(s, e.tag, e.ifc, e.shelf, e.retransmit);
      UnsentConcat(s.sent, [Step(s, e).sent[|s.sent|]], p);
    } else {
      RejectedSendIsNoOp(s, e.tag, e.ifc, e.shelf, e.retransmit);
    }
    Decided(s, e, p, shelf);
  }

  // The reply to a packet of the port grows its congestion window.
  lemma AnswerPorts(ps: Ports, ifc: int, p: nat, retrans: bool)
    requires p < |ps| && Attached(ps, p) && ps[p].cwnd >= 1
    ensures var r := AckWindow(AckOutstanding(ps, ifc, retrans), ifc);
      r[p] == (if ifc == p then AckGrowth(ps[p]) else ps[p]).(outstanding := r[p].outstanding)
  {
  }

  lemma ReceiveSurvives(s: Net, e: Event, p: nat, shelf: int)
    requires Stuck(s, p, shelf) && s.h.clock > 0 && e.Incoming?
    ensures Stuck(Step(s, e), p, shelf) <==> Survives(s, e, p, shelf)
    ensures Step(s, e).h.wire == s.h.wire
  {
    ReceiveKeeps(s, e.tag, e.response, e.error, e.command);
    ReceivePorts(s, e, p);
    Decided(s, e, p, shelf);
  }

  lemma ReceivePorts(s: Net, e: Event, p: nat)
    requires QueuesOk(s) && e.Incoming? && p < |s.ports| && s.ports[p].enabled
    ensures var s' := Step(s, e);
      && |s'.ports| == |s.ports| && s'.ports[p].enabled && s'.userWindow == s.userWindow
      && s'.ports[p] == PortAfter(s, e, p).(outstanding := s'.ports[p].outstanding)
      && UnsentCount(s'.sent, p) == UnsentAfter(s, e, p)
  {
    var k := FindSent(s.sent, e.tag);
    assert PortOk(s.ports[p], p);
    if e.response && k >= 0 {
      AnswerPorts(s.ports, s.sent[k].ifc, p, s.sent[k].retrans);
      AckLaw(s.ports[p]);
      UnsentSplit(s.sent, k, p);
    }
  }

  lemma DisableSurvives(s: Net, n: nat, p: nat, shelf: int)
    requires Stuck(s, p, shelf)
    ensures Stuck(DisableLink(s, n), p, shelf) <==> n != p
  {
    if n != p {
      var s' := DisableLink(s, n);
      DisableKeeps(s, n);
      FlyingPurge(s'.ports, s.sent, p);
      UnsentPurge(s'.ports, s.sent, p);
    }
  }

  lemma SettingsSurvive(s: Net, e: Event, p: nat, shelf: int)
    requires Stuck(s, p, shelf) && s.h.clock > 0 && QueuesOk(Step(s, e))
    requires e.IdleTick? || e.Enable? || e.Reconnect? || e.SetUserWindow? || e.SetShelf?
    ensures Stuck(Step(s, e), p, shelf) <==> Survives(s, e, p, shelf)
    ensures Step(s, e).h.wire == s.h.wire
  {
    assert PortOk(s.ports[p], p);
    Decided(s, e, p, shelf);
  }

  // A port stays stuck for a shelf through an event if and only if the state before it says
  // so, and no event makes it output a fresh packet for the shelf.
  lemma StuckSurvivesIff(s: Net, t: Timed, p: nat, shelf: int)
    requires Stuck(s, p, shelf) && Legal(s, t)
    ensures Stuck(Apply(s, t), p, shelf) <==> Survives(At(s, t.now), t.event, p, shelf)
    ensures SilentFor(s.h.wire, Apply(s, t).h.wire, p, shelf)
  {
    StepKeepsQueues(s, t);
    var s0 := At(s, t.now);
    PortsOnly(s, s0);
    match t.event
    case Send(_, _, _, _) => SendSurvives(s0, t.event, p, shelf);
    case TransmitTick => TransmitStuck(s0, p, shelf);
    case RetransmitTick(targets) => RetransmitStuck(s0, targets, p, shelf);
    case Incoming(_, _, _, _) => ReceiveSurvives(s0, t.event, p, shelf);
    case Disable(n) => DisableSurvives(s0, n, p, shelf);
    case _ => SettingsSurvive(s0, t.event, p, shelf);
  }

  ghost predicate SurvivesRun(s: Net, ts: seq<Timed>, p: nat, shelf: int)
    decreases |ts|
  {
    ts == [] || (
      && p < |s.ports| && Legal(s, ts[0]) && Survives(At(s, ts[0].now), ts[0].event, p, shelf)
      && SurvivesRun(Apply(s, ts[0]), ts[1..], p, shelf))
  }

  // However many packets are queued for the shelf and however many ticks pass, as long as
  // nothing of that kind happens none of them goes out.
  lemma {:induction false} RunStaysStuck(s: Net, ts: seq<Timed>, p: nat, shelf: int)
    requires Stuck(s, p, shelf) && SurvivesRun(s, ts, p, shelf)
    ensures Stuck(Run(s, ts), p, shelf) && SilentFor(s.h.wire, Run(s, ts).h.wire, p, shelf)
    decreases |ts|
  {
    if ts != [] {
      StuckSurvivesIff(s, ts[0], p, shelf);
      RunStaysStuck(Apply(s, ts[0]), ts[1..], p, shelf);
      SilentTransitive(s.h.wire, Apply(s, ts[0]).h.wire, Run(s, ts).h.wire, p, shelf);
    }
  }

  // ---- Ways out ----

  // The settings: a larger window for the shelf, or for all of them.
  lemma SettingsReleaseIff(s: Net, p: nat, shelf: nat, now: nat, limit: nat, window: int)
    requires Stuck(s, p, shelf) && shelf < MAX_SHELFS && 0 < now && s.h.clock <= now
    ensures Stuck(Apply(s, Timed(now, SetShelf(p, shelf, limit))), p, shelf)
       <==> Debt(s, p) >= Min(Min(s.ports[p].cwnd, limit), s.userWindow)
    ensures Stuck(Apply(s, Timed(now, SetUserWindow(window))), p, shelf)
       <==> Debt(s, p) >= Min(Min(s.ports[p].cwnd, s.ports[p].shelfMax[shelf]), window)
  {
    assert PortOk(s.ports[p], p);
    StuckSurvivesIff(s, Timed(now, SetShelf(p, shelf, limit)), p, shelf);
    StuckSurvivesIff(s, Timed(now, SetUserWindow(window)), p, shelf);
  }

  // The idle reset, if the shelf and the user leave any window at all.
  lemma IdleReleasesIff(s: Net, p: nat, shelf: int, now: nat)
    requires Stuck(s, p, shelf) && Legal(s, Timed(now, IdleTick))
    ensures var s', last := Apply(s, Timed(now, IdleTick)), s.ports[p].lastSend;
      var idle := last != 0 && now - last >= 5_000_000_500;
      && (MaxOutstanding(s.ports, p, shelf) >= 1 && s.userWindow >= 1 ==> (Stuck(s', p, shelf) <==> !idle))
      && |s'.ports| == |s.ports|
      && (idle ==> s'.ports[p].outstanding == 0 && s'.ports[p].cwnd == 1)
  {
    assert PortOk(s.ports[p], p);
    StuckSurvivesIff(s, Timed(now, IdleTick), p, shelf);
  }

  // No packet of port p has been out.
  ghost predicate NoneOut(s: Net, p: nat) {
    forall i :: 0 <= i < |s.sent| && s.sent[i].ifc == p ==> s.sent[i].timeFirst == 0
  }

  // The search that the driver sends on every port from time to time: dropped before it went
  // out, it takes one off the count. With no packet of the port out, that lets a packet for the
  // shelf go if and only if its window was just used up.
  lemma SearchReleasesIff(s: Net, p: nat, shelf: int, tag: nat, now: nat, later: nat, targets: nat)
    requires Stuck(s, p, shelf) && NoneOut(s, p) && now <= later
    requires Legal(s, Timed(now, Send(tag, p, -1, false)))
    ensures var s' := Apply(Apply(s, Timed(now, Send(tag, p, -1, false))), Timed(later, RetransmitTick(targets)));
      (Outstanding(s'.ports, p) < Window(s'.ports, s'.userWindow, p, shelf))
      <==> (Debt(s, p) == Window(s.ports, s.userWindow, p, shelf))
  {
    var queued := Apply(s, Timed(now, Send(tag, p, -1, false)));
    SearchQueued(s, p, shelf, tag, now);
    var s0 := At(queued, later);
    PortsOnly(queued, s0);
    TickWithNoneOut(s0, targets, p, shelf);
  }

  lemma SearchQueued(s: Net, p: nat, shelf: int, tag: nat, now: nat)
    requires Stuck(s, p, shelf) && NoneOut(s, p) && Legal(s, Timed(now, Send(tag, p, -1, false)))
    ensures var s' := Apply(s, Timed(now, Send(tag, p, -1, false)));
      && QueuesOk(s') && NoneOut(s', p) && s'.ports == s.ports && s'.userWindow == s.userWindow && s'.h.clock == now
      && Debt(s', p) == Debt(s, p) - 1
  {
    var t := Timed(now, Send(tag, p, -1, false));
    var s' := Apply(s, t);
    assert PortOk(s.ports[p], p);
    StepKeepsQueues(s, t);
    UnsentConcat(s.sent, [s'.sent[|s.sent|]], p);
    FlyingConcat(s.sent, [s'.sent[|s.sent|]], p);
  }

  // The count is then what is left of the debt, and the window is as it was.
  lemma TickWithNoneOut(s: Net, targets: nat, p: nat, shelf: int)
    requires QueuesOk(s) && p < |s.ports| && s.ports[p].enabled && NoneOut(s, p)
    ensures var s' := RetransmitFrom(s, 0, false, targets);
      && Outstanding(s'.ports, p) == Debt(s, p)
      && Window(s'.ports, s'.userWindow, p, shelf) == Window(s.ports, s.userWindow, p, shelf)
  {
    var s' := RetransmitFrom(s, 0, false, targets);
    RetransmitStuck(s, targets, p, shelf);
    RetransmitCollapsesOnce(s, 0, false, targets);
    RetransmitUserWindow(s, 0, false, targets);
    var first := FirstAgain(s.sent, s.h.clock, 0);
    if first >= 0 {
      assert s.sent[first].ifc != p;
      CollapseIsRestart(s.ports, s.sent[first].ifc, p);
    }
    WindowIs(s, p, shelf);
    WindowIs(s', p, shelf);
    NoneFlies(s, targets, p);
    assert PortOk(s'.ports[p], p);
  }

  lemma NoneFlies(s: Net, targets: nat, p: nat)
    requires NoneOut(s, p)
    ensures Flying(RetransmitFrom(s, 0, false, targets).sent, p) == 0
  {
    RetransmitSweeps(s, 0, false, targets);
    assert s.sent[0..] == s.sent;
    SweptNoneFlies(s.sent, s.h.clock, p);
    assert RetransmitFrom(s, 0, false, targets).sent == Swept(s.sent, s.h.clock);
  }

  lemma {:induction false} SweptNoneFlies(q: seq<Sent>, now: nat, p: nat)
    requires forall i :: 0 <= i < |q| && q[i].ifc == p ==> q[i].timeFirst == 0
    ensures Flying(Swept(q, now), p) == 0
  {
    if q != [] {
      SweptNoneFlies(q[1..], now, p);
      var first := match Judge(q[0], now) case Keep => [q[0]] case Discard => [] case Again => [Resent(q[0])];
      FlyingConcat(first, Swept(q[1..], now), p);
    }
  }

  // ---- Down and up again ----

  // Going down empties the queues of the port but not its count.
  lemma DownKeepsCount(s: Net, p: nat, now: nat)
    requires QueuesOk(s) && p < |s.ports| && s.ports[p].enabled && 0 < now && s.h.clock <= now
    ensures var s' := Apply(s, Timed(now, Disable(p)));
      && QueuesOk(s') && |s'.ports| == |s.ports| && s'.h.clock == now
      && s'.ports[p] == s.ports[p].(enabled := false, ifnet := NO_IFNET)
      && forall i :: 0 <= i < |s'.sent| ==> s'.sent[i].ifc != p
  {
    var s' := Apply(s, Timed(now, Disable(p)));
    StepKeepsQueues(s, Timed(now, Disable(p)));
    forall i | 0 <= i < |s'.sent| ensures s'.sent[i].ifc != p {
      assert EntryOk(s', s'.sent[i]);
    }
  }

  // A port that goes down is stuck for a shelf once it is reconnected, with nothing in flight,
  // if and only if the window for the shelf was full before.
  lemma ReconnectSticksIff(s: Net, p: nat, shelf: int, now: nat, later: nat)
    requires QueuesOk(s) && p < |s.ports| && s.ports[p].enabled
    requires 0 < now && s.h.clock <= now <= later
    ensures var s' := Apply(Apply(s, Timed(now, Disable(p))), Timed(later, Reconnect(p)));
      && QueuesOk(s') && p < |s'.ports| && Flying(s'.sent, p) == 0
      && (Stuck(s', p, shelf) <==> Outstanding(s.ports, p) >= Window(s.ports, s.userWindow, p, shelf))
  {
    var down := Apply(s, Timed(now, Disable(p)));
    DownKeepsCount(s, p, now);
    StepKeepsQueues(down, Timed(later, Reconnect(p)));
    FlyingNone(down.sent, p);
    UnsentNone(down.sent, p);
    assert PortOk(s.ports[p], p);
    WindowIs(s, p, shelf);
    WindowIs(Apply(down, Timed(later, Reconnect(p))), p, shelf);
  }

  lemma GoesDownAndUp(s: Net, p: nat) returns (s': Net)
    requires Reached(s) && p < |s.ports| && s.ports[p].enabled && s.h.clock > 0
    ensures Reached(s') && |s'.ports| == |s.ports| && s'.ports[p] == s.ports[p]
    ensures forall shelf :: Stuck(s', p, shelf) <==> Outstanding(s.ports, p) >= Window(s.ports, s.userWindow, p, shelf)
    ensures forall i :: 0 <= i < |s'.sent| ==> s'.sent[i].ifc != p
  {
    var off, on := Timed(s.h.clock, Disable(p)), Timed(s.h.clock, Reconnect(p));
    ReachedIsOk(s);
    assert PortOk(s.ports[p], p);
    ReachedStep(s, off);
    DownKeepsCount(s, p, s.h.clock);
    ReachedStep(Apply(s, off), on);
    s' := Apply(Apply(s, off), on);
    forall shelf ensures Stuck(s', p, shelf) <==> Outstanding(s.ports, p) >= Window(s.ports, s.userWindow, p, shelf) {
      ReconnectSticksIff(s, p, shelf, s.h.clock, s.h.clock);
    }
  }

  // One packet fills the window of a fresh port: so a stuck port is reachable.
  lemma StuckIsReachable()
    ensures exists s :: Reached(s) && Stuck(s, 0, 7)
  {
    AtStart(1);
    var s1 := ComesUp(InitialNet(), 1, 0);
    var s2 := IsAccepted(s1, 1, 0);
    var s3 := GoesOut(s2, 2, 0, 0, 1);
    var s := GoesDownAndUp(s3, 0);
  }

  // So is one whose congestion window is open, but not that of the shelf: the target lowers
  // its limit to one while a packet is out.
  lemma ShelfIsStuck()
    ensures exists s :: (Reached(s) && Stuck(s, 0, 7) && s.ports[0].outstanding < s.ports[0].cwnd
                         && forall i :: 0 <= i < |s.sent| ==> s.sent[i].ifc != 0)
  {
    var s5 := OneOfTwoOut();
    var limit := Timed(s5.h.clock, SetShelf(0, 7, 1));
    var s6 := Apply(s5, limit);
    ReachedStep(s5, limit);
    var s := GoesDownAndUp(s6, 0);
    assert Window(s6.ports, s6.userWindow, 0, 7) == 1;
    assert s.ports[0] == s6.ports[0];
  }

  lemma OneOfTwoOut() returns (s: Net)
    ensures OnTheWay(s, 3, s.h.clock) && Up(s, 0, 1, 2) && s.h.clock > 0
  {
    AtStart(1);
    var s1 := ComesUp(InitialNet(), 1, 0);
    var s2 := IsAccepted(s1, 1, 0);
    var s3 := OutAndBack(s2, 2, 0, 1);
    var s4 := IsAccepted(s3, 2, 0);
    s := GoesOut(s4, 3, 0, 0, 2);
  }
}
