/** The state of the Ethernet ports and the operations on it (AoE/EInterface.cpp,
    AoE/EInterfaces.cpp), as functions on values, with the congestion-window law.

    An `ifnet_t` is identified with the number n of its port "en<n>"; NO_IFNET is NULL. */
module Interfaces {
  import opened Common

  const NO_IFNET: int := -1

  datatype Iface = Iface(
    enabled: bool,
    ifnet: int,
    outstanding: int,
    ssthresh: int,
    cwnd: int,
    frac: int,
    lastSend: nat,        // m_TimeSinceLastSend: the time of the last output, 0 for never
    shelfMax: seq<int>,   // m_anMaxOutstanding
    minMax: int)          // m_nMinimumMaxOutstanding

  type Ports = seq<Iface>

  function InitialIface(): Iface {
    Iface(false, NO_IFNET, 0, DEFAULT_CONGESTION_WINDOW / 2, 1, 0, 0,
          seq(MAX_SHELFS, _ => 0), DEFAULT_CONGESTION_WINDOW)
  }

  function InitialPorts(): Ports {
    seq(MAX_PORTS, _ => InitialIface())
  }

  // The search every accessor makes: the slot whose m_ifnet is `ifc`.
  predicate Attached(ps: Ports, ifc: int) {
    0 <= ifc < |ps| && ps[ifc].ifnet == ifc
  }

  // is_used(ifc) == 1
  predicate Used(ps: Ports, ifc: int) {
    Attached(ps, ifc) && ps[ifc].enabled
  }

  // What holds of the ports in every reachable state.
  ghost predicate PortOk(f: Iface, k: nat) {
    && (if f.enabled then f.ifnet == k else f.ifnet == NO_IFNET)
    && 0 <= f.frac < f.cwnd
    && 0 <= f.ssthresh && 0 <= f.minMax
    && |f.shelfMax| == MAX_SHELFS
  }

  ghost predicate PortsOk(ps: Ports) {
    && |ps| == MAX_PORTS
    && forall k :: 0 <= k < |ps| ==> PortOk(ps[k], k)
  }

  function Outstanding(ps: Ports, ifc: int): int {
    if Attached(ps, ifc) then ps[ifc].outstanding else -1
  }

  function Cwnd(ps: Ports, ifc: int): int {
    if Attached(ps, ifc) then ps[ifc].cwnd else -1
  }

  function SSThresh(ps: Ports, ifc: int): int {
    if Attached(ps, ifc) then ps[ifc].ssthresh else -1
  }

  // get_max_outstanding: a negative shelf is a broadcast, limited by the least shelf window.
  function MaxOutstanding(ps: Ports, ifc: int, shelf: int): int {
    if !Attached(ps, ifc) then 0
    else if shelf < 0 then ps[ifc].minMax
    else if shelf < |ps[ifc].shelfMax| then ps[ifc].shelfMax[shelf]
    else 0
  }

  // nMaxoutstanding in TransmitTimer.
  function Window(ps: Ports, userWindow: int, ifc: int, shelf: int): int {
    Min(Min(Cwnd(ps, ifc), MaxOutstanding(ps, ifc, shelf)), userWindow)
  }

  // all_full(limit) == 0
  predicate AllFull(ps: Ports, limit: int) {
    forall k :: 0 <= k < |ps| && ps[k].enabled ==> ps[k].outstanding >= limit
  }

  // *pOutstandingCount += d
  function AddOutstanding(ps: Ports, ifc: int, d: int): (r: Ports)
    ensures |r| == |ps|
  {
    if 0 <= ifc < |ps| then ps[ifc := ps[ifc].(outstanding := ps[ifc].outstanding + d)] else ps
  }

  // The decrement on a reply, with the check that resets a negative count.
  function AckOutstanding(ps: Ports, ifc: int, retransmitted: bool): (r: Ports)
    ensures |r| == |ps|
  {
    if 0 <= ifc < |ps| then
      ps[ifc := ps[ifc].(outstanding := Max(ps[ifc].outstanding - (if retransmitted then 0 else 1), 0))]
    else ps
  }

  function SetCwnd(ps: Ports, ifc: int, cwnd: int): (r: Ports)
    ensures |r| == |ps|
  {
    if Attached(ps, ifc) then ps[ifc := ps[ifc].(cwnd := cwnd, frac := 0)] else ps
  }

  function SetSSThresh(ps: Ports, ifc: int, ssthresh: int): (r: Ports)
    ensures |r| == |ps|
  {
    if Attached(ps, ifc) then ps[ifc := ps[ifc].(ssthresh := ssthresh)] else ps
  }

  function Stamp(ps: Ports, ifc: int, now: nat): (r: Ports)
    ensures |r| == |ps|
  {
    if Attached(ps, ifc) then ps[ifc := ps[ifc].(lastSend := now)] else ps
  }

  function Grow(f: Iface, whole: nat, part: nat): Iface
    requires f.cwnd >= 1
  {
    var cwnd := f.cwnd + whole;
    var frac := f.frac + part;
    if frac >= cwnd then f.(cwnd := cwnd + frac / f.cwnd, frac := frac % f.cwnd)
    else f.(cwnd := cwnd, frac := frac)
  }

  // What one reply does to the window of its interface.
  function AckGrowth(f: Iface): Iface
    requires f.cwnd >= 1
  {
    if f.cwnd < f.ssthresh then Grow(f, 1, 0) else Grow(f, 0, 1)
  }

  function AckWindow(ps: Ports, ifc: int): (r: Ports)
    ensures |r| == |ps|
  {
    if Attached(ps, ifc) && ps[ifc].cwnd >= 1 then ps[ifc := AckGrowth(ps[ifc])] else ps
  }

  // The reaction to the first time-out of a retransmit tick.
  function Collapse(ps: Ports, ifc: int): (r: Ports)
    ensures |r| == |ps|
  {
    SetCwnd(SetSSThresh(ps, ifc, Max(Cwnd(ps, ifc) / 2, 1)), ifc, 1)
  }

  function ResetIface(f: Iface): Iface {
    f.(cwnd := 1, frac := 0, ssthresh := f.minMax / 2, outstanding := 0)
  }

  predicate IsIdle(f: Iface, now: nat) {
    f.enabled && f.lastSend != 0 && SinceUs(now, f.lastSend) > IDLE_DELAY_US
  }

  // reset_if_idle
  function ResetIdle(ps: Ports, now: nat): (r: Ports)
    ensures |r| == |ps|
  {
    seq(|ps|, k requires 0 <= k < |ps| => if IsIdle(ps[k], now) then ResetIface(ps[k]) else ps[k])
  }

  // enable_interface, when the port's ifnet is found
  function EnablePort(ps: Ports, n: nat): (r: Ports)
    ensures |r| == |ps|
  {
    if n < |ps| then ps[n := ResetIface(ps[n]).(ifnet := n, enabled := true)] else ps
  }

  function DisconnectPort(ps: Ports, n: nat): (r: Ports)
    ensures |r| == |ps|
  {
    if n < |ps| then ps[n := ps[n].(ifnet := NO_IFNET, enabled := false)] else ps
  }

  function ReconnectPort(ps: Ports, n: nat): (r: Ports)
    ensures |r| == |ps|
  {
    if n < |ps| then ps[n := ps[n].(ifnet := n, enabled := true)] else ps
  }

  function SetShelfMax(f: Iface, shelf: nat, limit: int): Iface {
    if shelf < |f.shelfMax| then
      f.(shelfMax := f.shelfMax[shelf := limit], minMax := Min(f.minMax, limit))
    else f
  }

  function SetShelfWindow(ps: Ports, ifc: int, shelf: nat, limit: int): (r: Ports)
    ensures |r| == |ps|
  {
    if Attached(ps, ifc) then ps[ifc := SetShelfMax(ps[ifc], shelf, limit)] else ps
  }

  // ---- The congestion-window law ----

  // Each congestion-avoidance reply raises this by one.
  function Potential(cwnd: int, frac: int): int {
    cwnd * (cwnd - 1) / 2 + frac
  }

  lemma PotentialNext(c: int)
    requires c >= 1
    ensures (c + 1) * c / 2 == c * (c - 1) / 2 + c
  {
    assert (c + 1) * c == c * (c - 1) + 2 * c;
  }

  lemma AckLaw(f: Iface)
    requires 0 <= f.frac < f.cwnd
    ensures var g := AckGrowth(f);
      && 0 <= g.frac < g.cwnd
      && (f.cwnd < f.ssthresh ==> g == f.(cwnd := f.cwnd + 1))
      && (f.cwnd >= f.ssthresh ==> Potential(g.cwnd, g.frac) == Potential(f.cwnd, f.frac) + 1)
      && f.cwnd <= g.cwnd <= f.cwnd + 1
      && g == f.(cwnd := g.cwnd, frac := g.frac)
  {
    PotentialNext(f.cwnd);
    if f.cwnd >= f.ssthresh && f.frac + 1 == f.cwnd {
      assert (f.frac + 1) / f.cwnd == 1 && (f.frac + 1) % f.cwnd == 0;
    }
  }

  lemma {:induction false} PotentialGap(a: int, b: int)
    requires 1 <= a < b
    ensures Potential(a, 0) + a <= Potential(b, 0)
    decreases b
  {
    PotentialNext(b - 1);
    if a < b - 1 { PotentialGap(a, b - 1); }
  }

  // The potential determines the window and its fraction.
  lemma PotentialInjective(c: int, f: int, c': int, f': int)
    requires 0 <= f < c && 0 <= f' < c'
    requires Potential(c, f) == Potential(c', f')
    ensures c == c' && f == f'
  {
    if c < c' { PotentialGap(c, c'); }
    if c' < c { PotentialGap(c', c); }
  }

  function Acks(f: Iface, k: nat): Iface
    decreases k
  {
    if k == 0 || f.cwnd < 1 then f else Acks(AckGrowth(f), k - 1)
  }

  // k replies in congestion avoidance advance the potential by exactly k, so (with
  // PotentialInjective) the pair they lead to depends on k and the start only.
  lemma {:induction false} AvoidanceLaw(f: Iface, k: nat)
    requires 0 <= f.frac < f.cwnd && f.cwnd >= f.ssthresh
    ensures var g := Acks(f, k);
      && 0 <= g.frac < g.cwnd && f.cwnd <= g.cwnd
      && Potential(g.cwnd, g.frac) == Potential(f.cwnd, f.frac) + k
      && forall c, p :: 0 <= p < c && Potential(c, p) == Potential(f.cwnd, f.frac) + k ==>
           c == g.cwnd && p == g.frac
    decreases k
  {
    if k > 0 {
      AckLaw(f);
      AvoidanceLaw(AckGrowth(f), k - 1);
    } else {
      forall c, p | 0 <= p < c && Potential(c, p) == Potential(f.cwnd, f.frac)
        ensures c == f.cwnd && p == f.frac
      {
        PotentialInjective(c, p, f.cwnd, f.frac);
      }
    }
  }

  // Slow start: the window grows by one a reply until it reaches ssthresh.
  lemma {:induction false} SlowStartLaw(f: Iface, k: nat)
    requires 0 <= f.frac < f.cwnd && f.cwnd + k <= f.ssthresh
    ensures Acks(f, k) == f.(cwnd := f.cwnd + k)
    decreases k
  {
    if k > 0 {
      SlowStartLaw(AckGrowth(f), k - 1);
    }
  }

  // ---- What each operation keeps ----

  lemma PortsOkInitial()
    ensures PortsOk(InitialPorts())
  {
  }

  lemma PortsOkOutstanding(ps: Ports, ifc: int, d: int, retransmitted: bool)
    requires PortsOk(ps)
    ensures PortsOk(AddOutstanding(ps, ifc, d)) && PortsOk(AckOutstanding(ps, ifc, retransmitted))
  {
  }

  lemma PortsOkWindow(ps: Ports, ifc: int, now: nat)
    requires PortsOk(ps)
    ensures PortsOk(AckWindow(ps, ifc)) && PortsOk(Collapse(ps, ifc)) && PortsOk(Stamp(ps, ifc, now))
  {
    if Attached(ps, ifc) { AckLaw(ps[ifc]); }
  }
}
