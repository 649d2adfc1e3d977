/** Frames fit the ports: the MTU that the driver keeps (AoE/EInterfaces.cpp, recalculate_mtu),
    the sectors it allows in a frame, and the ports that are up in a run. */
module FrameSize {
  import opened Common
  import opened Interfaces
  import opened Transport
  import opened Queues
  import opened Ledger
  import opened Dispatch
  import opened EthernetPorts
  import opened Wire
  import opened Blocks

  // m_Min_MTU after an event that led to the ports `ps`: it is recalculated when a port comes
  // up, but not when one goes down. The MTU of a port does not change.
  function MtuAfter(m: nat, e: Event, ps: Ports, mtus: seq<nat>): nat {
    if |ps| == |mtus| && LinkUp(e, |ps|) then LeastMtu(ps, mtus, |ps|) else m
  }

  predicate LinkUp(e: Event, ports: nat) {
    (e.Enable? || e.Reconnect?) && e.port < ports
  }

  // No port that is up has a smaller MTU than the one kept.
  ghost predicate MtuOk(m: nat, ps: Ports, mtus: seq<nat>) {
    && |ps| == |mtus| && (m == 0 || m >= BYTES_IN_AOE_HEADER)
    && forall k :: 0 <= k < |ps| && ps[k].enabled ==> 0 < m <= mtus[k]
  }

  ghost predicate Mtus(mtus: seq<nat>) {
    |mtus| == MAX_PORTS && forall k :: 0 <= k < |mtus| ==> mtus[k] >= BYTES_IN_AOE_HEADER
  }

  lemma StepKeepsMtu(s: Net, t: Timed, m: nat, mtus: seq<nat>)
    requires QueuesOk(s) && Legal(s, t) && Mtus(mtus) && MtuOk(m, s.ports, mtus)
    ensures |Apply(s, t).ports| == MAX_PORTS
    ensures MtuOk(MtuAfter(m, t.event, Apply(s, t).ports, mtus), Apply(s, t).ports, mtus)
  {
    StepKeepsQueues(s, t);
    var s0 := At(s, t.now);
    var ps := Apply(s, t).ports;
    PortsOnly(s, s0);
    LeastMtuIsMinimum(ps, mtus, |ps|);
    forall k | 0 <= k < |ps| && ps[k].enabled
      ensures 0 < MtuAfter(m, t.event, ps, mtus) <= mtus[k]
    {
      LinksStay(s0, t.event, k);
    }
  }

  // m_Min_MTU at the end of a run.
  function MtuRun(s: Net, ts: seq<Timed>, m: nat, mtus: seq<nat>): nat
    decreases |ts|
  {
    if ts == [] then m
    else
      var s' := Apply(s, ts[0]);
      MtuRun(s', ts[1..], MtuAfter(m, ts[0].event, s'.ports, mtus), mtus)
  }

  lemma {:induction false} RunKeepsMtu(s: Net, ts: seq<Timed>, m: nat, mtus: seq<nat>)
    requires QueuesOk(s) && LegalRun(s, ts) && Mtus(mtus) && MtuOk(m, s.ports, mtus)
    ensures MtuOk(MtuRun(s, ts, m, mtus), Run(s, ts).ports, mtus)
    decreases |ts|
  {
    if ts != [] {
      var s' := Apply(s, ts[0]);
      StepKeepsMtu(s, ts[0], m, mtus);
      StepKeepsQueues(s, ts[0]);
      RunKeepsMtu(s', ts[1..], MtuAfter(m, ts[0].event, s'.ports, mtus), mtus);
    }
  }

  lemma PortFits(m: nat, ps: Ports, mtus: seq<nat>, b: Block, i: nat)
    requires Mtus(mtus) && MtuOk(m, ps, mtus)
    requires BlockOk(b) && i < Requests(b.n, b.s) && b.s <= CountSectorsFromMtu(m)
    ensures forall k :: 0 <= k < |ps| && ps[k].enabled ==> BYTES_IN_AOE_HEADER + SECTOR * SectorsIn(b.n, b.s, i) <= mtus[k]
  {
    Tiling(b.n, b.s, i);
    FrameFits(m);
  }

  // In every reachable state each frame of a block, cut by the MTU kept, fits every port
  // that is up.
  lemma EveryFrameFits(ts: seq<Timed>, mtus: seq<nat>, b: Block, i: nat)
    requires LegalRun(InitialNet(), ts) && Mtus(mtus)
    requires BlockOk(b) && i < Requests(b.n, b.s)
    requires b.s <= CountSectorsFromMtu(MtuRun(InitialNet(), ts, 0, mtus))
    ensures var ps := Run(InitialNet(), ts).ports;
      |ps| == MAX_PORTS &&
      forall k :: 0 <= k < MAX_PORTS && ps[k].enabled ==>
        BYTES_IN_AOE_HEADER + SECTOR * SectorsIn(b.n, b.s, i) <= mtus[k]
  {
    PortsOkInitial();
    RunKeepsMtu(InitialNet(), ts, 0, mtus);
    PortFits(MtuRun(InitialNet(), ts, 0, mtus), Run(InitialNet(), ts).ports, mtus, b, i);
  }

  // ---- The room when a reply comes in ----

  // A response handed to the controllers, and the MTU kept at the time.
  datatype Heard = Heard(response: Response, mtu: nat)

  function HeardNow(s: Net, t: Timed, m: nat): seq<Heard> {
    match t.event
    case Incoming(tag, response, error, command) =>
      if IsHandedOver(At(s, t.now), tag, response, error, command) then [Heard(Response(tag, command), m)] else []
    case _ => []
  }

  function HeardRun(s: Net, ts: seq<Timed>, m: nat, mtus: seq<nat>): seq<Heard>
    decreases |ts|
  {
    if ts == [] then []
    else
      var s' := Apply(s, ts[0]);
      HeardNow(s, ts[0], m) + HeardRun(s', ts[1..], MtuAfter(m, ts[0].event, s'.ports, mtus), mtus)
  }

  function Responses(hs: seq<Heard>): (rs: seq<Response>)
    ensures |rs| == |hs|
  {
    seq(|hs|, i requires 0 <= i < |hs| => hs[i].response)
  }

  lemma ResponsesAppend(a: seq<Heard>, b: seq<Heard>)
    ensures Responses(a + b) == Responses(a) + Responses(b)
  {
  }

  lemma StepHears(s: Net, t: Timed, m: nat)
    ensures Apply(s, t).h.dispatched == s.h.dispatched + Responses(HeardNow(s, t, m))
  {
    var s0 := At(s, t.now);
    match t.event
    case TransmitTick =>
      FlushDispatch(s0, 0);
    case RetransmitTick(targets) => RetransmitDispatch(s0, 0, false, targets);
    case _ =>
  }

  // What is heard in a run is what the transport hands over.
  lemma {:induction false} RunHears(s: Net, ts: seq<Timed>, m: nat, mtus: seq<nat>)
    ensures Run(s, ts).h.dispatched == s.h.dispatched + Responses(HeardRun(s, ts, m, mtus))
    decreases |ts|
  {
    if ts != [] {
      var s' := Apply(s, ts[0]);
      var m' := MtuAfter(m, ts[0].event, s'.ports, mtus);
      StepHears(s, ts[0], m);
      RunHears(s', ts[1..], m', mtus);
      HeardThenMore(s.h.dispatched, HeardNow(s, ts[0], m), HeardRun(s', ts[1..], m', mtus));
    }
  }

  lemma HeardThenMore(was: seq<Response>, a: seq<Heard>, b: seq<Heard>)
    ensures was + Responses(a) + Responses(b) == was + Responses(a + b)
  {
    ResponsesAppend(a, b);
  }

  // A run in two parts.
  lemma {:induction false} RunInTwo(s: Net, a: seq<Timed>, b: seq<Timed>)
    ensures Run(s, a + b) == Run(Run(s, a), b)
    ensures LegalRun(s, a + b) <==> LegalRun(s, a) && LegalRun(Run(s, a), b)
    decreases |a|
  {
    if a == [] {
      assert a + b == b;
    } else {
      assert (a + b)[0] == a[0] && (a + b)[1..] == a[1..] + b;
      RunInTwo(Apply(s, a[0]), a[1..], b);
    }
  }

  lemma {:induction false} HeardInTwo(s: Net, a: seq<Timed>, b: seq<Timed>, m: nat, mtus: seq<nat>)
    ensures HeardRun(s, a + b, m, mtus)
         == HeardRun(s, a, m, mtus) + HeardRun(Run(s, a), b, MtuRun(s, a, m, mtus), mtus)
    decreases |a|
  {
    if a == [] {
      assert a + b == b;
      assert [] + HeardRun(s, b, m, mtus) == HeardRun(s, b, m, mtus);
    } else {
      var s' := Apply(s, a[0]);
      var m' := MtuAfter(m, a[0].event, s'.ports, mtus);
      assert (a + b)[0] == a[0] && (a + b)[1..] == a[1..] + b;
      HeardInTwo(s', a[1..], b, m', mtus);
      Regroup(HeardNow(s, a[0], m), HeardRun(s', a[1..], m', mtus),
              HeardRun(Run(s', a[1..]), b, MtuRun(s', a[1..], m', mtus), mtus));
    }
  }

  lemma Regroup(x: seq<Heard>, y: seq<Heard>, z: seq<Heard>)
    ensures x + (y + z) == x + y + z
  {
  }

  lemma {:induction false} MtuInTwo(s: Net, a: seq<Timed>, b: seq<Timed>, m: nat, mtus: seq<nat>)
    ensures MtuRun(s, a + b, m, mtus) == MtuRun(Run(s, a), b, MtuRun(s, a, m, mtus), mtus)
    decreases |a|
  {
    if a == [] {
      assert a + b == b;
    } else {
      var s' := Apply(s, a[0]);
      assert (a + b)[0] == a[0] && (a + b)[1..] == a[1..] + b;
      MtuInTwo(s', a[1..], b, MtuAfter(m, a[0].event, s'.ports, mtus), mtus);
    }
  }

  // What is heard after a run with no small port coming up.
  lemma HeardAfter(before: seq<Timed>, after: seq<Timed>, mtus: seq<nat>, size: nat)
    requires LegalRun(InitialNet(), before + after) && Mtus(mtus)
    requires MtuRun(InitialNet(), before, 0, mtus) >= size > 0
    requires forall i :: 0 <= i < |after| ==> !SmallPort(after[i].event, mtus, size)
    ensures var first := |HeardRun(InitialNet(), before, 0, mtus)|;
      var heard := HeardRun(InitialNet(), before + after, 0, mtus);
      first <= |heard| && AllAtLeast(heard[first..], size)
  {
    var s, m := Run(InitialNet(), before), MtuRun(InitialNet(), before, 0, mtus);
    RunInTwo(InitialNet(), before, after);
    HeardInTwo(InitialNet(), before, after, 0, mtus);
    PortsOkInitial();
    RunKeepsQueues(InitialNet(), before);
    RunKeepsMtu(InitialNet(), before, 0, mtus);
    RoomLasts(s, after, m, mtus, size);
    Suffix(HeardRun(InitialNet(), before, 0, mtus), HeardRun(s, after, m, mtus));
  }

  lemma Suffix(a: seq<Heard>, b: seq<Heard>)
    ensures (a + b)[|a|..] == b
  {
  }

  ghost predicate AllAtLeast(hs: seq<Heard>, size: nat) {
    forall k :: 0 <= k < |hs| ==> hs[k].mtu >= size
  }

  // A port with an MTU below `size` comes up.
  predicate SmallPort(e: Event, mtus: seq<nat>, size: nat) {
    LinkUp(e, |mtus|) && mtus[e.port] < size
  }

  // The MTU kept stays large enough through an event if and only if that does not happen.
  lemma MtuKeptIff(s: Net, t: Timed, m: nat, mtus: seq<nat>, size: nat)
    requires QueuesOk(s) && Legal(s, t) && Mtus(mtus) && MtuOk(m, s.ports, mtus) && m >= size > 0
    ensures MtuAfter(m, t.event, Apply(s, t).ports, mtus) >= size <==> !SmallPort(t.event, mtus, size)
  {
    StepKeepsQueues(s, t);
    var s0 := At(s, t.now);
    var ps := Apply(s, t).ports;
    PortsOnly(s, s0);
    LeastMtuIsMinimum(ps, mtus, |ps|);
    if LinkUp(t.event, |ps|) {
      var n := t.event.port;
      assert ps[n].enabled;
      var least := LeastMtu(ps, mtus, |ps|);
      var k :| 0 <= k < |ps| && ps[k].enabled && mtus[k] == least;
      LinksStay(s0, t.event, k);
    }
  }

  // While no such port comes up, every reply finds the room.
  lemma {:induction false} RoomLasts(s: Net, ts: seq<Timed>, m: nat, mtus: seq<nat>, size: nat)
    requires QueuesOk(s) && LegalRun(s, ts) && Mtus(mtus) && MtuOk(m, s.ports, mtus) && m >= size > 0
    requires forall i :: 0 <= i < |ts| ==> !SmallPort(ts[i].event, mtus, size)
    ensures AllAtLeast(HeardRun(s, ts, m, mtus), size)
    decreases |ts|
  {
    if ts != [] {
      var s' := Apply(s, ts[0]);
      StepKeepsMtu(s, ts[0], m, mtus);
      StepKeepsQueues(s, ts[0]);
      MtuKeptIff(s, ts[0], m, mtus, size);
      RoomLasts(s', ts[1..], MtuAfter(m, ts[0].event, s'.ports, mtus), mtus, size);
    }
  }
}
