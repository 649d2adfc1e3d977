/** The transport of AoE/AoEService.cpp as a state machine: two packet queues, the ports, the
    retransmit-time estimator and two counters. Each event of the work loop is one step. */
module Transport {
  import opened Common
  import opened Interfaces
  import opened RtoEstimator

  // An entry of m_sent_queue. Times are nanoseconds of uptime, 0 for "not yet".
  datatype Sent = Sent(
    tag: nat, ifc: int, shelf: int,
    timeSent: nat, timeFirst: nat,
    rtoUs: nat,             // RetransmitTime_us, 0 for a packet that is never resent
    retrans: bool)          // fPacketHasBeenRetransmit

  // An entry of m_to_send_queue.
  datatype ToSend = ToSend(tag: nat, ifc: int, shelf: int, immediate: bool)

  // A packet accepted for sending, with its first time-out; a frame put on a wire, with the
  // time.
  datatype Packet = Packet(tag: nat, ifc: int, shelf: int, rtoUs: nat)
  datatype Frame = Frame(tag: nat, ifc: int, shelf: int, first: bool, at: nat)

  // A response handed to the controllers.
  datatype Response = Response(tag: nat, command: AoeCommand)

  // How a packet left the sent queue: answered, dropped for its age, dropped as one that is
  // never resent, or purged with its port; and when.
  datatype Fate = Answered | TooOld | NeverResent | PortDown
  datatype Gone = Gone(tag: nat, fate: Fate, at: nat)

  // What the environment has seen, oldest first, and the time of the last step.
  datatype History = History(
    accepted: seq<Packet>,
    wire: seq<Frame>,
    resent: seq<nat>,       // tags, one for each call of resend_packet
    gone: seq<Gone>,
    dispatched: seq<Response>,
    clock: nat)

  datatype Net = Net(
    ports: Ports, userWindow: int,
    sent: seq<Sent>, toSend: seq<ToSend>,
    rto: Rto, unexpected: nat, retransmits: nat,
    h: History)

  function InitialNet(): Net {
    Net(InitialPorts(), DEFAULT_CONGESTION_WINDOW, [], [], InitialRto(), 0, 0, History([], [], [], [], [], 0))
  }

  // The command of a packet, with the shelf and slot it came from.
  datatype AoeCommand = AtaCommand(shelf: nat, slot: nat) | CfgCommand(shelf: nat, slot: nat) | VendorCommand

  datatype Event =
    | Send(tag: nat, ifc: int, shelf: int, retransmit: bool)
    | TransmitTick
    | RetransmitTick(targets: nat)
    | Incoming(tag: nat, response: bool, error: bool, command: AoeCommand)
    | IdleTick
    | Enable(port: nat)
    | Disable(port: nat)
    | Reconnect(port: nat)
    | SetUserWindow(window: int)
    | SetShelf(ifc: int, onShelf: nat, limit: nat)

  // ---- Queue search and purge ----

  function FindSent(q: seq<Sent>, tag: nat): (r: int)
    ensures -1 <= r < |q|
    ensures r >= 0 ==> q[r].tag == tag && forall k :: 0 <= k < r ==> q[k].tag != tag
    ensures r < 0 ==> forall k :: 0 <= k < |q| ==> q[k].tag != tag
  {
    if q == [] then -1
    else if q[0].tag == tag then 0
    else
      var r := FindSent(q[1..], tag);
      assert forall k :: 1 <= k < |q| ==> q[k] == q[1..][k - 1];
      if r < 0 then -1 else r + 1
  }

  function PurgeSent(ps: Ports, q: seq<Sent>): (r: seq<Sent>)
    ensures forall e :: e in r <==> e in q && Used(ps, e.ifc)
  {
    if q == [] then [] else (if Used(ps, q[0].ifc) then [q[0]] else []) + PurgeSent(ps, q[1..])
  }

  function PurgedSent(ps: Ports, q: seq<Sent>, now: nat): seq<Gone> {
    if q == [] then []
    else (if Used(ps, q[0].ifc) then [] else [Gone(q[0].tag, PortDown, now)]) + PurgedSent(ps, q[1..], now)
  }

  function PurgeToSend(ps: Ports, q: seq<ToSend>): (r: seq<ToSend>)
    ensures forall t :: t in r <==> t in q && Used(ps, t.ifc)
  {
    if q == [] then [] else (if Used(ps, q[0].ifc) then [q[0]] else []) + PurgeToSend(ps, q[1..])
  }

  // ---- send_packet_on_interface ----

  function SendPacket(s: Net, tag: nat, ifc: int, shelf: int, retransmit: bool): Net {
    if !Used(s.ports, ifc) then
      s.(toSend := PurgeToSend(s.ports, s.toSend))
    else
      var rtoUs := if retransmit then GetRtoUs(s.rto) else 0;
      s.(sent := s.sent + [Sent(tag, ifc, shelf, 0, 0, rtoUs, false)],
         toSend := s.toSend + [ToSend(tag, ifc, shelf, false)],
         h := s.h.(accepted := s.h.accepted + [Packet(tag, ifc, shelf, rtoUs)]))
  }

  // ---- TransmitTimer ----

  function Output(e: Sent, now: nat): Sent {
    e.(timeFirst := if e.timeFirst == 0 then now else e.timeFirst, timeSent := now)
  }

  // send_packet_from_queue for the entry at position j.
  function SendFromQueue(s: Net, j: nat): (r: Net)
    requires j < |s.toSend|
    ensures r.toSend == RemoveAt(s.toSend, j)
    ensures |r.ports| == |s.ports| && r.userWindow == s.userWindow
  {
    var t := s.toSend[j];
    var k := FindSent(s.sent, t.tag);
    var rest := RemoveAt(s.toSend, j);
    if k < 0 then s.(toSend := rest)
    else
      var counted := AddOutstanding(s.ports, t.ifc, if t.immediate then 0 else 1);
      s.(sent := s.sent[k := Output(s.sent[k], s.h.clock)],
         toSend := rest,
         ports := Stamp(counted, t.ifc, s.h.clock),
         h := s.h.(wire := s.h.wire + [Frame(t.tag, t.ifc, t.shelf, s.sent[k].timeFirst == 0, s.h.clock)]))
  }

  // The first pass: every entry marked for immediate sending goes out, in queue order.
  function FlushImmediate(s: Net, j: nat): (r: Net)
    requires j <= |s.toSend|
    ensures |r.ports| == |s.ports| && r.userWindow == s.userWindow
    decreases |s.toSend| - j
  {
    if j == |s.toSend| then s
    else if s.toSend[j].immediate then FlushImmediate(SendFromQueue(s, j), j)
    else FlushImmediate(s, j + 1)
  }

  // Flow control lets the entry out.
  predicate WindowOpen(s: Net, t: ToSend) {
    Outstanding(s.ports, t.ifc) < Window(s.ports, s.userWindow, t.ifc, t.shelf)
  }

  // The second pass: the position, from j on, of the entry the tick sends, or -1.
  function Choose(s: Net, j: nat): (r: int)
    requires j <= |s.toSend|
    ensures -1 <= r < |s.toSend|
    ensures r >= 0 ==> j <= r && WindowOpen(s, s.toSend[r])
    ensures r >= 0 ==> forall k :: j <= k < r ==> !WindowOpen(s, s.toSend[k])
    decreases |s.toSend| - j
  {
    if j == |s.toSend| then -1
    else
      var t := s.toSend[j];
      if WindowOpen(s, t) then j
      else if AllFull(s.ports, Window(s.ports, s.userWindow, t.ifc, t.shelf)) then -1
      else Choose(s, j + 1)
  }

  function Transmit(s: Net): Net {
    var flushed := FlushImmediate(s, 0);
    var j := Choose(flushed, 0);
    if j < 0 then flushed else SendFromQueue(flushed, j)
  }

  // ---- RetransmitTimer ----

  function DropOf(e: Sent, now: nat): Gone {
    Gone(e.tag, if e.rtoUs == 0 then NeverResent else TooOld, now)
  }

  function Drop(s: Net, i: nat): (r: Net)
    requires i < |s.sent|
    ensures r.sent == RemoveAt(s.sent, i)
  {
    var e := s.sent[i];
    s.(sent := RemoveAt(s.sent, i),
       ports := AddOutstanding(s.ports, e.ifc, if e.retrans then 0 else -1),
       h := s.h.(gone := s.h.gone + [DropOf(e, s.h.clock)]))
  }

  function Backoff(rtoUs: nat): nat {
    Min(2 * rtoUs, MAX_RETRANSMIT_TIMEOUT_US)
  }

  function Resent(e: Sent): Sent {
    e.(rtoUs := Backoff(e.rtoUs), timeSent := 0, retrans := true)
  }

  // The decrement, then resend_packet; `targets` is number_of_targets().
  function Resend(s: Net, i: nat, targets: nat): (r: Net)
    requires i < |s.sent|
    ensures |r.sent| == |s.sent|
  {
    var e := s.sent[i];
    s.(sent := s.sent[i := Resent(e)],
       toSend := s.toSend + [ToSend(e.tag, e.ifc, e.shelf, true)],
       ports := AddOutstanding(s.ports, e.ifc, if e.retrans then 0 else -1),
       retransmits := s.retransmits + (if targets > 0 then 1 else 0),
       h := s.h.(resent := s.h.resent + [e.tag]))
  }

  function CollapseWindow(s: Net, ifc: int): Net {
    s.(ports := Collapse(s.ports, ifc))
  }

  datatype Verdict = Keep | Discard | Again

  // What the retransmit tick does with one entry.
  function Judge(e: Sent, now: nat): Verdict {
    if e.rtoUs == 0 then Discard
    else if e.timeFirst == 0 || e.timeSent == 0 then Keep
    else if SinceUs(now, e.timeFirst) > MAX_TIMEOUT_BEFORE_DROP_US then Discard
    else if SinceUs(now, e.timeSent) > e.rtoUs then Again
    else Keep
  }

  // The tick from position i on; `adjusted` is fHaveAdjustedCWND.
  function RetransmitFrom(s: Net, i: nat, adjusted: bool, targets: nat): Net
    requires i <= |s.sent|
    decreases |s.sent| - i
  {
    if i == |s.sent| then s
    else match Judge(s.sent[i], s.h.clock)
      case Keep => RetransmitFrom(s, i + 1, adjusted, targets)
      case Discard => RetransmitFrom(Drop(s, i), i, adjusted, targets)
      case Again =>
        var s' := if adjusted then s else CollapseWindow(s, s.sent[i].ifc);
        RetransmitFrom(Resend(s', i, targets), i + 1, true, targets)
  }

  // ---- cg_aoe_incoming ----

  // Removing the entry a response answers: count, round-trip sample, window growth.
  function Acknowledge(s: Net, k: nat): (r: Net)
    requires k < |s.sent|
    ensures r.sent == RemoveAt(s.sent, k) && r.toSend == s.toSend
    ensures r.h == s.h.(gone := s.h.gone + [Gone(s.sent[k].tag, Answered, s.h.clock)])
  {
    var e := s.sent[k];
    s.(sent := RemoveAt(s.sent, k),
       rto := if e.retrans then s.rto
              else UpdateRto(s.rto, if e.timeSent <= s.h.clock then s.h.clock - e.timeSent else 0),
       ports := AckWindow(AckOutstanding(s.ports, e.ifc, e.retrans), e.ifc),
       h := s.h.(gone := s.h.gone + [Gone(e.tag, Answered, s.h.clock)]))
  }

  function Unexpected(s: Net): Net {
    s.(unexpected := s.unexpected + 1)
  }

  // Whether the controllers get to see a packet.
  predicate IsHandedOver(s: Net, tag: nat, response: bool, error: bool, command: AoeCommand) {
    && response && !error && !command.VendorCommand?
    && (FindSent(s.sent, tag) >= 0 || tag == DEVICE_ONLINE_TAG || IsBroadcast(tag))
  }

  function Receive(s: Net, tag: nat, response: bool, error: bool, command: AoeCommand): (r: Net)
    ensures var k := FindSent(s.sent, tag);
      var s' := if response && k >= 0 then Acknowledge(s, k) else s;
      r == s'.(unexpected := r.unexpected, h := s'.h.(dispatched := r.h.dispatched))
    ensures r.h.dispatched == s.h.dispatched + (if IsHandedOver(s, tag, response, error, command)
                                                then [Response(tag, command)] else [])
  {
    if !response then s
    else
      var k := FindSent(s.sent, tag);
      var s' := if k < 0 then s else Acknowledge(s, k);
      if !IsHandedOver(s, tag, response, error, command) then Unexpected(s')
      else s'.(h := s'.h.(dispatched := s'.h.dispatched + [Response(tag, command)]))
  }

  // ---- Link changes ----

  function DisableLink(s: Net, port: nat): Net {
    var ps := DisconnectPort(s.ports, port);
    s.(ports := ps, toSend := PurgeToSend(ps, s.toSend), sent := PurgeSent(ps, s.sent),
       h := s.h.(gone := s.h.gone + PurgedSent(ps, s.sent, s.h.clock)))
  }

  // ---- Steps and runs ----

  function Step(s: Net, e: Event): Net {
    match e
    case Send(tag, ifc, shelf, retransmit) => SendPacket(s, tag, ifc, shelf, retransmit)
    case TransmitTick => Transmit(s)
    case RetransmitTick(targets) => RetransmitFrom(s, 0, false, targets)
    case Incoming(tag, response, error, command) => Receive(s, tag, response, error, command)
    case IdleTick => s.(ports := ResetIdle(s.ports, s.h.clock))
    case Enable(port) => s.(ports := EnablePort(s.ports, port))
    case Disable(port) => DisableLink(s, port)
    case Reconnect(port) => s.(ports := ReconnectPort(s.ports, port))
    case SetUserWindow(window) => s.(userWindow := window)
    case SetShelf(ifc, shelf, limit) => s.(ports := SetShelfWindow(s.ports, ifc, shelf, limit))
  }

  function At(s: Net, now: nat): Net {
    s.(h := s.h.(clock := now))
  }

  datatype Timed = Timed(now: nat, event: Event)

  function Apply(s: Net, t: Timed): Net {
    Step(At(s, t.now), t.event)
  }

  function Tags(ps: seq<Packet>): set<nat> {
    set p | p in ps :: p.tag
  }

  // What the code relies on: the clock does not run backwards, and a packet is given a tag
  // that no earlier packet had.
  ghost predicate Legal(s: Net, t: Timed) {
    && 0 < t.now && s.h.clock <= t.now
    && (t.event.Send? ==> t.event.tag !in Tags(s.h.accepted))
  }

  function Run(s: Net, ts: seq<Timed>): Net
    decreases |ts|
  {
    if ts == [] then s else Run(Apply(s, ts[0]), ts[1..])
  }

  ghost predicate LegalRun(s: Net, ts: seq<Timed>)
    decreases |ts|
  {
    ts == [] || (Legal(s, ts[0]) && LegalRun(Apply(s, ts[0]), ts[1..]))
  }
}
