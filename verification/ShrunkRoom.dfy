/** A run in which a port with a small MTU comes up while a read waits for its reply: the
    driver cuts the reply off (AoE/AoEService.cpp, cg_enable_interface; AoE/AoEController.cpp,
    set_mtu_size and completeDataRead). */
module ShrunkRoom {
  import opened Common
  import opened Wire
  import opened Interfaces
  import opened EthernetPorts
  import opened Transport
  import opened TagGenerator
  import opened FrameSize
  import opened Scenarios
  import opened Blocks
  import opened Replies
  import opened WriteReport
  import opened EndToEnd

  // Where a run that goes on from `before` may have come to.
  ghost predicate Tracked(before: seq<Timed>, mtus: seq<nat>, s: Net, m: nat, heard: seq<Heard>) {
    exists after :: Track(before, after, mtus, s, m, heard)
  }

  ghost predicate Track(before: seq<Timed>, after: seq<Timed>, mtus: seq<nat>, s: Net, m: nat, heard: seq<Heard>) {
    var ts := before + after;
    && LegalRun(InitialNet(), ts) && s == Run(InitialNet(), ts)
    && m == MtuRun(InitialNet(), ts, 0, mtus) && heard == HeardRun(InitialNet(), ts, 0, mtus)
  }

  lemma OneMore(s: Net, t: Timed, m: nat, mtus: seq<nat>)
    ensures Run(s, [t]) == Apply(s, t) && (LegalRun(s, [t]) <==> Legal(s, t))
    ensures MtuRun(s, [t], m, mtus) == MtuAfter(m, t.event, Apply(s, t).ports, mtus)
    ensures HeardRun(s, [t], m, mtus) == HeardNow(s, t, m)
  {
    var s' := Apply(s, t);
    assert [t][1..] == [];
    assert Run(s', []) == s' && LegalRun(s', []);
    var m' := MtuAfter(m, t.event, s'.ports, mtus);
    assert MtuRun(s', [], m', mtus) == m' && HeardRun(s', [], m', mtus) == [];
  }

  lemma TrackedStep(before: seq<Timed>, mtus: seq<nat>, s: Net, m: nat, heard: seq<Heard>, t: Timed)
    requires Tracked(before, mtus, s, m, heard) && Legal(s, t)
    ensures Tracked(before, mtus, Apply(s, t), MtuAfter(m, t.event, Apply(s, t).ports, mtus), heard + HeardNow(s, t, m))
  {
    var after :| Track(before, after, mtus, s, m, heard);
    TrackStep(before, after, mtus, s, m, heard, t);
  }

  lemma TrackStep(before: seq<Timed>, after: seq<Timed>, mtus: seq<nat>, s: Net, m: nat, heard: seq<Heard>, t: Timed)
    requires Track(before, after, mtus, s, m, heard) && Legal(s, t)
    ensures Track(before, after + [t], mtus, Apply(s, t), MtuAfter(m, t.event, Apply(s, t).ports, mtus),
                  heard + HeardNow(s, t, m))
  {
    var ts := before + after;
    RunInTwo(InitialNet(), ts, [t]);
    MtuInTwo(InitialNet(), ts, [t], 0, mtus);
    HeardInTwo(InitialNet(), ts, [t], 0, mtus);
    OneMore(s, t, m, mtus);
    assert ts + [t] == before + (after + [t]);
  }

  lemma TrackedStart(ts: seq<Timed>, mtus: seq<nat>)
    requires LegalRun(InitialNet(), ts)
    ensures Tracked(ts, mtus, Run(InitialNet(), ts), MtuRun(InitialNet(), ts, 0, mtus), HeardRun(InitialNet(), ts, 0, mtus))
  {
    assert ts + [] == ts;
    assert Track(ts, [], mtus, Run(InitialNet(), ts), MtuRun(InitialNet(), ts, 0, mtus), HeardRun(InitialNet(), ts, 0, mtus));
  }

  // The MTU kept when exactly the ports 0..n-1 are up and the last of them has the least.
  lemma LastIsLeast(ps: Ports, mtus: seq<nat>, n: nat)
    requires |ps| == |mtus| == MAX_PORTS && 0 < n <= MAX_PORTS && Mtus(mtus)
    requires forall k :: 0 <= k < |ps| ==> (ps[k].enabled <==> k < n)
    requires forall k :: 0 <= k < n ==> mtus[n - 1] <= mtus[k]
    ensures LeastMtu(ps, mtus, |ps|) == mtus[n - 1]
  {
    LeastMtuIsMinimum(ps, mtus, |ps|);
    assert ps[n - 1].enabled;
  }

  // Port p, the next one, comes up: the MTU kept is now its own.
  lemma TrackedComesUp(before: seq<Timed>, mtus: seq<nat>, s: Net, m: nat, heard: seq<Heard>, n: nat, p: nat)
    returns (s': Net)
    requires Tracked(before, mtus, s, m, heard) && OnTheWay(s, n, s.h.clock) && Mtus(mtus)
    requires p < MAX_PORTS && s.ports[p] == InitialIface()
    requires forall k :: 0 <= k < |s.ports| ==> (s.ports[k].enabled <==> k < p)
    requires forall k :: 0 <= k < p ==> mtus[p] <= mtus[k]
    ensures Tracked(before, mtus, s', mtus[p], heard)
    ensures OnTheWay(s', n, s.h.clock + 1) && Up(s', p, 0, 1)
    ensures s'.ports == s.ports[p := s'.ports[p]] && s'.sent == s.sent && s'.toSend == s.toSend
    ensures s'.h == At(s, s.h.clock + 1).h
  {
    s' := ComesUp(s, n, p);
    var on, shelf := Timed(s.h.clock + 1, Enable(p)), Timed(s.h.clock + 1, SetShelf(p, 7, 8));
    var up := Apply(s, on);
    TrackedStep(before, mtus, s, m, heard, on);
    LastIsLeast(up.ports, mtus, p + 1);
    assert heard + [] == heard;
    TrackedStep(before, mtus, up, mtus[p], heard, shelf);
  }

  // What the run has come to after each step, apart from the links: one packet, tag 2.
  ghost predicate OnePacket(s: Net, queued: bool) {
    && s.toSend == (if queued then [ToSend(2, 0, 7, false)] else [])
    && |s.sent| == 1 && s.sent[0].tag == 2 && s.sent[0].ifc == 0 && !s.sent[0].retrans
  }

  lemma Issued(before: seq<Timed>, mtus: seq<nat>, s: Net) returns (s': Net)
    requires Tracked(before, mtus, s, 9000, []) && OnTheWay(s, 2, s.h.clock) && Up(s, 0, 0, 1)
    requires s.toSend == [] && s.sent == []
    ensures Tracked(before, mtus, s', 9000, []) && OnTheWay(s', 3, s'.h.clock) && s'.ports == s.ports
    ensures OnePacket(s', true)
  {
    s' := IsAccepted(s, 2, 0);
    NothingHeard(before, mtus, s, 9000, Timed(s.h.clock + 1, Send(2, 0, 7, true)));
  }

  lemma NothingHeard(before: seq<Timed>, mtus: seq<nat>, s: Net, m: nat, t: Timed)
    requires Tracked(before, mtus, s, m, []) && Legal(s, t) && (t.event.Send? || t.event.TransmitTick?)
    ensures Tracked(before, mtus, Apply(s, t), m, [])
  {
    TrackedStep(before, mtus, s, m, [], t);
  }

  lemma IsOut(before: seq<Timed>, mtus: seq<nat>, s: Net) returns (s': Net)
    requires Tracked(before, mtus, s, 9000, []) && OnTheWay(s, 3, s.h.clock) && Up(s, 0, 0, 1) && OnePacket(s, true)
    ensures Tracked(before, mtus, s', 9000, []) && OnTheWay(s', 3, s'.h.clock) && Up(s', 0, 1, 1)
    ensures s'.ports == s.ports[0 := s'.ports[0]] && OnePacket(s', false)
  {
    s' := GoesOut(s, 3, 0, 0, 1);
    NothingHeard(before, mtus, s, 9000, Timed(s.h.clock + 1, TransmitTick));
  }

  lemma AnsweredAt1500(before: seq<Timed>, mtus: seq<nat>, s: Net) returns (s': Net)
    requires Tracked(before, mtus, s, 1500, []) && OnTheWay(s, 3, s.h.clock) && OnePacket(s, false)
    ensures Tracked(before, mtus, s', 1500, Answered1500())
  {
    var t := Timed(s.h.clock + 1, Incoming(2, true, false, AtaCommand(7, 0)));
    ReplyHeard(s, t);
    s' := ReplyTracked(before, mtus, s, 1500, t);
  }

  // The reply to the first frame, heard when the MTU kept is that of port 1.
  function Answered1500(): seq<Heard> {
    [Heard(Response(TagAt(1), AtaCommand(7, 0)), 1500)]
  }

  lemma ReplyHeard(s: Net, t: Timed)
    requires OnePacket(s, false) && t.event == Incoming(2, true, false, AtaCommand(7, 0))
    ensures HeardNow(s, t, 1500) == Answered1500()
  {
    assert TagAt(1) == 2;
    assert FindSent(At(s, t.now).sent, 2) == 0;
  }

  lemma ReplyTracked(before: seq<Timed>, mtus: seq<nat>, s: Net, m: nat, t: Timed) returns (s': Net)
    requires Tracked(before, mtus, s, m, []) && Legal(s, t) && t.event.Incoming?
    ensures Tracked(before, mtus, s', m, HeardNow(s, t, m))
  {
    s' := Apply(s, t);
    TrackedStep(before, mtus, s, m, [], t);
    assert [] + HeardNow(s, t, m) == HeardNow(s, t, m);
  }

  // A read of one frame of 17 sectors is issued on port 0, when its MTU is the one kept, after
  // the run `before`. Then port 1 comes up, and after that the reply comes in.
  ghost predicate PortShrinks(before: seq<Timed>, mtus: seq<nat>, s: Net) {
    && LegalRun(InitialNet(), before) && MtuRun(InitialNet(), before, 0, mtus) == 9000
    && HeardRun(InitialNet(), before, 0, mtus) == []
    && Tracked(before, mtus, s, 1500, Answered1500())
  }

  lemma SmallPortComesUp(mtus: seq<nat>)
    requires Mtus(mtus) && mtus[0] == 9000 && mtus[1] == 1500
    ensures exists before, s :: PortShrinks(before, mtus, s)
  {
    var before, s1 := LargePortUp(mtus);
    var s := AnsweredLate(before, mtus, s1);
    assert PortShrinks(before, mtus, s);
  }

  lemma LargePortUp(mtus: seq<nat>) returns (before: seq<Timed>, s: Net)
    requires Mtus(mtus) && mtus[0] == 9000
    ensures LegalRun(InitialNet(), before) && MtuRun(InitialNet(), before, 0, mtus) == 9000
    ensures HeardRun(InitialNet(), before, 0, mtus) == [] && Tracked(before, mtus, s, 9000, [])
    ensures OnTheWay(s, 2, s.h.clock) && Up(s, 0, 0, 1) && s.ports == InitialPorts()[0 := s.ports[0]]
    ensures s.toSend == [] && s.sent == []
  {
    AtStart(2);
    TrackedStart([], mtus);
    s := TrackedComesUp([], mtus, InitialNet(), 0, [], 2, 0);
    before :| Track([], before, mtus, s, 9000, []);
    assert [] + before == before;
    TrackedStart(before, mtus);
  }

  lemma AnsweredLate(before: seq<Timed>, mtus: seq<nat>, s1: Net) returns (s: Net)
    requires Tracked(before, mtus, s1, 9000, []) && OnTheWay(s1, 2, s1.h.clock)
    requires Mtus(mtus) && mtus[0] == 9000 && mtus[1] == 1500
    requires Up(s1, 0, 0, 1) && s1.ports == InitialPorts()[0 := s1.ports[0]] && s1.toSend == [] && s1.sent == []
    ensures Tracked(before, mtus, s, 1500, Answered1500())
  {
    var s3 := IssuedAndOut(before, mtus, s1);
    OnlyFirstUp(s1.ports, s3.ports);
    var s4 := TrackedComesUp(before, mtus, s3, 9000, [], 3, 1);
    s := AnsweredAt1500(before, mtus, s4);
  }

  lemma OnlyFirstUp(was: Ports, ps: Ports)
    requires |was| == |ps| == MAX_PORTS && was == InitialPorts()[0 := was[0]] && ps == was[0 := ps[0]] && ps[0].enabled
    ensures ps[1] == InitialIface() && forall k :: 0 <= k < |ps| ==> (ps[k].enabled <==> k < 1)
  {
    forall k | 1 <= k < |ps| ensures ps[k] == InitialIface() {
      assert ps[k] == was[k] == InitialPorts()[k];
    }
  }

  lemma IssuedAndOut(before: seq<Timed>, mtus: seq<nat>, s: Net) returns (s': Net)
    requires Tracked(before, mtus, s, 9000, []) && OnTheWay(s, 2, s.h.clock) && Up(s, 0, 0, 1)
    requires s.toSend == [] && s.sent == []
    ensures Tracked(before, mtus, s', 9000, []) && OnTheWay(s', 3, s'.h.clock) && Up(s', 0, 1, 1)
    ensures s'.ports == s.ports[0 := s'.ports[0]] && OnePacket(s', false)
  {
    var out := Issued(before, mtus, s);
    s' := IsOut(before, mtus, out);
  }

  // The block of that run.
  predicate OneFrame17(b: Block) {
    b.call == 0 && b.n == 17 && b.s == 17
  }

  // The read then completes with 1024 of its 8704 bytes, and the rest of the caller's buffer
  // never stored.
  lemma ReplyIsCutOff(b: Block, u: Setup, d: Disk, t: Transfer, c: Chain)
    requires OneFrame17(b) && ReadOk(b, u) && OnDisk(b, d) && |t.buffer| >= 17 * SECTOR
    requires t.actual == 0 && t.required == Requests(b.n, b.s)
    requires GoodReply(b, u, d, Reply(0, RoomFor(1500), c))
    ensures RoomFor(9000) >= u.chunk == u.bytes == 8704
    ensures var end := ReadAll(t, u, Taken(u, [AtaReply(TagAt(1), RoomFor(1500), Ack(0x50, 0), c)]));
      && end.actual == 1024 && end.required == 0 && end.phase == Status && end.interrupts == t.interrupts + 1
      && |end.buffer| == |t.buffer| && end.buffer[1024..] == t.buffer[1024..]
  {
    RequestsRoundsUp(17, 17);
    var v := u.(room := RoomFor(1500));
    var arrivals := Taken(u, [AtaReply(TagAt(1), RoomFor(1500), Ack(0x50, 0), c)]);
    assert arrivals[..0] == [];
    assert ReadAll(t, u, arrivals) == ReadAt(t, v, arrivals[0].pos, c);
    FramePosition(b, u, 0);
    ReplyIsPart(b, d, 0);
    assert RoomFor(1500) == 1024;
    AcceptedLength(v, u.bytes, c);
    forall k | 1024 <= k < |t.buffer| ensures !Touches(arrivals[0], k) {
      assert arrivals[0].pos == 0;
    }
    TailStays(t, u, arrivals);
  }

  lemma TailStays(t: Transfer, u: Setup, arrivals: seq<Arrival>)
    requires |arrivals| == 1 && |t.buffer| >= 1024
    requires forall k :: 1024 <= k < |t.buffer| ==> !Touches(arrivals[0], k)
    ensures var end := ReadAll(t, u, arrivals);
      |end.buffer| == |t.buffer| && end.buffer[1024..] == t.buffer[1024..]
  {
    var end := ReadAll(t, u, arrivals);
    assert |end.buffer| == |t.buffer| by { assert arrivals[..0] == []; }
    forall k | 1024 <= k < |t.buffer| ensures end.buffer[k] == t.buffer[k] {
      Untouched(t, u, arrivals, k);
    }
  }
}
