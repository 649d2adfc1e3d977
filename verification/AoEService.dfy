/** The service object of AoE/AoEService.cpp. Each gate action and timer is proved to make
    exactly the step of module Transport that specifies it; what runs of steps keep is proved
    there. A gate action sees one reading `now` of the uptime clock. */
module Service {
  import opened Common
  import opened Interfaces
  import opened RtoEstimator
  import opened Transport
  import EthernetPorts

  class AoEService {
    const m_pInterfaces: EthernetPorts.EInterfaces
    var m_sent_queue: seq<Sent>
    var m_to_send_queue: seq<ToSend>
    var m_nRTO_ns: U64
    var m_nScaledRTTavg: int
    var m_nScaledRTTvar: int
    var m_nNumUnexpectedResponses: nat
    var m_nNumRetransmits: nat
    ghost var h: History

    ghost function State(): Net
      reads this, m_pInterfaces
    {
      Net(m_pInterfaces.Contents, m_pInterfaces.m_nMaxUserWindow, m_sent_queue, m_to_send_queue,
          Rto(m_nRTO_ns, m_nScaledRTTavg, m_nScaledRTTvar),
          m_nNumUnexpectedResponses, m_nNumRetransmits, h)
    }

    // Queued packets name a port; which one is up is part of the transport's invariant.
    ghost predicate Valid()
      reads this, m_pInterfaces, m_pInterfaces.Objects, m_pInterfaces.Arrays
    {
      m_pInterfaces.Valid() && Numbered(m_sent_queue, m_to_send_queue)
    }

    constructor ()
      ensures Valid() && State() == InitialNet()
      ensures fresh(m_pInterfaces) && fresh(m_pInterfaces.Objects) && fresh(m_pInterfaces.Arrays)
    {
      m_pInterfaces := new EthernetPorts.EInterfaces();
      m_sent_queue, m_to_send_queue := [], [];
      m_nRTO_ns, m_nScaledRTTavg, m_nScaledRTTvar := RTO_MAX_NS, 0, 0;
      m_nNumUnexpectedResponses, m_nNumRetransmits := 0, 0;
      h := History([], [], [], [], [], 0);
    }

    method UpdateRto(nRTT: nat)
      requires Valid()
      modifies this`m_nRTO_ns, this`m_nScaledRTTavg, this`m_nScaledRTTvar
      ensures Valid() && State() == old(State()).(rto := RtoEstimator.UpdateRto(old(State()).rto, nRTT))
    {
      var nErr := Wrap32(nRTT - m_nScaledRTTavg);
      m_nScaledRTTavg := Wrap32(m_nScaledRTTavg + nErr / 8);
      assert m_nScaledRTTavg == RtoEstimator.UpdateRto(old(State()).rto, nRTT).avg;
      if nErr < 0 {
        nErr := Wrap32(-nErr);
      }
      nErr := Wrap32(nErr - m_nScaledRTTvar);
      m_nScaledRTTvar := Wrap32(m_nScaledRTTvar + nErr / 4);
      assert m_nScaledRTTvar == RtoEstimator.UpdateRto(old(State()).rto, nRTT).dev;
      m_nRTO_ns := ToU64(Wrap32(m_nScaledRTTavg + Wrap32(4 * m_nScaledRTTvar)));
    }

    // ---- Accepting packets ----

    method AddToSendQueue(ifp: int, Tag: nat, nShelf: int, fSendImmediately: bool)
      requires Valid() && PortNumber(ifp) && nShelf < MAX_SHELFS
      modifies this`m_to_send_queue
      ensures Valid()
      ensures State() == old(State()).(toSend := old(m_to_send_queue) + [ToSend(Tag, ifp, nShelf, fSendImmediately)])
    {
      m_to_send_queue := m_to_send_queue + [ToSend(Tag, ifp, nShelf, fSendImmediately)];
    }

    // Removes the entries whose port is not in use.
    method PurgeToSendQueue()
      requires Valid()
      modifies this`m_to_send_queue
      ensures Valid() && State() == old(State()).(toSend := PurgeToSend(State().ports, old(m_to_send_queue)))
    {
      ghost var ps, was := m_pInterfaces.Contents, m_to_send_queue;
      var j := 0;
      while j < |m_to_send_queue|
        invariant Valid() && j <= |m_to_send_queue|
        invariant ToSendPurged(ps, was, m_to_send_queue, j)
        decreases |m_to_send_queue| - j
      {
        var used := m_pInterfaces.IsUsed(m_to_send_queue[j].ifc);
        ToSendPurgedNext(ps, was, m_to_send_queue, j);
        if used != 1 {
          m_to_send_queue := RemoveAt(m_to_send_queue, j);
        } else {
          j := j + 1;
        }
      }
      assert m_to_send_queue[..j] == m_to_send_queue;
    }

    method PurgeSentQueue()
      requires Valid()
      modifies this`m_sent_queue, this`h
      ensures Valid()
      ensures var s := old(State());
        State() == s.(sent := PurgeSent(s.ports, s.sent), h := s.h.(gone := s.h.gone + PurgedSent(s.ports, s.sent, s.h.clock)))
    {
      ghost var ps, was, gone, now := m_pInterfaces.Contents, m_sent_queue, h.gone, h.clock;
      var j := 0;
      while j < |m_sent_queue|
        invariant Valid() && j <= |m_sent_queue| && h == old(h).(gone := h.gone)
        invariant SentPurged(ps, now, was, gone, m_sent_queue, h.gone, j)
        decreases |m_sent_queue| - j
      {
        var item := m_sent_queue[j];
        var used := m_pInterfaces.IsUsed(item.ifc);
        SentPurgedNext(ps, now, was, gone, m_sent_queue, h.gone, j);
        if used != 1 {
          PurgeEntry(j);
        } else {
          j := j + 1;
        }
      }
      SentPurgedAll(ps, now, was, gone, m_sent_queue, h.gone);
    }

    method PurgeEntry(j: nat)
      requires Valid() && j < |m_sent_queue|
      modifies this`m_sent_queue, this`h
      ensures Valid() && m_sent_queue == RemoveAt(old(m_sent_queue), j)
      ensures h == old(h).(gone := old(h).gone + [Gone(old(m_sent_queue)[j].tag, PortDown, old(h).clock)])
    {
      h := h.(gone := h.gone + [Gone(m_sent_queue[j].tag, PortDown, h.clock)]);
      m_sent_queue := RemoveAt(m_sent_queue, j);
    }

    method SendPacketOnInterface(ifp: int, Tag: nat, nShelf: int, fRetransmit: bool, ghost now: nat)
      returns (result: int)
      requires Valid() && ifp != NO_IFNET && nShelf < MAX_SHELFS
      modifies this
      ensures Valid() && State() == Apply(old(State()), Timed(now, Send(Tag, ifp, nShelf, fRetransmit)))
      ensures result == if Used(old(State()).ports, ifp) then 0 else -1
    {
      h := h.(clock := now);
      var used := m_pInterfaces.IsUsed(ifp);
      if used != 1 {
        PurgeToSendQueue();
        return -1;
      }
      var rtoUs := if fRetransmit then GetRtoUs(Rto(m_nRTO_ns, m_nScaledRTTavg, m_nScaledRTTvar)) else 0;
      m_sent_queue := m_sent_queue + [Sent(Tag, ifp, nShelf, 0, 0, rtoUs, false)];
      h := h.(accepted := h.accepted + [Packet(Tag, ifp, nShelf, rtoUs)]);
      AddToSendQueue(ifp, Tag, nShelf, false);
      return 0;
    }

    // ---- Sending ----

    // The search for a tag in the sent queue, made on a send and on a response.
    method FindTag(Tag: nat) returns (k: nat)
      ensures k == if FindSent(m_sent_queue, Tag) < 0 then |m_sent_queue| else FindSent(m_sent_queue, Tag)
    {
      k := 0;
      while k < |m_sent_queue|
        invariant k <= |m_sent_queue|
        invariant forall i :: 0 <= i < k ==> m_sent_queue[i].tag != Tag
      {
        if m_sent_queue[k].tag == Tag {
          return;
        }
        k := k + 1;
      }
    }

    method SendPacketFromQueue(j: nat, now: nat)
      requires Valid() && j < |m_to_send_queue| && now == h.clock
      modifies this`m_sent_queue, this`m_to_send_queue, this`h, m_pInterfaces`Contents, m_pInterfaces.Objects
      ensures Valid() && State() == SendFromQueue(old(State()), j)
    {
      var item := m_to_send_queue[j];
      var k := FindTag(item.tag);
      if k < |m_sent_queue| {
        OutputPacket(item, k, now);
      }
      m_to_send_queue := RemoveAt(m_to_send_queue, j);
    }

    // The output of an item whose packet is at position k of the sent queue.
    method OutputPacket(item: ToSend, k: nat, now: nat)
      requires Valid() && k < |m_sent_queue| && PortNumber(item.ifc)
      modifies this`m_sent_queue, this`h, m_pInterfaces`Contents, m_pInterfaces.Objects
      ensures Valid()
      ensures var s := old(State());
        State() == s.(sent := s.sent[k := Output(s.sent[k], now)],
                      ports := Stamp(AddOutstanding(s.ports, item.ifc, if item.immediate then 0 else 1), item.ifc, now),
                      h := s.h.(wire := s.h.wire + [Frame(item.tag, item.ifc, item.shelf, s.sent[k].timeFirst == 0, s.h.clock)]))
    {
      var e := m_sent_queue[k];
      m_sent_queue := m_sent_queue[k := Output(e, now)];
      h := h.(wire := h.wire + [Frame(item.tag, item.ifc, item.shelf, e.timeFirst == 0, h.clock)]);
      m_pInterfaces.AddOutstanding(item.ifc, if item.immediate then 0 else 1);
      m_pInterfaces.UpdateTimeSinceLastSend(item.ifc, now);
    }

    // MIN(MIN(cwnd, shelf window), user window)
    method MaxOutstandingFor(item: ToSend) returns (limit: int)
      requires Valid() && PortNumber(item.ifc) && item.shelf < MAX_SHELFS
      ensures limit == Window(State().ports, State().userWindow, item.ifc, item.shelf)
    {
      var nCWND := m_pInterfaces.GetCwnd(item.ifc);
      var nMaxForThisShelf := m_pInterfaces.GetMaxOutstanding(item.ifc, item.shelf);
      limit := Min(nCWND, nMaxForThisShelf);
      limit := Min(limit, m_pInterfaces.m_nMaxUserWindow);
    }

    // The pass over the entries that are to be sent immediately.
    method SendImmediates(now: nat)
      requires Valid() && now == h.clock
      modifies this, m_pInterfaces`Contents, m_pInterfaces.Objects
      ensures Valid() && h.clock == now && State() == FlushImmediate(old(State()), 0)
    {
      var j: nat := 0;
      while j < |m_to_send_queue|
        invariant Valid() && j <= |m_to_send_queue| && h.clock == now
        invariant FlushImmediate(State(), j) == FlushImmediate(old(State()), 0)
        decreases |m_to_send_queue| - j
      {
        if m_to_send_queue[j].immediate {
          SendPacketFromQueue(j, now);
        } else {
          j := j + 1;
        }
      }
    }

    // The pass under flow control: the first entry that its window lets out.
    method NextToSend() returns (j: nat, found: bool)
      requires Valid()
      ensures found <==> Choose(State(), 0) >= 0
      ensures found ==> j == Choose(State(), 0)
    {
      j := 0;
      while j < |m_to_send_queue|
        invariant j <= |m_to_send_queue|
        invariant Choose(State(), j) == Choose(State(), 0)
      {
        var item := m_to_send_queue[j];
        var nOutstanding := m_pInterfaces.GetOutstanding(item.ifc);
        var nMaxoutstanding := MaxOutstandingFor(item);
        if nOutstanding >= nMaxoutstanding {
          var full := m_pInterfaces.AllFull(nMaxoutstanding);
          if full {
            return j, false;
          }
          j := j + 1;
        } else {
          return j, true;
        }
      }
      return j, false;
    }

    method TransmitTimer(now: nat)
      requires Valid()
      modifies this, m_pInterfaces`Contents, m_pInterfaces.Objects
      ensures Valid() && State() == Apply(old(State()), Timed(now, TransmitTick))
    {
      h := h.(clock := now);
      SendImmediates(now);
      var j, found := NextToSend();
      if found {
        SendPacketFromQueue(j, now);
      }
    }

    // ---- Resending ----

    method ResendPacket(i: nat, targets: nat)
      requires Valid() && i < |m_sent_queue|
      modifies this`m_sent_queue, this`m_to_send_queue, this`m_nNumRetransmits, this`h
      ensures Valid()
      ensures var s, e := old(State()), old(m_sent_queue)[i];
        State() == s.(sent := s.sent[i := Resent(e)],
                      toSend := s.toSend + [ToSend(e.tag, e.ifc, e.shelf, true)],
                      retransmits := s.retransmits + (if targets > 0 then 1 else 0),
                      h := s.h.(resent := s.h.resent + [e.tag]))
    {
      var e := m_sent_queue[i];
      e := e.(rtoUs := Min(2 * e.rtoUs, MAX_RETRANSMIT_TIMEOUT_US), timeSent := 0, retrans := true);
      m_sent_queue := m_sent_queue[i := e];
      AddToSendQueue(e.ifc, e.tag, e.shelf, true);
      if targets > 0 {
        m_nNumRetransmits := m_nNumRetransmits + 1;
      }
      h := h.(resent := h.resent + [e.tag]);
    }

    // The one window reaction of a tick.
    method AdjustWindow(ifc: int)
      requires Valid() && PortNumber(ifc)
      modifies m_pInterfaces`Contents, m_pInterfaces.Objects
      ensures Valid() && State() == CollapseWindow(old(State()), ifc)
    {
      var nPrevCWND := m_pInterfaces.GetCwnd(ifc);
      m_pInterfaces.SetSSThresh(ifc, Max(nPrevCWND / 2, 1));
      m_pInterfaces.SetCwnd(ifc, 1);
    }

    // The entry at position i leaves the sent queue uncounted, unless it was resent before.
    method DropEntry(i: nat)
      requires Valid() && i < |m_sent_queue|
      modifies this`m_sent_queue, this`h, m_pInterfaces`Contents, m_pInterfaces.Objects
      ensures Valid() && State() == Drop(old(State()), i)
    {
      var e := m_sent_queue[i];
      m_sent_queue := RemoveAt(m_sent_queue, i);
      h := h.(gone := h.gone + [DropOf(e, h.clock)]);
      if !e.retrans {
        m_pInterfaces.AddOutstanding(e.ifc, -1);
      } else {
        AddNothing(m_pInterfaces.Contents, e.ifc);
      }
    }

    method RetransmitTimer(now: nat, targets: nat)
      requires Valid()
      modifies this, m_pInterfaces`Contents, m_pInterfaces.Objects
      ensures Valid() && State() == Apply(old(State()), Timed(now, RetransmitTick(targets)))
    {
      h := h.(clock := now);
      ghost var start := State();
      var fHaveAdjustedCWND := false;
      var i: nat := 0;
      while i < |m_sent_queue|
        invariant Valid() && i <= |m_sent_queue| && h.clock == now
        invariant RetransmitFrom(State(), i, fHaveAdjustedCWND, targets) == RetransmitFrom(start, 0, false, targets)
        decreases |m_sent_queue| - i
      {
        i, fHaveAdjustedCWND := RetransmitEntry(i, fHaveAdjustedCWND, now, targets);
      }
    }

    // One turn of the loop: the position that comes next, and whether the window has reacted.
    method RetransmitEntry(i: nat, fAdjusted: bool, now: nat, targets: nat) returns (next: nat, fHaveAdjustedCWND: bool)
      requires Valid() && i < |m_sent_queue| && now == h.clock
      modifies this, m_pInterfaces`Contents, m_pInterfaces.Objects
      ensures Valid() && h.clock == now && next <= |m_sent_queue|
      ensures |m_sent_queue| - next < old(|m_sent_queue|) - i
      ensures RetransmitFrom(State(), next, fHaveAdjustedCWND, targets)
           == RetransmitFrom(old(State()), i, fAdjusted, targets)
    {
      next, fHaveAdjustedCWND := i + 1, fAdjusted;
      var e := m_sent_queue[i];
      if e.rtoUs != 0 {
        if e.timeFirst != 0 && e.timeSent != 0 {
          if SinceUs(now, e.timeFirst) > MAX_TIMEOUT_BEFORE_DROP_US {
            DropEntry(i);
            next := i;
          } else if SinceUs(now, e.timeSent) > e.rtoUs {
            if !fAdjusted {
              AdjustWindow(e.ifc);
              fHaveAdjustedCWND := true;
            }
            ResendEntry(i, targets);
          }
        }
      } else {
        DropEntry(i);
        next := i;
      }
    }

    // A timed-out packet stops being counted when it is resent for the first time.
    method ResendEntry(i: nat, targets: nat)
      requires Valid() && i < |m_sent_queue|
      modifies this, m_pInterfaces`Contents, m_pInterfaces.Objects
      ensures Valid() && State() == Resend(old(State()), i, targets)
    {
      if !m_sent_queue[i].retrans {
        m_pInterfaces.AddOutstanding(m_sent_queue[i].ifc, -1);
      } else {
        AddNothing(m_pInterfaces.Contents, m_sent_queue[i].ifc);
      }
      ResendPacket(i, targets);
    }

    // ---- Receiving ----

    method CgAoeIncoming(now: nat, Tag: nat, fResponse: bool, fError: bool, Command: AoeCommand)
      requires Valid()
      modifies this, m_pInterfaces`Contents, m_pInterfaces.Objects
      ensures Valid() && State() == Apply(old(State()), Timed(now, Incoming(Tag, fResponse, fError, Command)))
    {
      IncomingStep(State(), now, Tag, fResponse, fError, Command);
      h := h.(clock := now);
      assert State() == At(old(State()), now);
      if fResponse {
        HandleResponse(now, Tag, fError, Command);
      }
    }

    method HandleResponse(now: nat, Tag: nat, fError: bool, Command: AoeCommand)
      requires Valid() && now == h.clock
      modifies this, m_pInterfaces`Contents, m_pInterfaces.Objects
      ensures Valid() && State() == Receive(old(State()), Tag, true, fError, Command)
    {
      var k := FindTag(Tag);
      var fPacketFound := k < |m_sent_queue|;
      if fPacketFound {
        AcknowledgeEntry(k, now);
      }
      HandOver(Tag, fPacketFound, fError, Command);
    }

    // What follows the search of the sent queue.
    method HandOver(Tag: nat, fPacketFound: bool, fError: bool, Command: AoeCommand)
      requires Valid()
      modifies this`m_nNumUnexpectedResponses, this`h
      ensures Valid()
      ensures State() == if fError || Command.VendorCommand?
                            || (!fPacketFound && Tag != DEVICE_ONLINE_TAG && !IsBroadcast(Tag))
                         then Unexpected(old(State()))
                         else old(State()).(h := old(h).(dispatched := old(h).dispatched + [Response(Tag, Command)]))
    {
      if fError {
        m_nNumUnexpectedResponses := m_nNumUnexpectedResponses + 1;
        return;
      }
      if fPacketFound || Tag == DEVICE_ONLINE_TAG || IsBroadcast(Tag) {
        match Command {
          case VendorCommand => m_nNumUnexpectedResponses := m_nNumUnexpectedResponses + 1;
          case _ => h := h.(dispatched := h.dispatched + [Response(Tag, Command)]);
        }
      } else {
        m_nNumUnexpectedResponses := m_nNumUnexpectedResponses + 1;
      }
    }

    method AcknowledgeEntry(k: nat, now: nat)
      requires Valid() && k < |m_sent_queue| && now == h.clock
      modifies this`m_sent_queue, this`h, this`m_nRTO_ns, this`m_nScaledRTTavg, this`m_nScaledRTTvar,
               m_pInterfaces`Contents, m_pInterfaces.Objects
      ensures Valid() && State() == Acknowledge(old(State()), k)
    {
      ghost var s := State();
      var e := m_sent_queue[k];
      CountReply(e);
      Sample(e, now);
      RemoveAnswered(k);
      GrowWindow(e.ifc);
      assert State().rto == Acknowledge(s, k).rto && State().ports == Acknowledge(s, k).ports;
    }

    // The round-trip sample of an answered packet, unless it was resent.
    method Sample(e: Sent, now: nat)
      requires Valid()
      modifies this`m_nRTO_ns, this`m_nScaledRTTavg, this`m_nScaledRTTvar
      ensures Valid()
      ensures var s := old(State());
        State() == s.(rto := if e.retrans then s.rto
                             else RtoEstimator.UpdateRto(s.rto, if e.timeSent <= now then now - e.timeSent else 0))
    {
      if !e.retrans {
        UpdateRto(if e.timeSent <= now then now - e.timeSent else 0);
      }
    }

    method RemoveAnswered(k: nat)
      requires Valid() && k < |m_sent_queue|
      modifies this`m_sent_queue, this`h
      ensures Valid()
      ensures var s := old(State());
        State() == s.(sent := RemoveAt(s.sent, k), h := s.h.(gone := s.h.gone + [Gone(s.sent[k].tag, Answered, s.h.clock)]))
    {
      h := h.(gone := h.gone + [Gone(m_sent_queue[k].tag, Answered, h.clock)]);
      m_sent_queue := RemoveAt(m_sent_queue, k);
    }

    // The decrement with its check for a negative count.
    method CountReply(e: Sent)
      requires Valid() && PortNumber(e.ifc)
      modifies m_pInterfaces`Contents, m_pInterfaces.Objects
      ensures Valid()
      ensures State() == old(State()).(ports := AckOutstanding(old(State()).ports, e.ifc, e.retrans))
    {
      if !e.retrans {
        m_pInterfaces.AddOutstanding(e.ifc, -1);
      }
      var count := m_pInterfaces.GetCount(e.ifc);
      if count < 0 {
        m_pInterfaces.AddOutstanding(e.ifc, -count);
      }
      assert m_pInterfaces.Contents == AckOutstanding(old(m_pInterfaces.Contents), e.ifc, e.retrans);
    }

    method GrowWindow(ifc: int)
      requires Valid() && PortNumber(ifc)
      modifies m_pInterfaces`Contents, m_pInterfaces.Objects
      ensures Valid() && State() == old(State()).(ports := AckWindow(old(State()).ports, ifc))
    {
      assert PortOk(m_pInterfaces.Contents[ifc], ifc);
      var nPrevCWND := m_pInterfaces.GetCwnd(ifc);
      var nSSThresh := m_pInterfaces.GetSSThresh(ifc);
      if nPrevCWND < nSSThresh {
        m_pInterfaces.GrowCwnd(ifc, 1, 0);
      } else {
        m_pInterfaces.GrowCwnd(ifc, 0, 1);
      }
    }

    // ---- Links and settings ----

    method IdleTimer(now: nat)
      requires Valid()
      modifies this`h, m_pInterfaces`Contents, m_pInterfaces.Objects
      ensures Valid() && State() == Apply(old(State()), Timed(now, IdleTick))
    {
      h := h.(clock := now);
      m_pInterfaces.ResetIfIdle(now);
    }

    method CgEnableInterface(n: nat, mtus: seq<nat>, ghost now: nat)
      requires Valid() && |mtus| == MAX_PORTS
      modifies this`h, m_pInterfaces`Contents, m_pInterfaces`m_Min_MTU, m_pInterfaces.Objects
      ensures Valid() && State() == Apply(old(State()), Timed(now, Enable(n)))
      ensures m_pInterfaces.m_Min_MTU
           == if n < MAX_PORTS then EthernetPorts.LeastMtu(State().ports, mtus, MAX_PORTS) else old(m_pInterfaces.m_Min_MTU)
    {
      LinkUpSteps(State(), now, n);
      h := h.(clock := now);
      var _ := m_pInterfaces.EnableInterface(n, mtus);
    }

    // The assignment that was to clear the count of the purged packets follows the second
    // loop, where the loop variable is NULL: it never happens.
    method CgDisableInterface(n: nat, ghost now: nat)
      requires Valid()
      modifies this, m_pInterfaces`Contents, m_pInterfaces.Objects
      ensures Valid() && State() == Apply(old(State()), Timed(now, Disable(n)))
    {
      h := h.(clock := now);
      DropLink(n);
    }

    method DropLink(n: nat)
      requires Valid()
      modifies this`m_to_send_queue, this`m_sent_queue, this`h, m_pInterfaces`Contents, m_pInterfaces.Objects
      ensures Valid() && State() == DisableLink(old(State()), n)
    {
      ghost var s := State();
      m_pInterfaces.InterfaceDisconnected(n);
      assert State() == s.(ports := DisconnectPort(s.ports, n));
      PurgeQueues();
    }

    method PurgeQueues()
      requires Valid()
      modifies this`m_to_send_queue, this`m_sent_queue, this`h
      ensures Valid()
      ensures var s := old(State());
        State() == s.(toSend := PurgeToSend(s.ports, s.toSend), sent := PurgeSent(s.ports, s.sent),
                      h := s.h.(gone := s.h.gone + PurgedSent(s.ports, s.sent, s.h.clock)))
    {
      PurgeToSendQueue();
      PurgeSentQueue();
    }

    method InterfaceReconnected(n: nat, mtus: seq<nat>, ghost now: nat)
      requires Valid() && n < MAX_PORTS && |mtus| == MAX_PORTS
      modifies this`h, m_pInterfaces`Contents, m_pInterfaces`m_Min_MTU, m_pInterfaces.Objects
      ensures Valid() && State() == Apply(old(State()), Timed(now, Reconnect(n)))
      ensures m_pInterfaces.m_Min_MTU == EthernetPorts.LeastMtu(State().ports, mtus, MAX_PORTS)
    {
      LinkUpSteps(State(), now, n);
      h := h.(clock := now);
      assert State() == At(old(State()), now);
      m_pInterfaces.InterfaceReconnected(n, mtus);
    }

    method SetUserWindow(nMaxSize: int, ghost now: nat)
      requires Valid()
      modifies this`h, m_pInterfaces`m_nMaxUserWindow
      ensures Valid() && State() == Apply(old(State()), Timed(now, Event.SetUserWindow(nMaxSize)))
    {
      h := h.(clock := now);
      m_pInterfaces.m_nMaxUserWindow := nMaxSize;
    }

    method SetMaxOutstanding(ifref: int, nShelf: nat, nMaxOutstanding: nat, ghost now: nat)
      requires Valid() && ifref != NO_IFNET && nShelf < MAX_SHELFS
      modifies this`h, m_pInterfaces`Contents, m_pInterfaces.Objects, m_pInterfaces.Arrays
      ensures Valid() && State() == Apply(old(State()), Timed(now, SetShelf(ifref, nShelf, nMaxOutstanding)))
    {
      h := h.(clock := now);
      m_pInterfaces.SetMaxOutstanding(ifref, nShelf, nMaxOutstanding);
    }
  }

  predicate PortNumber(ifc: int) {
    0 <= ifc < MAX_PORTS
  }

  ghost predicate Numbered(sent: seq<Sent>, toSend: seq<ToSend>) {
    && (forall i :: 0 <= i < |sent| ==> PortNumber(sent[i].ifc) && sent[i].shelf < MAX_SHELFS)
    && (forall j :: 0 <= j < |toSend| ==> PortNumber(toSend[j].ifc) && toSend[j].shelf < MAX_SHELFS)
  }

  // The purge of `was` has come to position j of what is left of it.
  ghost predicate ToSendPurged(ps: Ports, was: seq<ToSend>, q: seq<ToSend>, j: nat)
    requires j <= |q|
  {
    PurgeToSend(ps, was) == q[..j] + PurgeToSend(ps, q[j..])
  }

  lemma ToSendPurgedNext(ps: Ports, was: seq<ToSend>, q: seq<ToSend>, j: nat)
    requires j < |q| && ToSendPurged(ps, was, q, j)
    ensures if Used(ps, q[j].ifc) then ToSendPurged(ps, was, q, j + 1)
            else ToSendPurged(ps, was, RemoveAt(q, j), j)
  {
    assert q[j..][1..] == q[j + 1..];
    if Used(ps, q[j].ifc) {
      assert q[..j + 1] == q[..j] + [q[j]];
    } else {
      RemoveAtSlices(q, j);
    }
  }

  ghost predicate SentPurged(ps: Ports, now: nat, was: seq<Sent>, gone0: seq<Gone>, q: seq<Sent>, gone: seq<Gone>, j: nat)
    requires j <= |q|
  {
    && PurgeSent(ps, was) == q[..j] + PurgeSent(ps, q[j..])
    && gone0 + PurgedSent(ps, was, now) == gone + PurgedSent(ps, q[j..], now)
  }

  lemma SentPurgedNext(ps: Ports, now: nat, was: seq<Sent>, gone0: seq<Gone>, q: seq<Sent>, gone: seq<Gone>, j: nat)
    requires j < |q| && SentPurged(ps, now, was, gone0, q, gone, j)
    ensures if Used(ps, q[j].ifc) then SentPurged(ps, now, was, gone0, q, gone, j + 1)
            else SentPurged(ps, now, was, gone0, RemoveAt(q, j), gone + [Gone(q[j].tag, PortDown, now)], j)
  {
    var rest := q[j..];
    assert rest[0] == q[j] && rest[1..] == q[j + 1..];
    PurgeStep(ps, q[..j], rest);
    PurgedStep(ps, now, gone, rest);
    if Used(ps, q[j].ifc) {
      assert q[..j + 1] == q[..j] + [q[j]];
    } else {
      RemoveAtSlices(q, j);
    }
  }

  lemma SentPurgedAll(ps: Ports, now: nat, was: seq<Sent>, gone0: seq<Gone>, q: seq<Sent>, gone: seq<Gone>)
    requires SentPurged(ps, now, was, gone0, q, gone, |q|)
    ensures q == PurgeSent(ps, was) && gone == gone0 + PurgedSent(ps, was, now)
  {
    assert q[..|q|] == q;
  }

  lemma PurgeStep(ps: Ports, kept: seq<Sent>, rest: seq<Sent>)
    requires rest != []
    ensures kept + PurgeSent(ps, rest)
         == (if Used(ps, rest[0].ifc) then kept + [rest[0]] else kept) + PurgeSent(ps, rest[1..])
  {
  }

  lemma PurgedStep(ps: Ports, now: nat, gone: seq<Gone>, rest: seq<Sent>)
    requires rest != []
    ensures gone + PurgedSent(ps, rest, now)
         == (if Used(ps, rest[0].ifc) then gone else gone + [Gone(rest[0].tag, PortDown, now)]) + PurgedSent(ps, rest[1..], now)
  {
  }

  lemma IncomingStep(s: Net, now: nat, tag: nat, response: bool, error: bool, command: AoeCommand)
    ensures Apply(s, Timed(now, Incoming(tag, response, error, command)))
         == if response then Receive(At(s, now), tag, true, error, command) else At(s, now)
  {
  }

  lemma LinkUpSteps(s: Net, now: nat, n: nat)
    ensures Apply(s, Timed(now, Enable(n))) == At(s, now).(ports := EnablePort(s.ports, n))
    ensures Apply(s, Timed(now, Reconnect(n))) == At(s, now).(ports := ReconnectPort(s.ports, n))
  {
  }

  lemma AddNothing(ps: Ports, ifc: int)
    ensures AddOutstanding(ps, ifc, 0) == ps
  {
    if 0 <= ifc < |ps| { assert ps[ifc].(outstanding := ps[ifc].outstanding + 0) == ps[ifc]; }
  }
}
