/** The tag generator (AoE/AoEControllerInterface.cpp, next_tag). */
module TagGenerator {
  import opened Common
  import opened Transport
  import opened Dispatch

  const TAG_PERIOD: nat := MAX_TAG - 1

  function NextTag(tag: nat): nat {
    var next := Min(Max(tag + 1, MIN_TAG), MAX_TAG);
    if next == MAX_TAG then MIN_TAG else next
  }

  // The tag of the k-th call, where call 0 stands for the initial MIN_TAG.
  function TagAt(k: nat): nat {
    1 + k % TAG_PERIOD
  }

  // The tag of a search: never the tag of a packet for one target.
  function SearchTag(tag: nat): nat {
    if IsBroadcast(tag) then tag else tag + TAG_BROADCAST_MASK
  }

  lemma NextIsSuccessor(k: nat)
    ensures NextTag(TagAt(k)) == TagAt(k + 1)
  {
    assert (k + 1) % TAG_PERIOD == if k % TAG_PERIOD == TAG_PERIOD - 1 then 0 else k % TAG_PERIOD + 1;
  }

  // Generated tags carry no flag bit and are never the "no tag" value; a search tag is told
  // apart by its broadcast bit.
  lemma TagShape(k: nat)
    ensures var t := TagAt(k);
      && 1 <= t < 0x3FFF_FFFF && Unicast(t)
      && IsBroadcast(SearchTag(t)) && SearchTag(t) == t + 0x4000_0000 < 0x8000_0000
  {
  }

  // Fewer than a period apart, two calls give different tags.
  lemma TagsDiffer(a: nat, b: nat)
    requires a < b < a + TAG_PERIOD
    ensures TagAt(a) != TagAt(b)
  {
  }

  class Generator {
    var m_nCurrentTag: nat
    ghost var calls: nat

    ghost predicate Valid()
      reads this
    {
      m_nCurrentTag == TagAt(calls)
    }

    constructor ()
      ensures Valid() && calls == 0
    {
      m_nCurrentTag := MIN_TAG;
      calls := 0;
    }

    method NextTag() returns (tag: nat)
      requires Valid()
      modifies this
      ensures Valid() && calls == old(calls) + 1 && tag == TagAt(calls)
    {
      NextIsSuccessor(calls);
      m_nCurrentTag := m_nCurrentTag + 1;
      m_nCurrentTag := Max(m_nCurrentTag, MIN_TAG);
      m_nCurrentTag := Min(m_nCurrentTag, MAX_TAG);
      if m_nCurrentTag == MAX_TAG {
        m_nCurrentTag := MIN_TAG;
      }
      calls := calls + 1;
      tag := m_nCurrentTag;
    }
  }

  // ---- Generated tags are fresh ----

  ghost predicate TagOfCall(tag: nat, k: nat) {
    tag == TagAt(k) || tag == SearchTag(TagAt(k))
  }

  // Every packet of the run has a tag from its own call of the generator, the calls being
  // made in order after call `k` and before call `end` (other calls may be wasted).
  ghost predicate Generated(ts: seq<Timed>, k: nat, end: nat)
    decreases |ts|
  {
    ts == [] ||
    if ts[0].event.Send? then
      exists m :: k <= m < end && TagOfCall(ts[0].event.tag, m) && Generated(ts[1..], m + 1, end)
    else Generated(ts[1..], k, end)
  }

  ghost predicate ClockRuns(clock: nat, ts: seq<Timed>)
    decreases |ts|
  {
    ts == [] || (0 < ts[0].now && clock <= ts[0].now && ClockRuns(ts[0].now, ts[1..]))
  }

  // The tags accepted so far come from calls start..k-1.
  ghost predicate AcceptedBefore(s: Net, start: nat, k: nat) {
    forall p :: p in s.h.accepted ==> exists m :: start <= m < k && TagOfCall(p.tag, m)
  }

  lemma FreshTag(s: Net, start: nat, k: nat, tag: nat, m: nat)
    requires AcceptedBefore(s, start, k) && k <= m < start + TAG_PERIOD && TagOfCall(tag, m)
    ensures tag !in Tags(s.h.accepted)
  {
    forall p | p in s.h.accepted ensures p.tag != tag {
      var n :| start <= n < k && TagOfCall(p.tag, n);
      TagsDiffer(n, m);
      TagShape(n);
      TagShape(m);
    }
  }

  lemma {:induction false} FlushClock(s: Net, j: nat)
    requires j <= |s.toSend|
    ensures FlushImmediate(s, j).h.clock == s.h.clock
    decreases |s.toSend| - j
  {
    if j < |s.toSend| {
      if s.toSend[j].immediate { FlushClock(SendFromQueue(s, j), j); } else { FlushClock(s, j + 1); }
    }
  }

  lemma {:induction false} RetransmitClock(s: Net, i: nat, adjusted: bool, targets: nat)
    requires i <= |s.sent|
    ensures RetransmitFrom(s, i, adjusted, targets).h.clock == s.h.clock
    decreases |s.sent| - i
  {
    if i < |s.sent| {
      match Judge(s.sent[i], s.h.clock)
      case Keep => RetransmitClock(s, i + 1, adjusted, targets);
      case Discard => RetransmitClock(Drop(s, i), i, adjusted, targets);
      case Again =>
        var s' := if adjusted then s else CollapseWindow(s, s.sent[i].ifc);
        RetransmitClock(Resend(s', i, targets), i + 1, true, targets);
    }
  }

  lemma StepClockAndAccepted(s: Net, e: Event)
    ensures Step(s, e).h.clock == s.h.clock
    ensures forall p :: p in Step(s, e).h.accepted ==> p in s.h.accepted || (e.Send? && p.tag == e.tag)
  {
    match e
    case TransmitTick =>
      FlushClock(s, 0);
      FlushDispatch(s, 0);
    case RetransmitTick(targets) =>
      RetransmitClock(s, 0, false, targets);
      RetransmitDispatch(s, 0, false, targets);
    case _ =>
  }

  // Any run whose packets take their tags from fewer than a period of calls is legal: the
  // freshness that the transport relies on is what the generator provides.
  lemma {:induction false} GeneratedIsLegal(s: Net, ts: seq<Timed>, start: nat, k: nat, end: nat)
    requires start <= k && end <= start + TAG_PERIOD
    requires AcceptedBefore(s, start, k) && Generated(ts, k, end) && ClockRuns(s.h.clock, ts)
    ensures LegalRun(s, ts)
    decreases |ts|
  {
    if ts != [] {
      var s0 := At(s, ts[0].now);
      var s' := Apply(s, ts[0]);
      StepClockAndAccepted(s0, ts[0].event);
      var k' := k;
      if ts[0].event.Send? {
        var m :| k <= m < end && TagOfCall(ts[0].event.tag, m) && Generated(ts[1..], m + 1, end);
        FreshTag(s, start, k, ts[0].event.tag, m);
        k' := m + 1;
      }
      forall p | p in s'.h.accepted ensures exists n :: start <= n < k' && TagOfCall(p.tag, n) {
        if p in s.h.accepted {
          var n :| start <= n < k && TagOfCall(p.tag, n);
        } else {
          assert TagOfCall(p.tag, k' - 1);
        }
      }
      GeneratedIsLegal(s', ts[1..], start, k', end);
    }
  }
}
