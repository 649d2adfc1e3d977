/** What the retransmit tick does with one packet, and why a packet leaves the sent queue: said
    on the packet's own times, in nanoseconds, and with the driver's limits in figures. */
module Lifetimes {
  import opened Common
  import opened Interfaces
  import opened Transport
  import opened Queues
  import opened Dispatch
  import opened Timers
  import opened Conservation

  // The packet is out: it has been sent, and does not wait to be sent again.
  predicate IsOut(e: Sent) {
    e.timeFirst != 0 && e.timeSent != 0
  }

  // It first went out more than 60 s ago, rounded to microseconds.
  predicate IsOld(e: Sent, now: nat) {
    IsOut(e) && now - e.timeFirst >= 60_000_000_500
  }

  // It last went out longer ago than its time-out, rounded likewise.
  predicate IsLate(e: Sent, now: nat) {
    IsOut(e) && now - e.timeSent >= 1000 * e.rtoUs + 500
  }

  lemma VerdictIff(e: Sent, now: nat)
    ensures Judge(e, now) == Discard <==> e.rtoUs == 0 || IsOld(e, now)
    ensures Judge(e, now) == Again <==> e.rtoUs != 0 && !IsOld(e, now) && IsLate(e, now)
  {
  }

  // ---- One packet in one tick ----

  // Resent: the time-out doubled, up to 5 ms, and not out any more.
  function SentAgain(e: Sent): Sent {
    e.(rtoUs := if 2 * e.rtoUs < 5_000 then 2 * e.rtoUs else 5_000, timeSent := 0, retrans := true)
  }

  // How entry e comes out of a sweep of queue q into (kept, requeued, dropped).
  ghost predicate Treated(e: Sent, now: nat, kept: seq<Sent>, requeued: seq<ToSend>, dropped: seq<Gone>) {
    if e.rtoUs == 0 || IsOld(e, now) then
      && (forall x :: x in kept ==> x.tag != e.tag) && (forall t :: t in requeued ==> t.tag != e.tag)
      && Gone(e.tag, if e.rtoUs == 0 then NeverResent else TooOld, now) in dropped
    else if IsLate(e, now) then
      && SentAgain(e) in kept && ToSend(e.tag, e.ifc, e.shelf, true) in requeued && Count(TagsOf(requeued), e.tag) == 1
      && (forall g :: g in dropped ==> g.tag != e.tag)
    else
      && e in kept && (forall t :: t in requeued ==> t.tag != e.tag) && (forall g :: g in dropped ==> g.tag != e.tag)
  }

  ghost predicate NoTag(q: seq<Sent>, tag: nat) {
    forall i :: 0 <= i < |q| ==> q[i].tag != tag
  }

  lemma {:induction false} NotTouched(q: seq<Sent>, now: nat, tag: nat)
    requires NoTag(q, tag)
    ensures forall x :: x in Swept(q, now) ==> x.tag != tag
    ensures forall t :: t in Requeued(q, now) ==> t.tag != tag
    ensures forall g :: g in Dropped(q, now) ==> g.tag != tag
  {
    if q != [] { NotTouched(q[1..], now, tag); }
  }

  lemma NoneCounted(q: seq<ToSend>, tag: nat)
    requires forall t :: t in q ==> t.tag != tag
    ensures Count(TagsOf(q), tag) == 0
  {
    forall i | 0 <= i < |q| ensures TagsOf(q)[i] != tag {
      assert q[i] in q;
    }
  }

  lemma FirstTreated(q: seq<Sent>, now: nat)
    requires q != [] && NoTag(q[1..], q[0].tag)
    ensures Treated(q[0], now, Swept(q, now), Requeued(q, now), Dropped(q, now))
  {
    var e := q[0];
    NotTouched(q[1..], now, e.tag);
    VerdictIff(e, now);
    if Judge(e, now) == Again {
      var rest := Requeued(q[1..], now);
      NoneCounted(rest, e.tag);
      var one := ToSend(e.tag, e.ifc, e.shelf, true);
      assert TagsOf([one] + rest) == [e.tag] + TagsOf(rest);
      assert Resent(e) == SentAgain(e);
    }
  }

  // What a sweep does with other packets makes no difference.
  lemma TreatedAmongOthers(e: Sent, now: nat, kept0: seq<Sent>, requeued0: seq<ToSend>, dropped0: seq<Gone>,
                           kept: seq<Sent>, requeued: seq<ToSend>, dropped: seq<Gone>)
    requires Treated(e, now, kept, requeued, dropped)
    requires forall x :: x in kept0 ==> x.tag != e.tag
    requires forall t :: t in requeued0 ==> t.tag != e.tag
    requires forall g :: g in dropped0 ==> g.tag != e.tag
    ensures Treated(e, now, kept0 + kept, requeued0 + requeued, dropped0 + dropped)
  {
    NoneCounted(requeued0, e.tag);
    CountConcat(TagsOf(requeued0), TagsOf(requeued), e.tag);
    assert TagsOf(requeued0 + requeued) == TagsOf(requeued0) + TagsOf(requeued);
  }

  // The other entries are treated as in the rest of the queue.
  lemma RestTreated(q: seq<Sent>, now: nat, e: Sent)
    requires q != [] && q[0].tag != e.tag
    requires Treated(e, now, Swept(q[1..], now), Requeued(q[1..], now), Dropped(q[1..], now))
    ensures Treated(e, now, Swept(q, now), Requeued(q, now), Dropped(q, now))
  {
    var first, verdict := q[0], Judge(q[0], now);
    var kept0 := match verdict case Keep => [first] case Discard => [] case Again => [Resent(first)];
    var requeued0 := if verdict == Again then [ToSend(first.tag, first.ifc, first.shelf, true)] else [];
    var dropped0 := if verdict == Discard then [DropOf(first, now)] else [];
    TreatedAmongOthers(e, now, kept0, requeued0, dropped0, Swept(q[1..], now), Requeued(q[1..], now), Dropped(q[1..], now));
  }

  lemma {:induction false} EachTreated(q: seq<Sent>, now: nat, i: nat)
    requires DistinctSent(q) && i < |q|
    ensures Treated(q[i], now, Swept(q, now), Requeued(q, now), Dropped(q, now))
  {
    if i == 0 {
      FirstTreated(q, now);
    } else {
      EachTreated(q[1..], now, i - 1);
      RestTreated(q, now, q[i]);
    }
  }

  // A tick treats each packet on its own: one that is never resent or too old is gone; one
  // that is late is resent, once; and any other packet is left alone.
  lemma TickTreatsEach(s: Net, targets: nat, i: nat)
    requires QueuesOk(s) && i < |s.sent|
    ensures var e, s' := s.sent[i], Step(s, RetransmitTick(targets));
      if e.rtoUs == 0 || IsOld(e, s.h.clock) then
        && e.tag !in SentTags(s'.sent) && Count(s'.h.resent, e.tag) == Count(s.h.resent, e.tag)
        && Gone(e.tag, if e.rtoUs == 0 then NeverResent else TooOld, s.h.clock) in s'.h.gone
      else if IsLate(e, s.h.clock) then
        && SentAgain(e) in s'.sent && ToSend(e.tag, e.ifc, e.shelf, true) in s'.toSend
        && Count(s'.h.resent, e.tag) == Count(s.h.resent, e.tag) + 1
        && forall g :: g in s'.h.gone && g.tag == e.tag ==> g in s.h.gone
      else
        && e in s'.sent && Count(s'.h.resent, e.tag) == Count(s.h.resent, e.tag)
        && (forall t :: t in s'.toSend && t.tag == e.tag ==> t in s.toSend)
        && forall g :: g in s'.h.gone && g.tag == e.tag ==> g in s.h.gone
  {
    var e, s', now := s.sent[i], Step(s, RetransmitTick(targets)), s.h.clock;
    RetransmitSweeps(s, 0, false, targets);
    assert s.sent[0..] == s.sent && s.sent[..0] == [];
    assert s'.sent == Swept(s.sent, now);
    EachTreated(s.sent, now, i);
    CountConcat(s.h.resent, TagsOf(Requeued(s.sent, now)), e.tag);
    if e.rtoUs == 0 || IsOld(e, now) || !IsLate(e, now) { NoneCounted(Requeued(s.sent, now), e.tag); }
  }

  // ---- Why a packet is gone ----

  // What must hold of entry x in front of event e for it to leave for that reason.
  ghost predicate LeavesAs(x: Sent, e: Event, now: nat, fate: Fate) {
    match fate
    case Answered => e.Incoming? && e.response && e.tag == x.tag
    case TooOld => e.RetransmitTick? && x.rtoUs != 0 && IsOut(x) && now - x.timeFirst >= 60_000_000_500
    case NeverResent => e.RetransmitTick? && x.rtoUs == 0
    case PortDown => e.Disable? && x.ifc == e.port
  }

  ghost predicate Accounted(q: seq<Sent>, e: Event, now: nat, g: Gone) {
    g.at == now && exists i :: 0 <= i < |q| && q[i].tag == g.tag && LeavesAs(q[i], e, now, g.fate)
  }

  lemma {:induction false} DroppedAccounted(q: seq<Sent>, now: nat, targets: nat)
    ensures forall g :: g in Dropped(q, now) ==> Accounted(q, RetransmitTick(targets), now, g)
  {
    if q != [] {
      DroppedAccounted(q[1..], now, targets);
      VerdictIff(q[0], now);
      forall g | g in Dropped(q, now) ensures Accounted(q, RetransmitTick(targets), now, g) {
        if g in Dropped(q[1..], now) {
          var i :| 0 <= i < |q[1..]| && q[1..][i].tag == g.tag && LeavesAs(q[1..][i], RetransmitTick(targets), now, g.fate);
          assert q[i + 1] == q[1..][i];
        } else {
          assert LeavesAs(q[0], RetransmitTick(targets), now, g.fate);
        }
      }
    }
  }

  lemma {:induction false} PurgedAccounted(ps: Ports, q: seq<Sent>, n: nat, now: nat)
    requires forall i :: 0 <= i < |q| && q[i].ifc != n ==> Used(ps, q[i].ifc)
    ensures forall g :: g in PurgedSent(ps, q, now) ==> Accounted(q, Disable(n), now, g)
  {
    if q != [] {
      PurgedAccounted(ps, q[1..], n, now);
      forall g | g in PurgedSent(ps, q, now) ensures Accounted(q, Disable(n), now, g) {
        if g in PurgedSent(ps, q[1..], now) {
          var i :| 0 <= i < |q[1..]| && q[1..][i].tag == g.tag && LeavesAs(q[1..][i], Disable(n), now, g.fate);
          assert q[i + 1] == q[1..][i];
        } else {
          assert LeavesAs(q[0], Disable(n), now, g.fate);
        }
      }
    }
  }

  // Every event: whatever it takes out of the sent queue had an entry there, with the reason
  // that the history gives.
  lemma GoneForAReason(s: Net, e: Event)
    requires QueuesOk(s) && Conserved(s)
    ensures |Step(s, e).h.gone| >= |s.h.gone| && Step(s, e).h.gone[..|s.h.gone|] == s.h.gone
    ensures forall g :: g in Step(s, e).h.gone[|s.h.gone|..] ==> Accounted(s.sent, e, s.h.clock, g)
  {
    StepConserves(s, e);
    assert Step(s, e).h.gone[|s.h.gone|..] == NewlyGone(s, e);
    match e
    case RetransmitTick(targets) => DroppedAccounted(s.sent, s.h.clock, targets);
    case Disable(n) =>
      var ps := DisconnectPort(s.ports, n);
      forall i | 0 <= i < |s.sent| && s.sent[i].ifc != n ensures Used(ps, s.sent[i].ifc) {
        assert EntryOk(s, s.sent[i]);
      }
      PurgedAccounted(ps, s.sent, n, s.h.clock);
    case Incoming(tag, response, _, _) =>
      if response && FindSent(s.sent, tag) >= 0 {
        assert LeavesAs(s.sent[FindSent(s.sent, tag)], e, s.h.clock, Answered);
      }
    case _ =>
  }
}
