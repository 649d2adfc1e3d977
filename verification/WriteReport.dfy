/** What a write or a read reports once its replies are in (AoE/AoEController.cpp, ata_response
    and asyncStatus). */
module WriteReport {

  // The bookkeeping of a write: replies still to come, and the status and error byte kept.
  datatype Pending = Pending(required: int, status: nat, error: nat)

  // mATAError
  predicate Failed(status: nat) {
    status % 2 == 1
  }

  datatype Ack = Ack(status: nat, error: nat)

  // Whether the reply is the last one is `required == 0` in the result.
  function WriteReply(p: Pending, a: Ack): Pending {
    var q := p.(required := p.required - 1);
    if q.required != 0 && p.status == 0 && p.error == 0 then
      q.(status := a.status, error := if Failed(a.status) then a.error else 0)
    else q
  }

  function WriteReplies(p: Pending, rs: seq<Ack>): Pending
    decreases |rs|
  {
    if rs == [] then p else WriteReplies(WriteReply(p, rs[0]), rs[1..])
  }

  // asyncStatus: whether the command ends with kATADeviceError.
  predicate Reports(p: Pending, last: Ack) {
    Failed(last.status) || (Failed(p.status) && p.error != 0)
  }

  // The first reply but the last one with a non-zero status, at position j.
  ghost predicate FirstMark(rs: seq<Ack>, j: int) {
    0 <= j && j + 1 < |rs| && rs[j].status != 0 && forall k :: 0 <= k < j ==> rs[k].status == 0
  }

  ghost predicate MarkReported(rs: seq<Ack>) {
    exists j :: FirstMark(rs, j) && Failed(rs[j].status) && rs[j].error != 0
  }

  lemma {:induction false} KeptFromFirstMark(p: Pending, rs: seq<Ack>)
    requires rs != [] && p.required == |rs|
    ensures WriteReplies(p, rs).required == 0
    ensures p.status != 0 ==> WriteReplies(p, rs) == p.(required := 0)
    ensures p.status == 0 && p.error == 0 ==>
      var q := WriteReplies(p, rs);
      Failed(q.status) && q.error != 0 <==> MarkReported(rs)
    decreases |rs|
  {
    var rest := rs[1..];
    if rest != [] {
      KeptFromFirstMark(WriteReply(p, rs[0]), rest);
      if p.status == 0 && p.error == 0 {
        if rs[0].status != 0 {
          assert FirstMark(rs, 0);
          assert forall j :: FirstMark(rs, j) ==> j == 0;
        } else {
          MarkShift(rs);
        }
      }
    }
  }

  lemma MarkShift(rs: seq<Ack>)
    requires |rs| > 1 && rs[0].status == 0
    ensures MarkReported(rs) <==> MarkReported(rs[1..])
  {
    var rest := rs[1..];
    if MarkReported(rs) {
      var j :| FirstMark(rs, j) && Failed(rs[j].status) && rs[j].error != 0;
      assert rest[j - 1] == rs[j];
      assert FirstMark(rest, j - 1);
    }
    if MarkReported(rest) {
      var j :| FirstMark(rest, j) && Failed(rest[j].status) && rest[j].error != 0;
      assert rs[j + 1] == rest[j];
      assert FirstMark(rs, j + 1);
    }
  }

  // A write reports an error exactly when its last reply failed, or the first earlier reply
  // with a non-zero status failed with a non-zero error byte.
  lemma WriteOutcome(rs: seq<Ack>)
    requires rs != []
    ensures var p := WriteReplies(Pending(|rs|, 0, 0), rs);
      && p.required == 0
      && (Reports(p, rs[|rs| - 1]) <==> Failed(rs[|rs| - 1].status) || MarkReported(rs))
  {
    KeptFromFirstMark(Pending(|rs|, 0, 0), rs);
  }

  ghost predicate SomeFailed(rs: seq<Ack>) {
    exists j :: 0 <= j < |rs| && Failed(rs[j].status)
  }

  // So an error that happened is reported exactly unless it is hidden: the last reply
  // succeeded and the first marked one is a success, or has no error byte.
  lemma ReportedIffNotHidden(rs: seq<Ack>)
    requires rs != [] && SomeFailed(rs)
    ensures var p := WriteReplies(Pending(|rs|, 0, 0), rs);
      !Reports(p, rs[|rs| - 1]) <==>
        !Failed(rs[|rs| - 1].status)
        && exists j :: FirstMark(rs, j) && (Failed(rs[j].status) ==> rs[j].error == 0)
  {
    WriteOutcome(rs);
    var j :| 0 <= j < |rs| && Failed(rs[j].status);
    if !Failed(rs[|rs| - 1].status) {
      var m := LeastMark(rs, j);
      assert forall k :: FirstMark(rs, k) ==> k == m;
    }
  }

  lemma {:induction false} LeastMark(rs: seq<Ack>, j: nat) returns (m: nat)
    requires j + 1 < |rs| && rs[j].status != 0
    ensures m <= j && FirstMark(rs, m)
    decreases j
  {
    if k :| 0 <= k < j && rs[k].status != 0 {
      m := LeastMark(rs, k);
    } else {
      m := j;
    }
  }

  // With zero as the only status of success and an error byte on every failure, a write
  // reports an error exactly when some part of it failed.
  lemma HonestTargets(rs: seq<Ack>)
    requires rs != []
    requires forall j :: 0 <= j < |rs| ==>
      if Failed(rs[j].status) then rs[j].error != 0 else rs[j].status == 0
    ensures var p := WriteReplies(Pending(|rs|, 0, 0), rs);
      Reports(p, rs[|rs| - 1]) <==> SomeFailed(rs)
  {
    WriteOutcome(rs);
    if SomeFailed(rs) {
      ReportedIffNotHidden(rs);
    }
  }

  // A target that answers 0x40 (ready) on success can hide a failure: ready, failed, ready.
  lemma ReadyStatusHidesFailure()
    ensures var rs := [Ack(0x40, 0), Ack(0x41, 4), Ack(0x40, 0)];
      SomeFailed(rs) && !Reports(WriteReplies(Pending(3, 0, 0), rs), rs[2])
  {
    var rs := [Ack(0x40, 0), Ack(0x41, 4), Ack(0x40, 0)];
    assert Failed(rs[1].status);
    assert FirstMark(rs, 0);
    ReportedIffNotHidden(rs);
  }

  // ---- Reads ----

  // A reply to a read keeps no status: what an earlier command has left stays.
  function ReadAck(p: Pending): Pending {
    p.(required := p.required - 1)
  }

  function ReadAcks(p: Pending, rs: seq<Ack>): Pending
    decreases |rs|
  {
    if rs == [] then p else ReadAcks(ReadAck(p), rs[1..])
  }

  lemma {:induction false} ReadsKeepMark(p: Pending, rs: seq<Ack>)
    ensures ReadAcks(p, rs) == p.(required := p.required - |rs|)
    decreases |rs|
  {
    if rs != [] { ReadsKeepMark(ReadAck(p), rs[1..]); }
  }

  // What an earlier command has left counts as a failure.
  predicate Marked(p: Pending) {
    Failed(p.status) && p.error != 0
  }

  // A read reports an error exactly when its last reply failed or it found such a mark. So it
  // reports what happened if and only if the last reply failed, or there is a mark just when
  // some reply failed.
  lemma ReadOutcome(p: Pending, rs: seq<Ack>)
    requires rs != [] && p.required == |rs|
    ensures var q, last := ReadAcks(p, rs), rs[|rs| - 1];
      && q.required == 0
      && (Reports(q, last) <==> Failed(last.status) || Marked(p))
      && ((Reports(q, last) <==> SomeFailed(rs)) <==> (Failed(last.status) || Marked(p) == SomeFailed(rs)))
  {
    ReadsKeepMark(p, rs);
  }

  // So a failure before the last reply goes unreported: failed, ready.
  lemma EarlyFailureIsHidden()
    ensures var rs := [Ack(0x51, 4), Ack(0x50, 0)];
      SomeFailed(rs) && !Reports(ReadAcks(Pending(2, 0, 0), rs), rs[1])
  {
    var rs := [Ack(0x51, 4), Ack(0x50, 0)];
    assert Failed(rs[0].status);
    ReadOutcome(Pending(2, 0, 0), rs);
  }

  // The first reply with a non-zero status is a failure with an error byte.
  ghost predicate KeepsFailure(rs: seq<Ack>) {
    exists j :: 0 <= j < |rs| && rs[j].status != 0 && (forall k :: 0 <= k < j ==> rs[k].status == 0)
                && Failed(rs[j].status) && rs[j].error != 0
  }

  // A write that is cancelled while replies are missing leaves its mark behind.
  lemma {:induction false} CancelledWriteMarks(p: Pending, rs: seq<Ack>)
    requires p.required > |rs|
    ensures p.status != 0 ==> WriteReplies(p, rs) == p.(required := p.required - |rs|)
    ensures p.status == 0 && p.error == 0 ==> (Marked(WriteReplies(p, rs)) <==> KeepsFailure(rs))
    decreases |rs|
  {
    if rs != [] {
      CancelledWriteMarks(WriteReply(p, rs[0]), rs[1..]);
      if p.status == 0 && p.error == 0 { KeepsShift(rs); }
    }
  }

  lemma KeepsShift(rs: seq<Ack>)
    requires rs != []
    ensures rs[0].status != 0 ==> (KeepsFailure(rs) <==> Failed(rs[0].status) && rs[0].error != 0)
    ensures rs[0].status == 0 ==> (KeepsFailure(rs) <==> KeepsFailure(rs[1..]))
  {
    var rest := rs[1..];
    if rs[0].status == 0 && KeepsFailure(rs) {
      var j :| 0 <= j < |rs| && rs[j].status != 0 && (forall k :: 0 <= k < j ==> rs[k].status == 0)
               && Failed(rs[j].status) && rs[j].error != 0;
      assert rest[j - 1] == rs[j];
    }
    if rs[0].status == 0 && KeepsFailure(rest) {
      var j :| 0 <= j < |rest| && rest[j].status != 0 && (forall k :: 0 <= k < j ==> rest[k].status == 0)
               && Failed(rest[j].status) && rest[j].error != 0;
      assert rs[j + 1] == rest[j];
    }
  }

  // The next read, all of whose replies are good, then reports an error exactly if the
  // replies to the cancelled write began with a failure.
  lemma GoodReadAfterCancelledWrite(n: nat, ws: seq<Ack>, rs: seq<Ack>)
    requires |ws| < n && rs != [] && !SomeFailed(rs)
    ensures var p := WriteReplies(Pending(n, 0, 0), ws);
      Reports(ReadAcks(p.(required := |rs|), rs), rs[|rs| - 1]) <==> KeepsFailure(ws)
  {
    CancelledWriteMarks(Pending(n, 0, 0), ws);
    ReadOutcome(WriteReplies(Pending(n, 0, 0), ws).(required := |rs|), rs);
    assert !Failed(rs[|rs| - 1].status);
  }
}
