/** A run in which the reply to an identify is counted for a block (AoE/AoEController.cpp,
    send_identify and ata_response). */
module ForeignReply {
  import opened Wire
  import opened Transport
  import opened TagGenerator
  import opened Scenarios
  import opened Blocks
  import opened Replies
  import opened WriteReport
  import opened EndToEnd

  // The driver asks the target to identify itself (tag 2), then issues a block of two frames
  // (tags 3 and 4). Two replies come in, to the identify and to the first frame.
  lemma IdentifyIsAnsweredFirst()
    ensures exists s :: (Reached(s) && {2, 3, 4} <= Tags(s.h.accepted)
                         && AtaReplies(s.h.dispatched, 7, 0) == [TagAt(1), TagAt(2)])
  {
    var s4 := ThreeAccepted();
    var s6 := OutAndBack(s4, 5, 0, 1);
    var s := OutAndBack(s6, 5, 0, 2);
    TwoReplies(s.h.dispatched);
  }

  lemma ThreeAccepted() returns (s: Net)
    ensures OnTheWay(s, 5, s.h.clock) && Up(s, 0, 0, 1) && s.h.dispatched == []
    ensures s.toSend == [ToSend(2, 0, 7, false), ToSend(3, 0, 7, false), ToSend(4, 0, 7, false)]
    ensures |s.sent| == 3 && forall i :: 0 <= i < 3 ==> s.sent[i].tag == 2 + i && s.sent[i].ifc == 0 && !s.sent[i].retrans
    ensures Tags(s.h.accepted) == {2, 3, 4}
  {
    var s3 := TwoAccepted();
    s := IsAccepted(s3, 4, 0);
  }

  lemma TwoAccepted() returns (s: Net)
    ensures OnTheWay(s, 4, s.h.clock) && Up(s, 0, 0, 1) && s.h.dispatched == []
    ensures s.toSend == [ToSend(2, 0, 7, false), ToSend(3, 0, 7, false)]
    ensures |s.sent| == 2 && forall i :: 0 <= i < 2 ==> s.sent[i].tag == 2 + i && s.sent[i].ifc == 0 && !s.sent[i].retrans
    ensures Tags(s.h.accepted) == {2, 3}
  {
    AtStart(2);
    var s1 := ComesUp(InitialNet(), 2, 0);
    var s2 := IsAccepted(s1, 2, 0);
    s := IsAccepted(s2, 3, 0);
    assert Tags([]) == {};
  }

  lemma TwoReplies(rs: seq<Response>)
    requires rs == [Response(2, AtaCommand(7, 0)), Response(3, AtaCommand(7, 0))]
    ensures AtaReplies(rs, 7, 0) == [2, 3]
  {
    var one := rs[..1];
    assert one == [Response(2, AtaCommand(7, 0))] && one[..0] == [];
    assert AtaReplies(one[..0], 7, 0) == [];
    assert AtaReplies(one, 7, 0) == [2];
  }

  // The block of that run.
  predicate TwoFrames(b: Block) {
    b.call == 1 && b.n == 2 && b.s == 1
  }

  lemma NotAllAnswered(b: Block)
    requires TwoFrames(b)
    ensures Requests(b.n, b.s) == 2 && !AllAnswered(b, [TagAt(1), TagAt(2)]) && !Own(b, TagAt(1))
  {
    RequestsRoundsUp(2, 1);
    assert FrameTag(b, 1) !in [TagAt(1), TagAt(2)];
  }

  function Ready(): Ack {
    Ack(0x50, 0)
  }

  // A read then completes, with the byte count and one interrupt, and the second sector of the
  // caller's buffer never stored.
  lemma ReadMissesSector(b: Block, u: Setup, d: Disk, t: Transfer, room: nat, x: seq<byte>, c: Chain)
    requires TwoFrames(b) && ReadOk(b, u) && OnDisk(b, d) && |t.buffer| == 2 * SECTOR
    requires t.actual == 0 && t.required == Requests(b.n, b.s)
    requires room >= SECTOR && |x| == SECTOR && GoodReply(b, u, d, Reply(0, room, c))
    ensures var end := ReadAll(t, u, Taken(u, [AtaReply(TagAt(1), room, Ready(), Chain(x, [])), AtaReply(TagAt(2), room, Ready(), c)]));
      && end.actual == u.bytes && end.required == 0 && end.phase == Status && end.interrupts == t.interrupts + 1
      && |end.buffer| == |t.buffer| && end.buffer[SECTOR..] == t.buffer[SECTOR..]
  {
    NotAllAnswered(b);
    var arrivals := Taken(u, [AtaReply(TagAt(1), room, Ready(), Chain(x, [])), AtaReply(TagAt(2), room, Ready(), c)]);
    var v := u.(room := room);
    var first := ReadAt(t, v, arrivals[0].pos, arrivals[0].chain);
    assert arrivals[..1][..0] == [];
    assert ReadAll(t, u, arrivals[..1]) == first;
    assert ReadAll(t, u, arrivals) == ReadAt(first, v, arrivals[1].pos, arrivals[1].chain);
    ForeignIsCounted(t, v, x);
    OwnIsStored(b, v, d, first, c);
  }

  lemma FarOff()
    ensures Position(TagAt(1), TagAt(2), SECTOR) == 0x1_0000_0000 - SECTOR
  {
    assert TagAt(1) == 2 && TagAt(2) == 3;
    assert (2 - 3) % 0x1_0000_0000 == 0xFFFF_FFFF;
  }

  // Its position lies far behind the buffer, but its bytes are counted.
  lemma ForeignIsCounted(t: Transfer, u: Setup, x: seq<byte>)
    requires u.bytes == 2 * SECTOR && u.chunk == SECTOR <= u.room && u.base == TagAt(2)
    requires |t.buffer| == 2 * SECTOR && t.actual == 0 && t.required == 2 && |x| == SECTOR
    ensures ReadAt(t, u, Position(TagAt(1), u.base, u.chunk), Chain(x, []))
         == Transfer(t.buffer, SECTOR, 1, DataTx, t.interrupts)
  {
    FarOff();
    assert BytesOf(Chain(x, [])) == x;
    ChainAccepted(u, u.bytes, Chain(x, []));
    StoredIsStore(t.buffer, t.buffer, 0x1_0000_0000 - SECTOR, x);
  }

  lemma OwnIsStored(b: Block, u: Setup, d: Disk, t: Transfer, c: Chain)
    requires TwoFrames(b) && ReadOk(b, u) && OnDisk(b, d) && |t.buffer| == 2 * SECTOR
    requires t.actual == SECTOR && t.required == 1 && Requests(b.n, b.s) == 2
    requires u.room >= SECTOR && GoodReply(b, u, d, Reply(0, u.room, c))
    ensures var end := ReadAt(t, u, Position(TagAt(2), u.base, u.chunk), c);
      && end.actual == u.bytes && end.required == 0 && end.phase == Status && end.interrupts == t.interrupts + 1
      && |end.buffer| == |t.buffer| && end.buffer[SECTOR..] == t.buffer[SECTOR..]
  {
    FramePosition(b, u, 0);
    Tiling(b.n, b.s, 0);
    GoodReplyStores(t, b, u, d, Reply(0, u.room, c));
    ExecuteIsSplice(t.buffer, AsWrite(b, d), 0);
  }

  // A write completes with its second sector not on the disk.
  lemma WriteMissesSector(b: Block, d: Disk, acks: seq<Ack>)
    requires TwoFrames(b) && WriteOk(b) && OnDisk(b, d) && |acks| == 2
    requires forall i :: 0 <= i < Requests(b.n, b.s) ==> DataOf(b, i) != Part(d, b, i)
    ensures WriteReplies(Pending(Requests(b.n, b.s), 0, 0), acks).required == 0
    ensures CarriedOut(b, [TagAt(1), TagAt(2)], [0]) && Deliver(b.to, d, Frames(b), [0]) != Splice(d, SECTOR * b.lba, b.data)
  {
    FirstCarriedOut(b);
    OneLessEachReply(Pending(2, 0, 0), acks);
    SecondNotThere(b, d);
  }

  lemma FirstCarriedOut(b: Block)
    requires TwoFrames(b)
    ensures Requests(b.n, b.s) == 2 && CarriedOut(b, [TagAt(1), TagAt(2)], [0])
  {
    NotAllAnswered(b);
    assert FrameTag(b, 1) !in [TagAt(1), TagAt(2)];
  }

  lemma SecondNotThere(b: Block, d: Disk)
    requires WriteOk(b) && OnDisk(b, d) && Requests(b.n, b.s) == 2 && DataOf(b, 1) != Part(d, b, 1)
    ensures Deliver(b.to, d, Frames(b), [0]) != Splice(d, SECTOR * b.lba, b.data)
  {
    NotDelivered(b, d, [0], 1);
    PartOfGoal(b, d, 1);
  }

  // A read of three frames of two sectors each, when the room in a frame has grown to 17
  // sectors: a foreign reply with as many bytes as the whole block, then an own one. The command
  // completes with that one, a reply early, and nothing of it is stored.
  lemma ForeignCompletesEarly(b: Block, u: Setup, t: Transfer, tag: nat, x: seq<byte>, c: Chain)
    requires b.n == 6 && b.s == 2 && ReadOk(b, u) && t.actual == 0 && t.required == Requests(b.n, b.s)
    requires |x| == 6 * SECTOR && !Own(b, tag)
    requires forall m :: 0 <= m < |c.rest| ==> |c.rest[m]| <= u.unit
    ensures var replies := [AtaReply(tag, 17 * SECTOR, Ready(), Chain(x, [])), AtaReply(FrameTag(b, 0), 17 * SECTOR, Ready(), c)];
      var end := ReadAll(t, u, Taken(u, replies));
      && JustCompleted(u, t, replies) && end.required == 1 && end.phase == Status && end.interrupts == t.interrupts + 1
      && end.buffer == ReadAll(t, u, Taken(u, replies[..1])).buffer
  {
    RequestsRoundsUp(6, 2);
    var replies := [AtaReply(tag, 17 * SECTOR, Ready(), Chain(x, [])), AtaReply(FrameTag(b, 0), 17 * SECTOR, Ready(), c)];
    var arrivals := Taken(u, replies);
    assert arrivals[..1] == Taken(u, replies[..1]) && arrivals[..1][..0] == [];
    assert BytesOf(Chain(x, [])) == x;
    assert Offered(arrivals[..1]) == 6 * SECTOR;
    UsualPrefix(u, arrivals);
    InterruptIff(t, u, arrivals[..1]);
    InterruptIff(t, u, arrivals);
    ActualIsOffered(t, u, arrivals);
  }
}
