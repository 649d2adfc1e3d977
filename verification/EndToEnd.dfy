/** Blocks over the transport: what the two cores give together. A controller takes every ATA
    reply of its target for one to its command, whatever the tag (AoE/AoEController.cpp,
    ata_response). */
module EndToEnd {
  import opened Common
  import opened Wire
  import opened Transport
  import opened Dispatch
  import opened TagGenerator
  import opened Blocks
  import opened Interleaved
  import opened FrameSize
  import opened Replies
  import opened WriteReport

  // ---- The replies that a controller is given ----

  // Tags of the ATA replies that the target in this shelf and slot sent, in order.
  function AtaReplies(rs: seq<Response>, shelf: nat, slot: nat): seq<nat>
    decreases |rs|
  {
    if rs == [] then []
    else
      var last := rs[|rs| - 1];
      AtaReplies(rs[..|rs| - 1], shelf, slot) + (if last.command == AtaCommand(shelf, slot) then [last.tag] else [])
  }

  // `tags` are those of the first replies given to the controller in the run, once `from`
  // responses had been handed over.
  ghost predicate Given(ts: seq<Timed>, from: nat, shelf: nat, slot: nat, tags: seq<nat>) {
    var dispatched := Run(InitialNet(), ts).h.dispatched;
    from <= |dispatched| && tags <= AtaReplies(dispatched[from..], shelf, slot)
  }

  // No unicast tag comes twice.
  ghost predicate UnicastOnce(tags: seq<nat>) {
    forall i, j :: 0 <= i < j < |tags| && Unicast(tags[i]) ==> tags[i] != tags[j]
  }

  lemma {:induction false} AtaRepliesAmong(rs: seq<Response>, shelf: nat, slot: nat, x: nat)
    requires x in AtaReplies(rs, shelf, slot)
    ensures exists i :: 0 <= i < |rs| && rs[i].tag == x
    decreases |rs|
  {
    var n := |rs| - 1;
    if x in AtaReplies(rs[..n], shelf, slot) {
      AtaRepliesAmong(rs[..n], shelf, slot, x);
      var i :| 0 <= i < n && rs[..n][i].tag == x;
      assert rs[i].tag == x;
    } else {
      assert rs[n].tag == x;
    }
  }

  lemma {:induction false} AtaRepliesOnce(rs: seq<Response>, shelf: nat, slot: nat)
    requires UnicastsDiffer(rs)
    ensures UnicastOnce(AtaReplies(rs, shelf, slot))
    decreases |rs|
  {
    if rs != [] {
      var n := |rs| - 1;
      AtaRepliesOnce(rs[..n], shelf, slot);
      var before := AtaReplies(rs[..n], shelf, slot);
      forall i | 0 <= i < |before| && Unicast(before[i]) ensures before[i] != rs[n].tag {
        AtaRepliesAmong(rs[..n], shelf, slot, before[i]);
      }
    }
  }

  // At-most-once dispatch: no unicast packet is answered twice, whatever the network
  // duplicates and the service resends.
  lemma AnsweredOnce(ts: seq<Timed>, from: nat, shelf: nat, slot: nat, tags: seq<nat>)
    requires LegalRun(InitialNet(), ts) && Given(ts, from, shelf, slot, tags)
    ensures UnicastOnce(tags)
  {
    var dispatched := Run(InitialNet(), ts).h.dispatched;
    AtMostOnce(ts);
    var rs := dispatched[from..];
    AtaRepliesOnce(rs, shelf, slot);
    var all := AtaReplies(rs, shelf, slot);
    forall i, j | 0 <= i < j < |tags| && Unicast(tags[i]) ensures tags[i] != tags[j] {
      assert tags[i] == all[i] && tags[j] == all[j];
    }
  }

  // ---- Own and foreign replies ----

  function FrameTag(b: Block, i: nat): nat {
    TagAt(b.call + 1 + i)
  }

  ghost predicate Answers(b: Block, i: nat, tag: nat)
    requires b.s > 0
  {
    i < Requests(b.n, b.s) && tag == FrameTag(b, i)
  }

  // The tag of one of the block's frames.
  ghost predicate Own(b: Block, tag: nat)
    requires b.s > 0
  {
    exists i: nat :: Answers(b, i, tag)
  }

  ghost predicate NoForeign(b: Block, tags: seq<nat>)
    requires b.s > 0
  {
    forall j :: 0 <= j < |tags| ==> Own(b, tags[j])
  }

  ghost predicate AllAnswered(b: Block, tags: seq<nat>)
    requires b.s > 0
  {
    forall i :: 0 <= i < Requests(b.n, b.s) ==> FrameTag(b, i) in tags
  }

  ghost function FrameOf(b: Block, tag: nat): (i: nat)
    requires b.s > 0 && Own(b, tag)
    ensures Answers(b, i, tag)
  {
    var i: nat :| Answers(b, i, tag);
    i
  }

  // The frames that own replies answer are all different.
  lemma OwnFrames(b: Block, tags: seq<nat>) returns (frames: seq<nat>)
    requires b.s > 0 && UnicastOnce(tags) && NoForeign(b, tags)
    ensures |frames| == |tags| && Distinct(frames)
    ensures forall j :: 0 <= j < |tags| ==> Answers(b, frames[j], tags[j])
  {
    frames := seq(|tags|, j requires 0 <= j < |tags| => FrameOf(b, tags[j]));
    forall i, j | 0 <= i < j < |tags| ensures frames[i] != frames[j] {
      TagShape(b.call + 1 + frames[i]);
      assert Answers(b, frames[i], tags[i]) && Answers(b, frames[j], tags[j]);
    }
  }

  lemma OwnReplyToEach(b: Block, tags: seq<nat>)
    requires b.s > 0 && UnicastOnce(tags) && NoForeign(b, tags) && |tags| == Requests(b.n, b.s)
    ensures AllAnswered(b, tags)
  {
    var frames := OwnFrames(b, tags);
    forall i | 0 <= i < Requests(b.n, b.s) ensures FrameTag(b, i) in tags {
      AllPresent(frames, Requests(b.n, b.s), i);
      var j :| 0 <= j < |frames| && frames[j] == i;
      assert Answers(b, frames[j], tags[j]) && tags[j] == FrameTag(b, i);
    }
  }

  lemma ForeignReplyCrowdsOut(b: Block, tags: seq<nat>, j: nat)
    requires b.s > 0 && |tags| == Requests(b.n, b.s) <= TAG_PERIOD && j < |tags| && !Own(b, tags[j])
    ensures !AllAnswered(b, tags)
  {
    if AllAnswered(b, tags) {
      var n := Requests(b.n, b.s);
      var at := PlacesOf(b, tags, n);
      var all := at + [j];
      forall i | 0 <= i < n ensures at[i] != j {
        assert Answers(b, i, tags[at[i]]);
      }
      Pigeonhole(all, n);
    }
  }

  // Where the first m frames of the block are answered.
  lemma {:induction false} PlacesOf(b: Block, tags: seq<nat>, m: nat) returns (at: seq<nat>)
    requires b.s > 0 && m <= Requests(b.n, b.s) <= TAG_PERIOD && AllAnswered(b, tags)
    ensures |at| == m && Distinct(at)
    ensures forall i :: 0 <= i < m ==> at[i] < |tags| && tags[at[i]] == FrameTag(b, i)
    decreases m
  {
    if m == 0 {
      at := [];
    } else {
      at := PlacesOf(b, tags, m - 1);
      var j :| 0 <= j < |tags| && tags[j] == FrameTag(b, m - 1);
      forall i | 0 <= i < m - 1 ensures at[i] != j {
        TagsDiffer(b.call + 1 + i, b.call + 1 + (m - 1));
      }
      at := at + [j];
    }
  }

  // As many replies as a block has frames complete it. They answer all its frames if and only
  // if none of them is a reply to something else.
  lemma AllAnsweredIffNoForeign(ts: seq<Timed>, from: nat, shelf: nat, slot: nat, b: Block, tags: seq<nat>)
    requires LegalRun(InitialNet(), ts) && Given(ts, from, shelf, slot, tags)
    requires b.s > 0 && |tags| == Requests(b.n, b.s) <= TAG_PERIOD
    ensures AllAnswered(b, tags) <==> NoForeign(b, tags)
  {
    AnsweredOnce(ts, from, shelf, slot, tags);
    if NoForeign(b, tags) {
      OwnReplyToEach(b, tags);
    } else {
      var j :| 0 <= j < |tags| && !Own(b, tags[j]);
      ForeignReplyCrowdsOut(b, tags, j);
    }
  }

  // ---- Reads ----

  // An ATA reply as the controller gets it, with the bytes that a frame may carry by then.
  datatype AtaReply = AtaReply(tag: nat, room: nat, ack: Ack, chain: Chain)

  function AcksOf(replies: seq<AtaReply>): (acks: seq<Ack>)
    ensures |acks| == |replies| && forall j :: 0 <= j < |acks| ==> acks[j] == replies[j].ack
  {
    seq(|replies|, j requires 0 <= j < |replies| => replies[j].ack)
  }

  function TagsOf(replies: seq<AtaReply>): (tags: seq<nat>)
    ensures |tags| == |replies| && forall j :: 0 <= j < |tags| ==> tags[j] == replies[j].tag
  {
    seq(|replies|, j requires 0 <= j < |replies| => replies[j].tag)
  }

  function RoomsOf(replies: seq<AtaReply>): (rooms: seq<nat>)
    ensures |rooms| == |replies| && forall j :: 0 <= j < |rooms| ==> rooms[j] == replies[j].room
  {
    seq(|replies|, j requires 0 <= j < |replies| => replies[j].room)
  }

  // completeDataRead's limit for a frame with that MTU kept
  function RoomFor(mtu: nat): nat {
    SECTOR * CountSectorsFromMtu(mtu)
  }

  // The room there was for each of the ATA replies of the target.
  function AtaRooms(hs: seq<Heard>, shelf: nat, slot: nat): seq<nat>
    decreases |hs|
  {
    if hs == [] then []
    else
      var last := hs[|hs| - 1];
      AtaRooms(hs[..|hs| - 1], shelf, slot)
        + (if last.response.command == AtaCommand(shelf, slot) then [RoomFor(last.mtu)] else [])
  }

  // The replies given to the controller in the run, each with the room in force at the time;
  // `mtus` are the MTUs of the ports.
  ghost predicate GivenInRun(ts: seq<Timed>, mtus: seq<nat>, from: nat, shelf: nat, slot: nat, replies: seq<AtaReply>) {
    var heard := HeardRun(InitialNet(), ts, 0, mtus);
    && Given(ts, from, shelf, slot, TagsOf(replies))
    && from <= |heard| && RoomsOf(replies) <= AtaRooms(heard[from..], shelf, slot)
  }

  // All replies are taken, each at the position its tag gives.
  function Taken(u: Setup, replies: seq<AtaReply>): (arrivals: seq<Arrival>)
    ensures |arrivals| == |replies|
    ensures forall j :: 0 <= j < |replies| ==>
      arrivals[j] == Arrival(Position(replies[j].tag, u.base, u.chunk), replies[j].room, replies[j].chain)
  {
    seq(|replies|, j requires 0 <= j < |replies| =>
      Arrival(Position(replies[j].tag, u.base, u.chunk), replies[j].room, replies[j].chain))
  }

  // A target answers a frame of the block with the disk's bytes, or with an error and no data.
  ghost predicate Honest(b: Block, u: Setup, d: Disk, replies: seq<AtaReply>)
    requires BlockOk(b) && OnDisk(b, d)
  {
    forall j, i: nat :: 0 <= j < |replies| && Answers(b, i, replies[j].tag) ==> HonestReply(b, u, d, replies[j], i)
  }

  ghost predicate HonestReply(b: Block, u: Setup, d: Disk, r: AtaReply, i: nat)
    requires BlockOk(b) && OnDisk(b, d)
  {
    if Failed(r.ack.status) then |BytesOf(r.chain)| == 0 else GoodReply(b, u, d, Reply(i, r.room, r.chain))
  }

  // No reply to a frame of the block is an error.
  ghost predicate NoFailure(b: Block, replies: seq<AtaReply>)
    requires b.s > 0
  {
    forall j :: 0 <= j < |replies| && Own(b, replies[j].tag) ==> !Failed(replies[j].ack.status)
  }

  // There is room for each reply when it comes in.
  ghost predicate Roomy(b: Block, replies: seq<AtaReply>)
    requires b.s > 0
  {
    forall j, i: nat :: 0 <= j < |replies| && Answers(b, i, replies[j].tag) ==>
      SECTOR * SectorsIn(b.n, b.s, i) <= replies[j].room
  }

  // The replies with the frames they answer.
  lemma RepliesFor(b: Block, u: Setup, d: Disk, replies: seq<AtaReply>, frames: seq<nat>) returns (rs: seq<Reply>)
    requires ReadOk(b, u) && OnDisk(b, d) && Honest(b, u, d, replies) && |frames| == |replies|
    requires forall j :: 0 <= j < |replies| ==> Answers(b, frames[j], TagsOf(replies)[j])
    requires UnicastOnce(TagsOf(replies)) && Requests(b.n, b.s) <= TAG_PERIOD
    ensures |rs| == |replies| && FramesOf(rs) == frames
    ensures GoodOrNoData(b, u, d, rs)
    ensures forall j :: 0 <= j < |rs| ==> Taken(u, replies)[j] == Arrive(u, b.call, rs[j])
    ensures AllFit(b, rs) <==> Roomy(b, replies)
    ensures AllWhole(b, rs) <==> Roomy(b, replies) && NoFailure(b, replies)
    ensures NoFailure(b, replies) ==> forall j :: 0 <= j < |rs| ==> GoodReply(b, u, d, rs[j])
  {
    rs := seq(|replies|, j requires 0 <= j < |replies| => Reply(frames[j], replies[j].room, replies[j].chain));
    assert FramesOf(rs) == frames;
    forall j | 0 <= j < |rs|
      ensures Answers(b, frames[j], replies[j].tag) && HonestReply(b, u, d, replies[j], frames[j])
      ensures NoData(b, rs[j]) <==> Failed(replies[j].ack.status)
    {
      assert TagsOf(replies)[j] == replies[j].tag;
      NoDataIff(b, u, d, replies[j], frames[j]);
    }
    forall j | 0 <= j < |rs|
      ensures Fits(b, rs[j]) <==> forall i: nat :: Answers(b, i, replies[j].tag) ==> SECTOR * SectorsIn(b.n, b.s, i) <= replies[j].room
    {
      assert Answers(b, frames[j], TagsOf(replies)[j]);
      forall i: nat | Answers(b, i, replies[j].tag) ensures i == frames[j] {
        OneFrame(b, i, frames[j], replies[j].tag);
      }
    }
  }

  // A reply brings no data exactly if it reports an error.
  lemma NoDataIff(b: Block, u: Setup, d: Disk, r: AtaReply, i: nat)
    requires ReadOk(b, u) && OnDisk(b, d) && Answers(b, i, r.tag) && HonestReply(b, u, d, r, i)
    ensures var x := Reply(i, r.room, r.chain);
      NoData(b, x) <==> Failed(r.ack.status)
  {
    Tiling(b.n, b.s, i);
    if !Failed(r.ack.status) { ReplyIsPart(b, d, i); }
  }

  lemma OneFrame(b: Block, i: nat, j: nat, tag: nat)
    requires b.s > 0 && Requests(b.n, b.s) <= TAG_PERIOD && Answers(b, i, tag) && Answers(b, j, tag)
    ensures i == j
  {
    if i < j { TagsDiffer(b.call + 1 + i, b.call + 1 + j); }
    if j < i { TagsDiffer(b.call + 1 + j, b.call + 1 + i); }
  }

  // A block of reads has far fewer frames than there are tags.
  lemma FewFrames(b: Block, u: Setup)
    requires ReadOk(b, u)
    ensures Requests(b.n, b.s) <= TAG_PERIOD
  {
  }

  // A block read over any legal run of the transport is a plain read, if no foreign reply is
  // among those given to the controller from the issue to the completion, none reports an
  // error, and there is room for each reply when it comes in.
  lemma ReadOverTransport(ts: seq<Timed>, mtus: seq<nat>, from: nat, shelf: nat, slot: nat,
                          b: Block, u: Setup, d: Disk, t: Transfer, replies: seq<AtaReply>)
    requires LegalRun(InitialNet(), ts) && ReadOk(b, u) && GivenInRun(ts, mtus, from, shelf, slot, replies)
    requires OnDisk(b, d) && |t.buffer| >= SECTOR * b.n
    requires t.actual == 0 && t.required == Requests(b.n, b.s)
    requires Honest(b, u, d, replies) && NoForeign(b, TagsOf(replies)) && Roomy(b, replies) && NoFailure(b, replies)
    ensures ReadDone(b, u, d, t, |replies|, ReadAll(t, u, Taken(u, replies)))
  {
    FewFrames(b, u);
    AnsweredOnce(ts, from, shelf, slot, TagsOf(replies));
    var frames := OwnFrames(b, TagsOf(replies));
    var rs := RepliesFor(b, u, d, replies, frames);
    BlockReadIsRead(b, u, d, t, rs, Taken(u, replies));
  }

  // Own replies to all frames complete the command, whatever room there was: with the whole
  // byte count if and only if there was room for each and none reported an error.
  lemma CompleteIffRoomy(ts: seq<Timed>, mtus: seq<nat>, from: nat, shelf: nat, slot: nat,
                         b: Block, u: Setup, d: Disk, t: Transfer, replies: seq<AtaReply>)
    requires LegalRun(InitialNet(), ts) && ReadOk(b, u) && GivenInRun(ts, mtus, from, shelf, slot, replies)
    requires OnDisk(b, d) && |t.buffer| >= SECTOR * b.n
    requires t.actual == 0 && t.required == Requests(b.n, b.s) == |replies|
    requires Honest(b, u, d, replies) && NoForeign(b, TagsOf(replies))
    ensures var end := ReadAll(t, u, Taken(u, replies));
      && end.required == 0 && end.phase == Status && end.interrupts == t.interrupts + 1
      && (end.actual == u.bytes <==> Roomy(b, replies) && NoFailure(b, replies))
  {
    FewFrames(b, u);
    AnsweredOnce(ts, from, shelf, slot, TagsOf(replies));
    var frames := OwnFrames(b, TagsOf(replies));
    var rs := RepliesFor(b, u, d, replies, frames);
    ReadCompleteIff(b, u, d, t, rs, Taken(u, replies));
  }

  // ---- When there is room ----

  lemma {:induction false} RoomsAtLeast(hs: seq<Heard>, shelf: nat, slot: nat, size: nat)
    requires forall k :: 0 <= k < |hs| ==> RoomFor(hs[k].mtu) >= size
    ensures forall k :: 0 <= k < |AtaRooms(hs, shelf, slot)| ==> AtaRooms(hs, shelf, slot)[k] >= size
    decreases |hs|
  {
    if hs != [] { RoomsAtLeast(hs[..|hs| - 1], shelf, slot, size); }
  }

  lemma RoomForChunk(mtu: nat, s: nat)
    requires mtu >= BYTES_IN_AOE_HEADER
    ensures RoomFor(mtu) >= SECTOR * s <==> mtu >= BYTES_IN_AOE_HEADER + SECTOR * s
  {
  }

  // That can be seen from the outside: a block that fits the MTU kept at its issue, after the
  // run `before`, keeps its room if no port with an MTU too small for its frames comes up
  // until the last reply. FrameSize.MtuKeptIff is the exact condition for one event.
  lemma NoSmallPortIsRoomy(before: seq<Timed>, after: seq<Timed>, mtus: seq<nat>, shelf: nat, slot: nat,
                           b: Block, replies: seq<AtaReply>)
    requires LegalRun(InitialNet(), before + after) && Mtus(mtus) && BlockOk(b)
    requires GivenInRun(before + after, mtus, |HeardRun(InitialNet(), before, 0, mtus)|, shelf, slot, replies)
    requires MtuRun(InitialNet(), before, 0, mtus) >= BYTES_IN_AOE_HEADER + SECTOR * b.s
    requires forall i :: 0 <= i < |after| ==> !SmallPort(after[i].event, mtus, BYTES_IN_AOE_HEADER + SECTOR * b.s)
    ensures Roomy(b, replies)
  {
    HeardAfter(before, after, mtus, BYTES_IN_AOE_HEADER + SECTOR * b.s);
    var heard := HeardRun(InitialNet(), before + after, 0, mtus)[|HeardRun(InitialNet(), before, 0, mtus)|..];
    forall k | 0 <= k < |heard| ensures RoomFor(heard[k].mtu) >= SECTOR * b.s {
      RoomForChunk(heard[k].mtu, b.s);
    }
    RoomsAtLeast(heard, shelf, slot, SECTOR * b.s);
    RoomyRooms(b, replies, AtaRooms(heard, shelf, slot));
  }

  lemma RoomyRooms(b: Block, replies: seq<AtaReply>, rooms: seq<nat>)
    requires BlockOk(b) && RoomsOf(replies) <= rooms && forall k :: 0 <= k < |rooms| ==> rooms[k] >= SECTOR * b.s
    ensures Roomy(b, replies)
  {
    forall j, i: nat | 0 <= j < |replies| && Answers(b, i, replies[j].tag)
      ensures SECTOR * SectorsIn(b.n, b.s, i) <= replies[j].room
    {
      assert replies[j].room == RoomsOf(replies)[j] == rooms[j];
      Tiling(b.n, b.s, i);
    }
  }

  // ---- The data of a read, byte by byte ----

  // The disk's byte that belongs into the buffer at k.
  function DiskByte(b: Block, d: Disk, k: nat): byte
    requires OnDisk(b, d) && k < SECTOR * b.n
  {
    d[SECTOR * b.lba + k]
  }

  // The part of the buffer that frame i fills.
  predicate InPart(b: Block, i: nat, k: nat) {
    Offset(b, i) <= k < Offset(b, i) + SECTOR * SectorsIn(b.n, b.s, i)
  }

  // A foreign reply goes past the bytes of the block.
  ghost predicate ForeignMiss(b: Block, u: Setup, replies: seq<AtaReply>)
    requires b.s > 0
  {
    forall j :: 0 <= j < |replies| && !Own(b, replies[j].tag) ==> Position(replies[j].tag, u.base, u.chunk) >= u.bytes
  }

  lemma PartsApart(b: Block, i: nat, j: nat, k: nat)
    requires BlockOk(b) && i < Requests(b.n, b.s) && j < Requests(b.n, b.s) && InPart(b, i, k) && InPart(b, j, k)
    ensures i == j
  {
    Tiling(b.n, b.s, i);
    Tiling(b.n, b.s, j);
    MulOrder(i, j, b.s);
    MulOrder(j, i, b.s);
  }

  // An own reply stores nothing outside the part of its frame, and nothing past its room.
  lemma OwnTouches(b: Block, u: Setup, d: Disk, r: AtaReply, i: nat, k: nat)
    requires ReadOk(b, u) && OnDisk(b, d) && Answers(b, i, r.tag) && HonestReply(b, u, d, r, i)
    requires Touches(Arrival(Position(r.tag, u.base, u.chunk), r.room, r.chain), k)
    ensures InPart(b, i, k) && k < Offset(b, i) + r.room && !Failed(r.ack.status)
  {
    FramePosition(b, u, i);
    ReplyIsPart(b, d, i);
  }

  // The part of a frame that no reply answers stays as it was, if the foreign replies miss the
  // block.
  lemma UnansweredStays(b: Block, u: Setup, d: Disk, t: Transfer, replies: seq<AtaReply>, i: nat, k: nat)
    requires ReadOk(b, u) && OnDisk(b, d) && |t.buffer| >= SECTOR * b.n && Honest(b, u, d, replies)
    requires ForeignMiss(b, u, replies) && i < Requests(b.n, b.s) && InPart(b, i, k)
    requires FrameTag(b, i) !in TagsOf(replies)
    ensures var end := ReadAll(t, u, Taken(u, replies));
      k < SECTOR * b.n && |end.buffer| == |t.buffer| && end.buffer[k] == t.buffer[k]
  {
    Tiling(b.n, b.s, i);
    forall j | 0 <= j < |replies| ensures !Touches(Taken(u, replies)[j], k) {
      assert TagsOf(replies)[j] == replies[j].tag;
      if Touches(Taken(u, replies)[j], k) && Own(b, replies[j].tag) {
        var f := FrameOf(b, replies[j].tag);
        OwnTouches(b, u, d, replies[j], f, k);
        PartsApart(b, i, f, k);
      }
    }
    Untouched(t, u, Taken(u, replies), k);
  }

  // So does what lies past the room of a reply that was cut off, and all for one that failed.
  lemma CutOffStays(b: Block, u: Setup, d: Disk, t: Transfer, replies: seq<AtaReply>, m: nat, i: nat, k: nat)
    requires ReadOk(b, u) && OnDisk(b, d) && |t.buffer| >= SECTOR * b.n && Honest(b, u, d, replies)
    requires UnicastOnce(TagsOf(replies)) && ForeignMiss(b, u, replies)
    requires m < |replies| && Answers(b, i, replies[m].tag) && InPart(b, i, k)
    requires k >= Offset(b, i) + replies[m].room || Failed(replies[m].ack.status)
    ensures var end := ReadAll(t, u, Taken(u, replies));
      k < SECTOR * b.n && |end.buffer| == |t.buffer| && end.buffer[k] == t.buffer[k]
  {
    Tiling(b.n, b.s, i);
    forall j | 0 <= j < |replies| ensures !Touches(Taken(u, replies)[j], k) {
      if Touches(Taken(u, replies)[j], k) && Own(b, replies[j].tag) {
        var f := FrameOf(b, replies[j].tag);
        OwnTouches(b, u, d, replies[j], f, k);
        PartsApart(b, i, f, k);
        SameTag(b, replies, j, m, i);
      }
    }
    Untouched(t, u, Taken(u, replies), k);
  }

  lemma SameTag(b: Block, replies: seq<AtaReply>, j: nat, m: nat, i: nat)
    requires b.s > 0 && UnicastOnce(TagsOf(replies)) && j < |replies| && m < |replies|
    requires Answers(b, i, replies[j].tag) && Answers(b, i, replies[m].tag)
    ensures j == m
  {
    TagShape(b.call + 1 + i);
    assert TagsOf(replies)[j] == TagsOf(replies)[m] == FrameTag(b, i);
  }

  // The buffer begins with the disk's bytes.
  ghost predicate HoldsDisk(b: Block, d: Disk, buffer: seq<byte>)
    requires OnDisk(b, d)
  {
    |buffer| >= SECTOR * b.n && forall k :: 0 <= k < SECTOR * b.n ==> buffer[k] == DiskByte(b, d, k)
  }

  // The buffer differs from the disk in every byte.
  ghost predicate AllDiffer(b: Block, d: Disk, buffer: seq<byte>)
    requires OnDisk(b, d)
  {
    |buffer| >= SECTOR * b.n && forall k :: 0 <= k < SECTOR * b.n ==> buffer[k] != DiskByte(b, d, k)
  }

  lemma UnansweredSpoils(b: Block, u: Setup, d: Disk, t: Transfer, replies: seq<AtaReply>)
    requires ReadOk(b, u) && OnDisk(b, d) && AllDiffer(b, d, t.buffer) && Honest(b, u, d, replies)
    requires ForeignMiss(b, u, replies) && !AllAnswered(b, TagsOf(replies))
    ensures !HoldsDisk(b, d, ReadAll(t, u, Taken(u, replies)).buffer)
  {
    var i :| 0 <= i < Requests(b.n, b.s) && FrameTag(b, i) !in TagsOf(replies);
    Tiling(b.n, b.s, i);
    UnansweredStays(b, u, d, t, replies, i, Offset(b, i));
  }

  lemma CutOffSpoils(b: Block, u: Setup, d: Disk, t: Transfer, replies: seq<AtaReply>)
    requires ReadOk(b, u) && OnDisk(b, d) && AllDiffer(b, d, t.buffer) && Honest(b, u, d, replies)
    requires UnicastOnce(TagsOf(replies)) && ForeignMiss(b, u, replies) && !(Roomy(b, replies) && NoFailure(b, replies))
    ensures !HoldsDisk(b, d, ReadAll(t, u, Taken(u, replies)).buffer)
  {
    if !Roomy(b, replies) {
      var j, i: nat :| 0 <= j < |replies| && Answers(b, i, replies[j].tag)
        && SECTOR * SectorsIn(b.n, b.s, i) > replies[j].room;
      CutOffStays(b, u, d, t, replies, j, i, Offset(b, i) + replies[j].room);
    } else {
      var j :| 0 <= j < |replies| && Own(b, replies[j].tag) && Failed(replies[j].ack.status);
      var i := FrameOf(b, replies[j].tag);
      Tiling(b.n, b.s, i);
      CutOffStays(b, u, d, t, replies, j, i, Offset(b, i));
    }
  }

  lemma DoneHolds(b: Block, u: Setup, d: Disk, t: Transfer, end: Transfer)
    requires ReadOk(b, u) && OnDisk(b, d) && |t.buffer| >= SECTOR * b.n
    requires ReadDone(b, u, d, t, Requests(b.n, b.s), end)
    ensures HoldsDisk(b, d, end.buffer)
  {
    var x := d[SECTOR * b.lba..SECTOR * (b.lba + b.n)];
    forall k | 0 <= k < SECTOR * b.n ensures end.buffer[k] == DiskByte(b, d, k) {
      assert end.buffer[k] == x[k] == d[SECTOR * b.lba + k];
    }
  }

  // For a buffer that differs from the disk in every byte, and foreign replies whose data goes
  // past the block (ForeignMiss): after as many replies as frames it holds the disk's bytes if
  // and only if no reply was foreign, there was room for each, and none reported an error.
  lemma ReadIsReadIff(ts: seq<Timed>, mtus: seq<nat>, from: nat, shelf: nat, slot: nat,
                      b: Block, u: Setup, d: Disk, t: Transfer, replies: seq<AtaReply>)
    requires LegalRun(InitialNet(), ts) && ReadOk(b, u) && GivenInRun(ts, mtus, from, shelf, slot, replies)
    requires OnDisk(b, d) && AllDiffer(b, d, t.buffer)
    requires t.actual == 0 && t.required == Requests(b.n, b.s) == |replies|
    requires Honest(b, u, d, replies) && ForeignMiss(b, u, replies)
    ensures HoldsDisk(b, d, ReadAll(t, u, Taken(u, replies)).buffer)
       <==> NoForeign(b, TagsOf(replies)) && Roomy(b, replies) && NoFailure(b, replies)
  {
    FewFrames(b, u);
    AnsweredOnce(ts, from, shelf, slot, TagsOf(replies));
    AllAnsweredIffNoForeign(ts, from, shelf, slot, b, TagsOf(replies));
    if !NoForeign(b, TagsOf(replies)) {
      UnansweredSpoils(b, u, d, t, replies);
    } else if !(Roomy(b, replies) && NoFailure(b, replies)) {
      CutOffSpoils(b, u, d, t, replies);
    } else {
      ReadOverTransport(ts, mtus, from, shelf, slot, b, u, d, t, replies);
      DoneHolds(b, u, d, t, ReadAll(t, u, Taken(u, replies)));
    }
  }

  // What the command then reports, having found the bookkeeping `p`: if that is no error, the
  // buffer holds the disk's bytes if and only if no reply was foreign, there was room for each,
  // and no error was hidden (WriteReport.ReadOutcome).
  lemma SilentReadIff(ts: seq<Timed>, mtus: seq<nat>, from: nat, shelf: nat, slot: nat,
                      b: Block, u: Setup, d: Disk, t: Transfer, replies: seq<AtaReply>, p: Pending)
    requires LegalRun(InitialNet(), ts) && ReadOk(b, u) && GivenInRun(ts, mtus, from, shelf, slot, replies)
    requires OnDisk(b, d) && AllDiffer(b, d, t.buffer)
    requires t.actual == 0 && t.required == Requests(b.n, b.s) == |replies| == p.required && replies != []
    requires Honest(b, u, d, replies) && ForeignMiss(b, u, replies)
    requires !Reports(ReadAcks(p, AcksOf(replies)), replies[|replies| - 1].ack)
    ensures !Marked(p) && !Failed(replies[|replies| - 1].ack.status)
    ensures HoldsDisk(b, d, ReadAll(t, u, Taken(u, replies)).buffer)
       <==> NoForeign(b, TagsOf(replies)) && Roomy(b, replies) && !SomeFailed(AcksOf(replies))
  {
    ReadOutcome(p, AcksOf(replies));
    ReadIsReadIff(ts, mtus, from, shelf, slot, b, u, d, t, replies);
    if NoForeign(b, TagsOf(replies)) { OwnFailures(b, replies); }
  }

  lemma OwnFailures(b: Block, replies: seq<AtaReply>)
    requires b.s > 0 && NoForeign(b, TagsOf(replies))
    ensures NoFailure(b, replies) <==> !SomeFailed(AcksOf(replies))
  {
    forall j | 0 <= j < |replies| ensures Own(b, replies[j].tag) {
      assert TagsOf(replies)[j] == replies[j].tag;
    }
    if SomeFailed(AcksOf(replies)) {
      var j :| 0 <= j < |replies| && Failed(AcksOf(replies)[j].status);
      assert Failed(replies[j].ack.status) && Own(b, replies[j].tag);
    }
    if !NoFailure(b, replies) {
      var j :| 0 <= j < |replies| && Own(b, replies[j].tag) && Failed(replies[j].ack.status);
      assert Failed(AcksOf(replies)[j].status);
    }
  }

  // ---- When a read completes ----

  // The replies up to the one whose interrupt completes the command.
  ghost predicate JustCompleted(u: Setup, t: Transfer, replies: seq<AtaReply>) {
    && replies != []
    && ReadAll(t, u, Taken(u, replies[..|replies| - 1])).interrupts == t.interrupts
    && ReadAll(t, u, Taken(u, replies)).interrupts > t.interrupts
  }

  // A read may complete before all its frames are answered: that happens if and only if a
  // foreign reply is among those up to the completion. (Replies.InterruptIff says with which
  // reply it completes, by the bytes offered until then.)
  lemma CompletedIffNoForeign(ts: seq<Timed>, mtus: seq<nat>, from: nat, shelf: nat, slot: nat,
                              b: Block, u: Setup, d: Disk, t: Transfer, replies: seq<AtaReply>)
    requires LegalRun(InitialNet(), ts) && ReadOk(b, u) && GivenInRun(ts, mtus, from, shelf, slot, replies)
    requires OnDisk(b, d) && |t.buffer| >= SECTOR * b.n
    requires t.actual == 0 && t.required == Requests(b.n, b.s)
    requires Honest(b, u, d, replies) && JustCompleted(u, t, replies)
    ensures |replies| <= Requests(b.n, b.s)
    ensures AllAnswered(b, TagsOf(replies)) <==> NoForeign(b, TagsOf(replies))
  {
    var all, m := Requests(b.n, b.s), |replies| - 1;
    FewFrames(b, u);
    AnsweredOnce(ts, from, shelf, slot, TagsOf(replies));
    Tiling(b.n, b.s, 0);
    InterruptsGrow(t, u, Taken(u, replies[..m]));
    if NoForeign(b, TagsOf(replies)) {
      OwnCompleteLast(b, u, d, t, replies);
    }
    if AllAnswered(b, TagsOf(replies)) {
      var at := PlacesOf(b, TagsOf(replies), all);
      Pigeonhole(at, |replies|);
    }
    if |replies| == all {
      AllAnsweredIffNoForeign(ts, from, shelf, slot, b, TagsOf(replies));
    }
  }

  // Own replies do not complete it before the last one.
  lemma OwnCompleteLast(b: Block, u: Setup, d: Disk, t: Transfer, replies: seq<AtaReply>)
    requires ReadOk(b, u) && OnDisk(b, d) && Requests(b.n, b.s) <= TAG_PERIOD
    requires t.actual == 0 && t.required == Requests(b.n, b.s) && Honest(b, u, d, replies)
    requires UnicastOnce(TagsOf(replies)) && NoForeign(b, TagsOf(replies))
    requires ReadAll(t, u, Taken(u, replies)).interrupts > t.interrupts
    ensures |replies| == Requests(b.n, b.s)
  {
    var frames := OwnFrames(b, TagsOf(replies));
    var rs := RepliesFor(b, u, d, replies, frames);
    forall j | 0 <= j < |rs| ensures rs[j].frame < Requests(b.n, b.s) {
      assert GoodReply(b, u, d, rs[j]) || NoData(b, rs[j]);
    }
    RepliesInPlace(b, u, rs, Taken(u, replies));
    Tiling(b.n, b.s, 0);
    CutRun(t, b, u, d, rs, Taken(u, replies));
  }

  // Foreign tags near those of the block miss it: later ones and earlier ones.
  lemma LaterTagMisses(b: Block, u: Setup, j: nat)
    requires ReadOk(b, u) && j >= Requests(b.n, b.s) && j * u.chunk < 0x1_0000_0000
    ensures Position(u.base + j, u.base, u.chunk) >= u.bytes
  {
    SmallDistance(j, u.base, u.chunk);
    PastTheEnd(b, j);
    Associate(j, b.s);
  }

  lemma EarlierTagMisses(b: Block, u: Setup, j: nat)
    requires ReadOk(b, u) && 0 < j <= u.base && j * u.chunk <= 0x1_0000_0000 - u.bytes
    ensures Position(u.base - j, u.base, u.chunk) >= u.bytes
  {
    EarlierDistance(j, u.base, u.chunk);
  }

  lemma PastTheEnd(b: Block, j: nat)
    requires BlockOk(b) && j >= Requests(b.n, b.s)
    ensures j * b.s >= b.n
  {
    var last := Requests(b.n, b.s) - 1;
    Tiling(b.n, b.s, 0);
    Tiling(b.n, b.s, last);
    MulOrder(last, j, b.s);
  }

  lemma Associate(j: nat, s: nat)
    ensures j * (SECTOR * s) == SECTOR * (j * s)
  {
  }

  lemma AtLeastDistance(j: nat, chunk: nat)
    requires chunk > 0
    ensures j <= j * chunk
  {
    MulOrder(0, chunk, j);
  }

  lemma SmallDistance(j: nat, base: nat, chunk: nat)
    requires chunk > 0 && j * chunk < 0x1_0000_0000
    ensures Position(base + j, base, chunk) == j * chunk
  {
    AtLeastDistance(j, chunk);
    assert base + j - base == j && j % 0x1_0000_0000 == j;
  }

  lemma EarlierDistance(j: nat, base: nat, chunk: nat)
    requires 0 < j <= base && 0 < chunk && j * chunk < 0x1_0000_0000
    ensures Position(base - j, base, chunk) == 0x1_0000_0000 - j * chunk
  {
    AtLeastDistance(j, chunk);
    var p := 0x1_0000_0000 - j;
    assert (base - j - base) % 0x1_0000_0000 == p;
    assert p * chunk == (chunk - 1) * 0x1_0000_0000 + (0x1_0000_0000 - j * chunk);
    MulOrder(0, j, chunk);
    DivUnique(p * chunk, chunk - 1, 0x1_0000_0000 - j * chunk, 0x1_0000_0000);
  }

  // One that is far off may wrap into it: with frames of one sector, a tag 2^23 ahead goes
  // where the first frame belongs.
  lemma FarTagHits(base: nat)
    ensures Position(base + 0x80_0000, base, SECTOR) == 0
  {
    assert (base + 0x80_0000 - base) % 0x1_0000_0000 == 0x80_0000;
  }

  // ---- Writes ----

  lemma {:induction false} OneLessEachReply(p: Pending, acks: seq<Ack>)
    ensures WriteReplies(p, acks).required == p.required - |acks|
    decreases |acks|
  {
    if acks != [] { OneLessEachReply(WriteReply(p, acks[0]), acks[1..]); }
  }

  // A delivery of frames of the block in which each answered one was carried out.
  ghost predicate CarriedOut(b: Block, tags: seq<nat>, order: seq<nat>)
    requires b.s > 0
  {
    && (forall j :: 0 <= j < |order| ==> order[j] < Requests(b.n, b.s))
    && forall i :: 0 <= i < Requests(b.n, b.s) && FrameTag(b, i) in tags ==> i in order
  }

  // Frame i was answered, with or without an error.
  ghost predicate AnsweredWith(b: Block, tags: seq<nat>, acks: seq<Ack>, i: nat, failed: bool)
    requires b.s > 0 && |acks| == |tags|
  {
    exists j :: 0 <= j < |tags| && Answers(b, i, tags[j]) && Failed(acks[j].status) == failed
  }

  // A delivery among others in which each frame that was answered without an error was carried
  // out.
  ghost predicate CarriedOutAmong(b: Block, tags: seq<nat>, acks: seq<Ack>, xs: seq<Item>)
    requires b.s > 0 && |acks| == |tags|
  {
    && ItemsOk(b, xs)
    && forall i :: 0 <= i < Requests(b.n, b.s) && AnsweredWith(b, tags, acks, i, false) ==> Mine(i) in xs
  }

  // When a write completes without foreign replies, its data is on the disk, on top of
  // whatever else the target has carried out on other sectors, if the frames answered with an
  // error, if any, were carried out as well.
  lemma CompletedWriteIsOnDisk(ts: seq<Timed>, from: nat, shelf: nat, slot: nat, b: Block, d: Disk,
                               tags: seq<nat>, acks: seq<Ack>, xs: seq<Item>)
    requires LegalRun(InitialNet(), ts) && Given(ts, from, shelf, slot, tags)
    requires WriteOk(b) && OnDisk(b, d) && Requests(b.n, b.s) <= TAG_PERIOD
    requires |acks| == |tags| && WriteReplies(Pending(Requests(b.n, b.s), 0, 0), acks).required == 0
    requires NoForeign(b, tags) && CarriedOutAmong(b, tags, acks, xs) && AllApart(b, xs)
    ensures ItemsOk(b, Strangers(xs))
    ensures (forall i :: 0 <= i < Requests(b.n, b.s) && AnsweredWith(b, tags, acks, i, true) ==> Mine(i) in xs) ==>
      DeliverMixed(d, b, xs) == Splice(DeliverMixed(d, b, Strangers(xs)), SECTOR * b.lba, b.data)
    ensures !SomeFailed(acks) ==>
      DeliverMixed(d, b, xs) == Splice(DeliverMixed(d, b, Strangers(xs)), SECTOR * b.lba, b.data)
  {
    OneLessEachReply(Pending(Requests(b.n, b.s), 0, 0), acks);
    AllAnsweredIffNoForeign(ts, from, shelf, slot, b, tags);
    StrangersOnly(b, xs);
    if forall i :: 0 <= i < Requests(b.n, b.s) && AnsweredWith(b, tags, acks, i, true) ==> Mine(i) in xs {
      forall i | 0 <= i < Requests(b.n, b.s) ensures Mine(i) in xs {
        var j :| 0 <= j < |tags| && tags[j] == FrameTag(b, i);
        assert Answers(b, i, tags[j]);
        assert AnsweredWith(b, tags, acks, i, Failed(acks[j].status));
      }
      WriteAmongOthers(d, b, xs);
    }
  }

  function Part(d: Disk, b: Block, i: nat): seq<byte>
    requires BlockOk(b) && OnDisk(b, d) && i < Requests(b.n, b.s)
  {
    Tiling(b.n, b.s, i);
    d[SECTOR * b.lba + Offset(b, i)..SECTOR * b.lba + Offset(b, i) + SECTOR * SectorsIn(b.n, b.s, i)]
  }

  lemma OneOwner(b: Block, i: nat, j: nat, k: nat)
    requires BlockOk(b) && i < Requests(b.n, b.s) && j < Requests(b.n, b.s) && Owns(b, i, k) && Owns(b, j, k)
    ensures i == j
  {
    Tiling(b.n, b.s, i);
    Tiling(b.n, b.s, j);
    MulOrder(i, j, b.s);
    MulOrder(j, i, b.s);
  }

  // A frame that is not delivered leaves its part of the disk as it was.
  lemma NotDeliveredByte(b: Block, d: Disk, order: seq<nat>, i: nat, k: nat)
    requires WriteOk(b) && OnDisk(b, d) && i < Requests(b.n, b.s) && i !in order
    requires forall j :: 0 <= j < |order| ==> order[j] < Requests(b.n, b.s)
    requires k < |d| && Owns(b, i, k)
    ensures Deliver(b.to, d, Frames(b), order)[k] == d[k]
  {
    DeliverPartial(d, d, b, order, {});
    if exists m :: m in {} + Members(order) && Owns(b, m, k) {
      var m :| m in {} + Members(order) && Owns(b, m, k);
      OneOwner(b, i, m, k);
    }
  }

  lemma SamePart(x: Disk, y: Disk, b: Block, i: nat)
    requires BlockOk(b) && OnDisk(b, x) && |x| == |y| && i < Requests(b.n, b.s)
    requires forall k :: 0 <= k < |x| && Owns(b, i, k) ==> x[k] == y[k]
    ensures Part(x, b, i) == Part(y, b, i)
  {
    Tiling(b.n, b.s, i);
  }

  lemma NotDelivered(b: Block, d: Disk, order: seq<nat>, i: nat)
    requires WriteOk(b) && OnDisk(b, d) && i < Requests(b.n, b.s) && i !in order
    requires forall j :: 0 <= j < |order| ==> order[j] < Requests(b.n, b.s)
    ensures OnDisk(b, Deliver(b.to, d, Frames(b), order)) && Part(Deliver(b.to, d, Frames(b), order), b, i) == Part(d, b, i)
  {
    var end := Deliver(b.to, d, Frames(b), order);
    forall k | 0 <= k < |end| && Owns(b, i, k) ensures end[k] == d[k] {
      NotDeliveredByte(b, d, order, i, k);
    }
    SamePart(end, d, b, i);
  }

  lemma PartOfGoal(b: Block, d: Disk, i: nat)
    requires WriteOk(b) && OnDisk(b, d) && i < Requests(b.n, b.s)
    ensures Part(Splice(d, SECTOR * b.lba, b.data), b, i) == DataOf(b, i)
  {
    Tiling(b.n, b.s, i);
  }

  function FramesAnswered(b: Block, tags: seq<nat>, m: nat): (order: seq<nat>)
    requires b.s > 0
    ensures forall i: nat :: i in order <==> i < m && FrameTag(b, i) in tags
    decreases m
  {
    if m == 0 then []
    else FramesAnswered(b, tags, m - 1) + (if FrameTag(b, m - 1) in tags then [m - 1] else [])
  }

  // For a write that changes something in every frame's part of the disk: its completion
  // means that the data is there, if and only if no foreign reply was counted.
  lemma OnDiskIffNoForeign(ts: seq<Timed>, from: nat, shelf: nat, slot: nat, b: Block, d: Disk, tags: seq<nat>)
    requires LegalRun(InitialNet(), ts) && Given(ts, from, shelf, slot, tags)
    requires WriteOk(b) && OnDisk(b, d) && |tags| == Requests(b.n, b.s) <= TAG_PERIOD
    requires forall i :: 0 <= i < Requests(b.n, b.s) ==> DataOf(b, i) != Part(d, b, i)
    ensures NoForeign(b, tags) <==>
      forall order :: CarriedOut(b, tags, order) ==> Deliver(b.to, d, Frames(b), order) == Splice(d, SECTOR * b.lba, b.data)
  {
    AllAnsweredIffNoForeign(ts, from, shelf, slot, b, tags);
    if NoForeign(b, tags) {
      forall order | CarriedOut(b, tags, order)
        ensures Deliver(b.to, d, Frames(b), order) == Splice(d, SECTOR * b.lba, b.data)
      {
        BlockWriteIsWrite(b.to, d, b, order);
      }
    } else {
      assert !AllAnswered(b, tags);
      var i :| 0 <= i < Requests(b.n, b.s) && FrameTag(b, i) !in tags;
      var order := FramesAnswered(b, tags, Requests(b.n, b.s));
      forall j | 0 <= j < |order| ensures order[j] < Requests(b.n, b.s) {
        assert order[j] in order;
      }
      assert CarriedOut(b, tags, order);
      NotDelivered(b, d, order, i);
      PartOfGoal(b, d, i);
    }
  }

  // A delivery of frames of the block in which each one answered without an error was carried
  // out.
  ghost predicate CarriedOutIfGood(b: Block, tags: seq<nat>, acks: seq<Ack>, order: seq<nat>)
    requires b.s > 0 && |acks| == |tags|
  {
    && (forall j :: 0 <= j < |order| ==> order[j] < Requests(b.n, b.s))
    && forall i :: 0 <= i < Requests(b.n, b.s) && AnsweredWith(b, tags, acks, i, false) ==> i in order
  }

  ghost function FramesCarriedOut(b: Block, tags: seq<nat>, acks: seq<Ack>, m: nat): (order: seq<nat>)
    requires b.s > 0 && |acks| == |tags|
    ensures forall i: nat :: i in order <==> i < m && AnsweredWith(b, tags, acks, i, false)
    decreases m
  {
    if m == 0 then []
    else FramesCarriedOut(b, tags, acks, m - 1) + (if AnsweredWith(b, tags, acks, m - 1, false) then [m - 1] else [])
  }

  // Some frame was not answered without an error.
  lemma NotAllGood(b: Block, tags: seq<nat>, acks: seq<Ack>) returns (i: nat)
    requires b.s > 0 && |acks| == |tags| == Requests(b.n, b.s) <= TAG_PERIOD && UnicastOnce(tags)
    requires AllAnswered(b, tags) <==> NoForeign(b, tags)
    requires !NoForeign(b, tags) || SomeFailed(acks)
    ensures i < Requests(b.n, b.s) && !AnsweredWith(b, tags, acks, i, false)
  {
    if !NoForeign(b, tags) {
      i :| 0 <= i < Requests(b.n, b.s) && FrameTag(b, i) !in tags;
    } else {
      var j :| 0 <= j < |acks| && Failed(acks[j].status);
      i := FrameOf(b, tags[j]);
      forall m | 0 <= m < |tags| && Answers(b, i, tags[m]) ensures m == j {
        TagShape(b.call + 1 + i);
      }
    }
  }

  // For a write that changes something in every frame's part of the disk: its completion
  // means that the data is there, if and only if no foreign reply was counted and no reply
  // reported an error.
  lemma OnDiskIffGood(ts: seq<Timed>, from: nat, shelf: nat, slot: nat, b: Block, d: Disk, tags: seq<nat>, acks: seq<Ack>)
    requires LegalRun(InitialNet(), ts) && Given(ts, from, shelf, slot, tags)
    requires WriteOk(b) && OnDisk(b, d) && |acks| == |tags| == Requests(b.n, b.s) <= TAG_PERIOD
    requires forall i :: 0 <= i < Requests(b.n, b.s) ==> DataOf(b, i) != Part(d, b, i)
    ensures NoForeign(b, tags) && !SomeFailed(acks) <==>
      forall order :: CarriedOutIfGood(b, tags, acks, order) ==> Deliver(b.to, d, Frames(b), order) == Splice(d, SECTOR * b.lba, b.data)
  {
    AnsweredOnce(ts, from, shelf, slot, tags);
    AllAnsweredIffNoForeign(ts, from, shelf, slot, b, tags);
    if NoForeign(b, tags) && !SomeFailed(acks) {
      forall order | CarriedOutIfGood(b, tags, acks, order)
        ensures Deliver(b.to, d, Frames(b), order) == Splice(d, SECTOR * b.lba, b.data)
      {
        forall i | 0 <= i < Requests(b.n, b.s) ensures i in order {
          var j :| 0 <= j < |tags| && tags[j] == FrameTag(b, i);
          assert Answers(b, i, tags[j]);
          assert AnsweredWith(b, tags, acks, i, false);
        }
        BlockWriteIsWrite(b.to, d, b, order);
      }
    } else {
      var i := NotAllGood(b, tags, acks);
      var order := FramesCarriedOut(b, tags, acks, Requests(b.n, b.s));
      forall j | 0 <= j < |order| ensures order[j] < Requests(b.n, b.s) {
        assert order[j] in order;
      }
      assert CarriedOutIfGood(b, tags, acks, order);
      NotDelivered(b, d, order, i);
      PartOfGoal(b, d, i);
    }
  }

  // An error among the replies to a write that goes unreported.
  ghost predicate Hidden(acks: seq<Ack>) {
    SomeFailed(acks) && exists j :: FirstMark(acks, j) && (Failed(acks[j].status) ==> acks[j].error == 0)
  }

  // If the write reports no error, that is: no foreign reply was counted and no error was
  // hidden (WriteReport.ReportedIffNotHidden).
  lemma SilentWriteIff(ts: seq<Timed>, from: nat, shelf: nat, slot: nat, b: Block, d: Disk, tags: seq<nat>, acks: seq<Ack>)
    requires LegalRun(InitialNet(), ts) && Given(ts, from, shelf, slot, tags)
    requires WriteOk(b) && OnDisk(b, d) && |acks| == |tags| == Requests(b.n, b.s) <= TAG_PERIOD
    requires forall i :: 0 <= i < Requests(b.n, b.s) ==> DataOf(b, i) != Part(d, b, i)
    requires acks != [] && !Reports(WriteReplies(Pending(|acks|, 0, 0), acks), acks[|acks| - 1])
    ensures NoForeign(b, tags) && !Hidden(acks) <==>
      forall order :: CarriedOutIfGood(b, tags, acks, order) ==> Deliver(b.to, d, Frames(b), order) == Splice(d, SECTOR * b.lba, b.data)
  {
    OnDiskIffGood(ts, from, shelf, slot, b, d, tags, acks);
    if SomeFailed(acks) { ReportedIffNotHidden(acks); }
  }

  // ---- Write, then read ----

  // What was written is read back, however the two transfers are cut, ordered and repeated.
  lemma WriteThenRead(w: Block, r: Block, u: Setup, d: Disk, order: seq<nat>, t: Transfer,
                      rs: seq<Reply>, arrivals: seq<Arrival>)
    requires WriteOk(w) && OnDisk(w, d) && ReadOk(r, u) && r.to == w.to && r.lba == w.lba && r.n == w.n
    requires forall j :: 0 <= j < |order| ==> order[j] < Requests(w.n, w.s)
    requires forall i :: 0 <= i < Requests(w.n, w.s) ==> i in order
    requires |t.buffer| == SECTOR * r.n && t.actual == 0 && t.required == Requests(r.n, r.s)
    requires Distinct(FramesOf(rs)) && |rs| == Requests(r.n, r.s) && AllFit(r, rs)
    requires forall j :: 0 <= j < |rs| ==> GoodReply(r, u, Deliver(w.to, d, Frames(w), order), rs[j])
    requires |arrivals| == |rs| && forall j :: 0 <= j < |rs| ==> arrivals[j] == Arrive(u, r.call, rs[j])
    ensures ReadAll(t, u, arrivals).buffer == w.data
  {
    var d' := Deliver(w.to, d, Frames(w), order);
    BlockWriteIsWrite(w.to, d, w, order);
    BlockReadIsRead(r, u, d', t, rs, arrivals);
    assert d' == Splice(d, SECTOR * w.lba, w.data);
    SpliceReadsBack(d, SECTOR * w.lba, w.data);
    DoneIsWhole(r, u, d', t, ReadAll(t, u, arrivals));
  }

  lemma DoneIsWhole(r: Block, u: Setup, d: Disk, t: Transfer, end: Transfer)
    requires ReadOk(r, u) && OnDisk(r, d) && |t.buffer| == SECTOR * r.n
    requires ReadDone(r, u, d, t, Requests(r.n, r.s), end)
    ensures end.buffer == d[SECTOR * r.lba..SECTOR * r.lba + SECTOR * r.n]
  {
    var x := d[SECTOR * r.lba..SECTOR * (r.lba + r.n)];
    SpliceReadsBack(t.buffer, 0, x);
    assert end.buffer[0..|x|] == end.buffer;
  }

  lemma SpliceReadsBack(d: Disk, pos: nat, x: seq<byte>)
    requires pos + |x| <= |d|
    ensures Splice(d, pos, x)[pos..pos + |x|] == x
  {
  }
}
