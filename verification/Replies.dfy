/** The replies to a block of reads and how the data is put together again
    (AoE/AoEController.cpp, ata_response and completeDataRead). */
module Replies {
  import opened Common
  import opened Wire
  import opened TagGenerator
  import opened Blocks

  // ---- Sequences of distinct numbers ----

  ghost predicate Distinct(s: seq<nat>) {
    forall i, j :: 0 <= i < j < |s| ==> s[i] != s[j]
  }

  lemma {:induction false} Pigeonhole(s: seq<nat>, m: nat)
    requires Distinct(s) && forall i :: 0 <= i < |s| ==> s[i] < m
    ensures |s| <= m
    decreases m
  {
    if s != [] {
      assert s[0] < m;
      if i :| 0 <= i < |s| && s[i] == m - 1 {
        Pigeonhole(RemoveAt(s, i), m - 1);
      } else {
        Pigeonhole(s, m - 1);
      }
    }
  }

  lemma AllPresent(s: seq<nat>, m: nat, x: nat)
    requires Distinct(s) && |s| == m && x < m && forall i :: 0 <= i < |s| ==> s[i] < m
    ensures x in s
  {
    if x !in s {
      Pigeonhole(s + [x], m);
    }
  }

  // ---- Reads ----

  datatype Phase = DataTx | Status

  // The caller's buffer, ActualTransfer, m_nReadWriteRepliesRequired, the command's state and
  // the interrupts raised so far.
  datatype Transfer = Transfer(buffer: seq<byte>, actual: nat, required: int, phase: Phase, interrupts: nat)

  // Byte count and chunk size of the command, the bytes a frame may carry as things are when a
  // reply comes in, size of the double buffer, first tag of the block.
  datatype Setup = Setup(bytes: nat, chunk: nat, room: nat, unit: nat, base: nat)

  // What is taken from the first buffer of a reply, when `left` bytes are missing.
  function FirstBytes(u: Setup, left: nat, length: nat): (n: nat)
    ensures n <= left && n <= u.room && n <= length
  {
    if u.chunk == 0 then 0 else Min(left, Min(u.room, length))
  }

  // What is taken of a reply's data, at most `left` bytes.
  function Accepted(u: Setup, left: nat, c: Chain): (x: seq<byte>)
    ensures |x| <= left
  {
    var n := FirstBytes(u, left, |c.first|);
    c.first[..n] + Gather(left - n, u.room - n, u.unit, c.rest)
  }

  // The first buffer and then the others: together that stores what is taken.
  lemma BothParts(r: seq<byte>, s: seq<byte>, buffer: seq<byte>, pos: nat, u: Setup, left: nat, c: Chain, n: nat)
    requires n == FirstBytes(u, left, |c.first|)
    requires Stored(s, buffer, pos, c.first[..n])
    requires Stored(r, s, pos + n, Gather(left - n, u.room - n, u.unit, c.rest))
    ensures Stored(r, buffer, pos, Accepted(u, left, c))
    ensures |Accepted(u, left, c)| == n + |Gather(left - n, u.room - n, u.unit, c.rest)|
  {
    StoredTwice(r, s, buffer, pos, c.first[..n], Gather(left - n, u.room - n, u.unit, c.rest));
  }

  // completeDataRead for a reply whose data goes to `pos`, after the decrement of the count
  // of replies.
  function ReadAt(t: Transfer, u: Setup, pos: nat, c: Chain): Transfer {
    var required := t.required - 1;
    if u.bytes <= t.actual then
      t.(required := required, phase := Status, interrupts := t.interrupts + 1)
    else
      var x := Accepted(u, u.bytes - t.actual, c);
      Transfer(Store(t.buffer, pos, x), t.actual + |x|, required,
               if required != 0 then DataTx else Status,
               t.interrupts + (if required != 0 then 0 else 1))
  }

  function ReadReply(t: Transfer, u: Setup, tag: nat, c: Chain): Transfer {
    ReadAt(t, u, Position(tag, u.base, u.chunk), c)
  }

  // Data that arrives for a position of the buffer, with the bytes a frame may carry by then,
  // and a sequence of such arrivals.
  datatype Arrival = Arrival(pos: nat, room: nat, chain: Chain)

  function ReadAll(t: Transfer, u: Setup, rs: seq<Arrival>): Transfer
    decreases |rs|
  {
    if rs == [] then t
    else
      var last := rs[|rs| - 1];
      ReadAt(ReadAll(t, u, rs[..|rs| - 1]), u.(room := last.room), last.pos, last.chain)
  }

  // A reply to one frame of a block, with the room there is for it, and where its data goes.
  datatype Reply = Reply(frame: nat, room: nat, chain: Chain)

  function Arrive(u: Setup, call: nat, r: Reply): Arrival {
    Arrival(Position(TagAt(call + 1 + r.frame), u.base, u.chunk), r.room, r.chain)
  }

  // The room is still enough for the frame.
  predicate Fits(b: Block, r: Reply) {
    SECTOR * SectorsIn(b.n, b.s, r.frame) <= r.room
  }

  ghost predicate AllFit(b: Block, rs: seq<Reply>) {
    forall j :: 0 <= j < |rs| ==> Fits(b, rs[j])
  }

  // The setup of a block of reads, with the tags of the block in one period of the generator.
  ghost predicate ReadOk(b: Block, u: Setup) {
    && BlockOk(b) && !b.write && FetchesData(b.command) && b.s <= 255
    && u.bytes == SECTOR * b.n < 0x1_0000_0000 && u.chunk == SECTOR * b.s
    && u.base == TagAt(b.call + 1) && u.base + Requests(b.n, b.s) <= MAX_TAG
  }

  // The disk's sectors as one write into a buffer.
  function AsWrite(b: Block, d: Disk): Block
    requires OnDisk(b, d)
  {
    b.(lba := 0, command := 0x34, write := true, data := d[SECTOR * b.lba..SECTOR * (b.lba + b.n)])
  }

  // A good reply: the disk's bytes for its frame, in any chain of buffers.
  ghost predicate GoodReply(b: Block, u: Setup, d: Disk, r: Reply)
    requires BlockOk(b) && OnDisk(b, d)
  {
    && r.frame < Requests(b.n, b.s)
    && BytesOf(r.chain) == ReplyData(b.to, d, Frame(b, r.frame))
    && forall m :: 0 <= m < |r.chain.rest| ==> |r.chain.rest[m]| <= u.unit
  }

  lemma SliceOfSlice(d: seq<byte>, a: nat, z: nat, from: nat, to: nat)
    requires a <= z <= |d| && from <= to <= z - a
    ensures d[a..z][from..to] == d[a + from..a + to]
  {
    forall k | 0 <= k < to - from ensures d[a..z][from..to][k] == d[a + from..a + to][k] {
      assert d[a..z][from..to][k] == d[a..z][from + k];
    }
  }

  lemma PartOfDisk(b: Block, d: Disk, i: nat)
    requires BlockOk(b) && OnDisk(b, d) && i < Requests(b.n, b.s)
    ensures var from, to := i * b.s, i * b.s + SectorsIn(b.n, b.s, i);
      from <= to <= b.n && DataOf(AsWrite(b, d), i) == d[SECTOR * (b.lba + from)..SECTOR * (b.lba + to)]
  {
    Tiling(b.n, b.s, i);
    SliceOfSlice(d, SECTOR * b.lba, SECTOR * (b.lba + b.n), SECTOR * (i * b.s), SECTOR * (i * b.s + SectorsIn(b.n, b.s, i)));
  }

  lemma ReplyIsPart(b: Block, d: Disk, i: nat)
    requires BlockOk(b) && !b.write && FetchesData(b.command) && OnDisk(b, d) && i < Requests(b.n, b.s)
    ensures ReplyData(b.to, d, Frame(b, i)) == DataOf(AsWrite(b, d), i)
    ensures |DataOf(AsWrite(b, d), i)| == SECTOR * SectorsIn(b.n, b.s, i)
  {
    Tiling(b.n, b.s, i);
    PartOfDisk(b, d, i);
    LbaInRange(b, d, i);
  }

  lemma LbaInRange(b: Block, d: Disk, i: nat)
    requires BlockOk(b) && OnDisk(b, d) && i < Requests(b.n, b.s)
    ensures Frame(b, i).lba == b.lba + i * b.s && Frame(b, i).count == SectorsIn(b.n, b.s, i)
    ensures SECTOR * Frame(b, i).lba + SECTOR * Frame(b, i).count <= |d|
  {
    Tiling(b.n, b.s, i);
    assert (b.lba + i * b.s) % TWO48 == b.lba + i * b.s;
  }

  lemma FramePosition(b: Block, u: Setup, i: nat)
    requires ReadOk(b, u) && i < Requests(b.n, b.s)
    ensures Position(TagAt(b.call + 1 + i), u.base, u.chunk) == SECTOR * (i * b.s)
  {
    Tiling(b.n, b.s, i);
    assert i * (SECTOR * b.s) == SECTOR * (i * b.s);
    MulOrder(i, TAG_PERIOD, 1);
    PositionIffNoWrap(b.call + 1, i, b.s);
  }

  // A chain that fits is accepted whole.
  lemma ChainAccepted(u: Setup, left: nat, c: Chain)
    requires u.chunk > 0 && |BytesOf(c)| <= left && |BytesOf(c)| <= u.room
    requires forall m :: 0 <= m < |c.rest| ==> |c.rest[m]| <= u.unit
    ensures Accepted(u, left, c) == BytesOf(c)
  {
    var n := |c.first|;
    assert c.first[..n] == c.first;
    GatherAll(left - n, u.room - n, u.unit, c.rest);
  }

  lemma ReplyStored(t: Transfer, u: Setup, pos: nat, c: Chain)
    requires u.chunk > 0 && t.actual < u.bytes && t.actual + |BytesOf(c)| <= u.bytes && |BytesOf(c)| <= u.room
    requires pos + |BytesOf(c)| <= |t.buffer|
    requires forall m :: 0 <= m < |c.rest| ==> |c.rest[m]| <= u.unit
    ensures ReadAt(t, u, pos, c)
         == Transfer(Splice(t.buffer, pos, BytesOf(c)), t.actual + |BytesOf(c)|,
                     t.required - 1, if t.required - 1 != 0 then DataTx else Status,
                     t.interrupts + (if t.required - 1 != 0 then 0 else 1))
  {
    ChainAccepted(u, u.bytes - t.actual, c);
    StoreIsSplice(t.buffer, pos, BytesOf(c));
  }

  // A good reply for which enough bytes are still missing stores exactly its part.
  lemma GoodReplyStores(t: Transfer, b: Block, u: Setup, d: Disk, r: Reply)
    requires ReadOk(b, u) && OnDisk(b, d) && GoodReply(b, u, d, r)
    requires |t.buffer| >= SECTOR * b.n
    requires t.actual + SECTOR * SectorsIn(b.n, b.s, r.frame) <= u.bytes && Fits(b, r) && u.room == r.room
    ensures ReadAt(t, u, Offset(b, r.frame), r.chain)
         == Transfer(Execute(b.to, t.buffer, Frame(AsWrite(b, d), r.frame)),
                     t.actual + SECTOR * SectorsIn(b.n, b.s, r.frame),
                     t.required - 1, if t.required - 1 != 0 then DataTx else Status,
                     t.interrupts + (if t.required - 1 != 0 then 0 else 1))
  {
    var i := r.frame;
    Tiling(b.n, b.s, i);
    ReplyIsPart(b, d, i);
    ExecuteIsSplice(t.buffer, AsWrite(b, d), i);
    ReplyStored(t, u, SECTOR * (i * b.s), r.chain);
  }

  // ---- How much has arrived ----

  // Sectors of the frames `done`, which are pairwise distinct: all whole but the last one.
  function Received(b: Block, done: seq<nat>): int
    requires b.s > 0
  {
    var all := Requests(b.n, b.s);
    if all - 1 in done then b.n - (all - |done|) * b.s else |done| * b.s
  }

  ghost predicate DistinctFrames(b: Block, done: seq<nat>)
    requires b.s > 0
  {
    Distinct(done) && forall i :: 0 <= i < |done| ==> done[i] < Requests(b.n, b.s)
  }

  // One more frame adds its sectors, and they were missing.
  lemma ReceivedGrows(b: Block, done: seq<nat>, i: nat)
    requires BlockOk(b) && DistinctFrames(b, done + [i])
    ensures i < Requests(b.n, b.s) && |done| < Requests(b.n, b.s)
    ensures Received(b, done + [i]) == Received(b, done) + SectorsIn(b.n, b.s, i) <= b.n
  {
    var all, m := Requests(b.n, b.s), |done|;
    assert (done + [i])[m] == i;
    Pigeonhole(done + [i], all);
    Tiling(b.n, b.s, i);
    Tiling(b.n, b.s, all - 1);
    Multiples(all, m, b.s);
    if all - 1 !in done + [i] {
      FewerThanAll(done + [i], all);
    } else if i == all - 1 {
      assert forall j :: 0 <= j < m ==> done[j] == (done + [i])[j];
      assert i !in done;
    } else {
      assert all - 1 in done;
    }
  }

  lemma Multiples(all: nat, m: nat, s: nat)
    requires m < all
    ensures (m + 1) * s == m * s + s && (all - m) * s == (all - (m + 1)) * s + s
    ensures (all - (m + 1)) * s == (all - 1) * s - m * s >= 0
    ensures m + 1 <= all - 1 ==> (m + 1) * s <= (all - 1) * s
  {
    MulOrder(m, all - 1, s);
    MulOrder(m + 1, all - 1, s);
  }

  lemma FewerThanAll(s: seq<nat>, all: nat)
    requires Distinct(s) && all > 0 && all - 1 !in s && forall i :: 0 <= i < |s| ==> s[i] < all
    ensures |s| <= all - 1
  {
    Pigeonhole(s, all - 1);
  }

  function FramesOf(rs: seq<Reply>): (s: seq<nat>)
    ensures |s| == |rs| && forall j :: 0 <= j < |s| ==> s[j] == rs[j].frame
  {
    seq(|rs|, j requires 0 <= j < |rs| => rs[j].frame)
  }

  // The state after the replies to the frames `done`, for a transfer that began as `start`.
  ghost predicate ReadInv(t: Transfer, b: Block, d: Disk, start: Transfer, done: seq<nat>)
    requires BlockOk(b) && OnDisk(b, d) && DistinctFrames(b, done)
  {
    && |t.buffer| == |start.buffer|
    && t.buffer == Deliver(b.to, start.buffer, Frames(AsWrite(b, d)), done)
    && t.actual == SECTOR * Received(b, done)
    && t.required == Requests(b.n, b.s) - |done|
    && t.interrupts == start.interrupts + (if |done| == Requests(b.n, b.s) then 1 else 0)
    && (done != [] ==> t.phase == (if |done| == Requests(b.n, b.s) then Status else DataTx))
  }

  lemma {:induction false} DeliverOneMore(me: Device, d: Disk, cs: seq<Decoded>, order: seq<nat>, i: nat)
    requires i < |cs| && forall j :: 0 <= j < |order| ==> order[j] < |cs|
    ensures Deliver(me, d, cs, order + [i]) == Execute(me, Deliver(me, d, cs, order), cs[i])
    decreases |order|
  {
    if order != [] {
      assert (order + [i])[1..] == order[1..] + [i];
      DeliverOneMore(me, Execute(me, d, cs[order[0]]), cs, order[1..], i);
    } else {
      assert order + [i] == [i];
      assert Deliver(me, d, cs, [i]) == Deliver(me, Execute(me, d, cs[i]), cs, [i][1..]);
    }
  }

  lemma ReadStep(t: Transfer, b: Block, u: Setup, d: Disk, start: Transfer, done: seq<nat>, r: Reply)
    requires ReadOk(b, u) && OnDisk(b, d) && GoodReply(b, u, d, r) && |start.buffer| >= SECTOR * b.n
    requires Fits(b, r) && u.room == r.room
    requires DistinctFrames(b, done + [r.frame]) && DistinctFrames(b, done) && ReadInv(t, b, d, start, done)
    ensures ReadInv(ReadAt(t, u, Offset(b, r.frame), r.chain), b, d, start, done + [r.frame])
  {
    ReceivedGrows(b, done, r.frame);
    GoodReplyStores(t, b, u, d, r);
    DeliverOneMore(b.to, start.buffer, Frames(AsWrite(b, d)), done, r.frame);
  }

  lemma PrefixDistinct(b: Block, done: seq<nat>, more: seq<nat>)
    requires b.s > 0 && DistinctFrames(b, done + more)
    ensures DistinctFrames(b, done)
  {
    forall i | 0 <= i < |done| ensures done[i] < Requests(b.n, b.s) {
      assert (done + more)[i] == done[i];
    }
    forall i, j | 0 <= i < j < |done| ensures done[i] != done[j] {
      assert (done + more)[i] == done[i] && (done + more)[j] == done[j];
    }
  }

  // Every reply is put where its frame begins.
  ghost predicate InPlace(b: Block, rs: seq<Reply>, arrivals: seq<Arrival>) {
    |arrivals| == |rs|
    && forall j :: 0 <= j < |rs| ==> arrivals[j] == Arrival(Offset(b, rs[j].frame), rs[j].room, rs[j].chain)
  }

  lemma {:induction false} ReadRun(t: Transfer, b: Block, u: Setup, d: Disk, rs: seq<Reply>, arrivals: seq<Arrival>)
    requires ReadOk(b, u) && OnDisk(b, d) && |t.buffer| >= SECTOR * b.n && InPlace(b, rs, arrivals)
    requires forall j :: 0 <= j < |rs| ==> GoodReply(b, u, d, rs[j])
    requires DistinctFrames(b, FramesOf(rs)) && ReadInv(t, b, d, t, []) && AllFit(b, rs)
    ensures ReadInv(ReadAll(t, u, arrivals), b, d, t, FramesOf(rs))
    decreases |rs|
  {
    if rs == [] {
      assert FramesOf(rs) == [];
    } else {
      var m := |rs| - 1;
      var before, r := rs[..m], rs[m];
      assert FramesOf(rs) == FramesOf(before) + [r.frame];
      PrefixDistinct(b, FramesOf(before), [r.frame]);
      ReadRun(t, b, u, d, before, arrivals[..m]);
      ReadStep(ReadAll(t, u, arrivals[..m]), b, u.(room := r.room), d, t, FramesOf(before), r);
    }
  }

  // Fewer replies than frames raise no interrupt; all of them leave the caller's buffer with
  // the disk's sectors and no other change, the byte count complete, and one interrupt.
  ghost predicate ReadDone(b: Block, u: Setup, d: Disk, t: Transfer, replies: nat, end: Transfer)
    requires b.s > 0 && OnDisk(b, d) && |t.buffer| >= SECTOR * b.n
  {
    if replies < Requests(b.n, b.s) then
      end.interrupts == t.interrupts
    else
      && end.buffer == Splice(t.buffer, 0, d[SECTOR * b.lba..SECTOR * (b.lba + b.n)])
      && end.actual == u.bytes && end.required == 0 && end.phase == Status && end.interrupts == t.interrupts + 1
  }

  lemma AllArrived(b: Block, u: Setup, d: Disk, t: Transfer, order: seq<nat>, end: Transfer)
    requires ReadOk(b, u) && OnDisk(b, d) && |t.buffer| >= SECTOR * b.n
    requires DistinctFrames(b, order) && ReadInv(end, b, d, t, order)
    ensures ReadDone(b, u, d, t, |order|, end)
  {
    var all := Requests(b.n, b.s);
    Pigeonhole(order, all);
    if |order| == all {
      forall i | 0 <= i < all ensures i in order {
        AllPresent(order, all, i);
      }
      BlockWriteIsWrite(b.to, t.buffer, AsWrite(b, d), order);
      assert all - 1 in order;
    }
  }

  lemma ArrivesInPlace(b: Block, u: Setup, r: Reply)
    requires ReadOk(b, u) && r.frame < Requests(b.n, b.s)
    ensures Arrive(u, b.call, r) == Arrival(Offset(b, r.frame), r.room, r.chain)
  {
    FramePosition(b, u, r.frame);
  }

  lemma {:induction false} RepliesInPlace(b: Block, u: Setup, rs: seq<Reply>, arrivals: seq<Arrival>)
    requires ReadOk(b, u) && forall j :: 0 <= j < |rs| ==> rs[j].frame < Requests(b.n, b.s)
    requires |arrivals| == |rs| && forall j :: 0 <= j < |rs| ==> arrivals[j] == Arrive(u, b.call, rs[j])
    ensures InPlace(b, rs, arrivals)
  {
    forall j | 0 <= j < |rs| ensures arrivals[j] == Arrival(Offset(b, rs[j].frame), rs[j].room, rs[j].chain) {
      ArrivesInPlace(b, u, rs[j]);
    }
  }

  // A block read is a plain read, however its replies are ordered and cut into buffers, as
  // long as the room in a frame does not fall below what it carries (ReadCompleteIff); so the
  // completion interrupt is raised once, with the last reply.
  lemma {:induction false} BlockReadIsRead(b: Block, u: Setup, d: Disk, t: Transfer, rs: seq<Reply>, arrivals: seq<Arrival>)
    requires ReadOk(b, u) && OnDisk(b, d) && |t.buffer| >= SECTOR * b.n
    requires t.actual == 0 && t.required == Requests(b.n, b.s)
    requires Distinct(FramesOf(rs)) && AllFit(b, rs) && forall j :: 0 <= j < |rs| ==> GoodReply(b, u, d, rs[j])
    requires |arrivals| == |rs| && forall j :: 0 <= j < |rs| ==> arrivals[j] == Arrive(u, b.call, rs[j])
    ensures ReadDone(b, u, d, t, |rs|, ReadAll(t, u, arrivals))
  {
    RepliesInPlace(b, u, rs, arrivals);
    PlacedReadIsRead(b, u, d, t, rs, arrivals);
  }

  lemma {:induction false} PlacedReadIsRead(b: Block, u: Setup, d: Disk, t: Transfer, rs: seq<Reply>, arrivals: seq<Arrival>)
    requires ReadOk(b, u) && OnDisk(b, d) && |t.buffer| >= SECTOR * b.n && InPlace(b, rs, arrivals)
    requires t.actual == 0 && t.required == Requests(b.n, b.s)
    requires Distinct(FramesOf(rs)) && AllFit(b, rs) && forall j :: 0 <= j < |rs| ==> GoodReply(b, u, d, rs[j])
    ensures ReadDone(b, u, d, t, |rs|, ReadAll(t, u, arrivals))
  {
    forall j | 0 <= j < |rs| ensures FramesOf(rs)[j] < Requests(b.n, b.s) {
      assert GoodReply(b, u, d, rs[j]);
    }
    StartsClean(t, b, d);
    ReadRun(t, b, u, d, rs, arrivals);
    AllArrived(b, u, d, t, FramesOf(rs), ReadAll(t, u, arrivals));
  }

  lemma StartsClean(t: Transfer, b: Block, d: Disk)
    requires BlockOk(b) && OnDisk(b, d)
    requires t.actual == 0 && t.required == Requests(b.n, b.s)
    ensures DistinctFrames(b, []) && ReadInv(t, b, d, t, [])
  {
    Tiling(b.n, b.s, 0);
  }

  // ---- Replies that do not fit ----

  lemma {:induction false} GatherAtMost(left: nat, room: nat, unit: nat, rest: seq<seq<byte>>)
    ensures |Gather(left, room, unit, rest)| <= |Concat(rest)|
    decreases |rest|
  {
    if rest != [] {
      var before, last := rest[..|rest| - 1], rest[|rest| - 1];
      assert rest == before + [last];
      ConcatLast(before, last);
      GatherAtMost(left, room, unit, before);
    }
  }

  // No more is taken than there is, and than there is room for.
  lemma AcceptedAtMost(u: Setup, left: nat, c: Chain)
    ensures |Accepted(u, left, c)| <= Min(u.room, |BytesOf(c)|)
  {
    var n := FirstBytes(u, left, |c.first|);
    GatherAtMost(left - n, u.room - n, u.unit, c.rest);
  }

  // Of a chain in buffers of the usual size exactly that much is taken.
  lemma {:induction false} GatherLength(left: nat, room: nat, unit: nat, rest: seq<seq<byte>>)
    requires forall m :: 0 <= m < |rest| ==> |rest[m]| <= unit
    ensures |Gather(left, room, unit, rest)| == Min(Min(left, room), |Concat(rest)|)
    decreases |rest|
  {
    if rest != [] {
      var before, last := rest[..|rest| - 1], rest[|rest| - 1];
      assert rest == before + [last];
      ConcatLast(before, last);
      GatherLength(left, room, unit, before);
    }
  }

  lemma AcceptedLength(u: Setup, left: nat, c: Chain)
    requires u.chunk > 0 && forall m :: 0 <= m < |c.rest| ==> |c.rest[m]| <= u.unit
    ensures |Accepted(u, left, c)| == Min(left, Min(u.room, |BytesOf(c)|))
  {
    var n := FirstBytes(u, left, |c.first|);
    GatherLength(left - n, u.room - n, u.unit, c.rest);
  }

  // A reply without data, as one that reports an error.
  predicate NoData(b: Block, r: Reply)
    requires b.s > 0
  {
    r.frame < Requests(b.n, b.s) && |BytesOf(r.chain)| == 0
  }

  ghost predicate GoodOrNoData(b: Block, u: Setup, d: Disk, rs: seq<Reply>)
    requires BlockOk(b) && OnDisk(b, d)
  {
    forall j :: 0 <= j < |rs| ==> GoodReply(b, u, d, rs[j]) || NoData(b, rs[j])
  }

  // All data is there, and there was room for it.
  ghost predicate AllWhole(b: Block, rs: seq<Reply>)
    requires b.s > 0
  {
    forall j :: 0 <= j < |rs| ==> Fits(b, rs[j]) && !NoData(b, rs[j])
  }

  // The state after k of `all` replies, to frames of `had` sectors, some of which may have been
  // cut off.
  ghost predicate CutInv(t: Transfer, start: Transfer, all: nat, k: nat, had: int, cut: bool) {
    && t.actual <= SECTOR * had - (if cut then 1 else 0)
    && t.required == all - k
    && t.interrupts == start.interrupts + (if k == all then 1 else 0)
    && (k > 0 ==> t.phase == (if k == all then Status else DataTx))
  }

  lemma CutStep(t: Transfer, b: Block, u: Setup, d: Disk, start: Transfer, k: nat, had: int, cut: bool, r: Reply)
    requires ReadOk(b, u) && OnDisk(b, d) && (GoodReply(b, u, d, r) || NoData(b, r)) && u.room == r.room
    requires CutInv(t, start, Requests(b.n, b.s), k, had, cut) && k < Requests(b.n, b.s)
    requires had + SectorsIn(b.n, b.s, r.frame) <= b.n
    ensures CutInv(ReadAt(t, u, Offset(b, r.frame), r.chain), start, Requests(b.n, b.s), k + 1,
                   had + SectorsIn(b.n, b.s, r.frame), cut || !Fits(b, r) || NoData(b, r))
  {
    var all, size, now := Requests(b.n, b.s), SectorsIn(b.n, b.s, r.frame), !Fits(b, r) || NoData(b, r);
    SomeSectors(b, r.frame);
    StillMissing(t, start, all, k, had, cut, size, b.n);
    TakesAtMost(b, u, d, r, u.bytes - t.actual);
    CutTakes(t, u, Offset(b, r.frame), r.chain, start, all, k, had, cut, size, now);
  }

  lemma StillMissing(t: Transfer, start: Transfer, all: nat, k: nat, had: int, cut: bool, size: int, n: nat)
    requires CutInv(t, start, all, k, had, cut) && 0 < size && had + size <= n
    ensures t.actual < SECTOR * n
  {
  }

  lemma SomeSectors(b: Block, i: nat)
    requires BlockOk(b) && i < Requests(b.n, b.s)
    ensures 0 < SectorsIn(b.n, b.s, i)
  {
    Tiling(b.n, b.s, i);
  }

  lemma CutTakes(t: Transfer, u: Setup, pos: nat, c: Chain,
                 start: Transfer, all: nat, k: nat, had: int, cut: bool, size: int, now: bool)
    requires CutInv(t, start, all, k, had, cut) && k < all && t.actual < u.bytes
    requires |Accepted(u, u.bytes - t.actual, c)| <= SECTOR * size - (if now then 1 else 0)
    ensures CutInv(ReadAt(t, u, pos, c), start, all, k + 1, had + size, cut || now)
  {
    ReadAtTakes(t, u, pos, c);
  }

  lemma ReadAtTakes(t: Transfer, u: Setup, pos: nat, c: Chain)
    requires t.actual < u.bytes
    ensures var r := ReadAt(t, u, pos, c);
      && r.actual == t.actual + |Accepted(u, u.bytes - t.actual, c)| && r.required == t.required - 1
      && r.phase == (if t.required - 1 != 0 then DataTx else Status)
      && r.interrupts == t.interrupts + (if t.required - 1 != 0 then 0 else 1)
  {
  }

  lemma TakesAtMost(b: Block, u: Setup, d: Disk, r: Reply, left: nat)
    requires ReadOk(b, u) && OnDisk(b, d) && (GoodReply(b, u, d, r) || NoData(b, r)) && u.room == r.room
    ensures |Accepted(u, left, r.chain)|
         <= SECTOR * SectorsIn(b.n, b.s, r.frame) - (if !Fits(b, r) || NoData(b, r) then 1 else 0)
  {
    Tiling(b.n, b.s, r.frame);
    AcceptedAtMost(u, left, r.chain);
    if GoodReply(b, u, d, r) { ReplyIsPart(b, d, r.frame); }
  }

  lemma {:induction false} CutRun(t: Transfer, b: Block, u: Setup, d: Disk, rs: seq<Reply>, arrivals: seq<Arrival>)
    requires ReadOk(b, u) && OnDisk(b, d) && InPlace(b, rs, arrivals) && GoodOrNoData(b, u, d, rs)
    requires DistinctFrames(b, FramesOf(rs)) && CutInv(t, t, Requests(b.n, b.s), 0, 0, false)
    ensures CutInv(ReadAll(t, u, arrivals), t, Requests(b.n, b.s), |rs|, Received(b, FramesOf(rs)), !AllWhole(b, rs))
    decreases |rs|
  {
    if rs == [] {
      NoneReceived(b);
      assert FramesOf(rs) == [];
    } else {
      var m := |rs| - 1;
      var before, r := rs[..m], rs[m];
      assert FramesOf(rs) == FramesOf(before) + [r.frame];
      PrefixDistinct(b, FramesOf(before), [r.frame]);
      CutRun(t, b, u, d, before, arrivals[..m]);
      ReceivedGrows(b, FramesOf(before), r.frame);
      CutStep(ReadAll(t, u, arrivals[..m]), b, u.(room := r.room), d, t, m, Received(b, FramesOf(before)),
              !AllWhole(b, before), r);
      LastWhole(b, rs);
    }
  }

  lemma LastWhole(b: Block, rs: seq<Reply>)
    requires b.s > 0 && rs != []
    ensures var m := |rs| - 1;
      AllWhole(b, rs) <==> AllWhole(b, rs[..m]) && Fits(b, rs[m]) && !NoData(b, rs[m])
  {
    var m := |rs| - 1;
    if AllWhole(b, rs[..m]) && Fits(b, rs[m]) && !NoData(b, rs[m]) {
      forall j | 0 <= j < |rs| ensures Fits(b, rs[j]) && !NoData(b, rs[j]) {
        if j < m { assert rs[j] == rs[..m][j]; }
      }
    }
    if AllWhole(b, rs) {
      forall j | 0 <= j < m ensures Fits(b, rs[..m][j]) && !NoData(b, rs[..m][j]) {
        assert rs[..m][j] == rs[j];
      }
    }
  }

  // Replies to all frames complete the command in any case, with one interrupt. The byte count
  // is complete if and only if each brought its data and there was room for it when it came in.
  lemma {:induction false} ReadCompleteIff(b: Block, u: Setup, d: Disk, t: Transfer, rs: seq<Reply>, arrivals: seq<Arrival>)
    requires ReadOk(b, u) && OnDisk(b, d) && |t.buffer| >= SECTOR * b.n
    requires t.actual == 0 && t.required == Requests(b.n, b.s) == |rs|
    requires Distinct(FramesOf(rs)) && GoodOrNoData(b, u, d, rs)
    requires |arrivals| == |rs| && forall j :: 0 <= j < |rs| ==> arrivals[j] == Arrive(u, b.call, rs[j])
    ensures var end := ReadAll(t, u, arrivals);
      && end.required == 0 && end.phase == Status && end.interrupts == t.interrupts + 1
      && (end.actual == u.bytes <==> AllWhole(b, rs))
  {
    forall j | 0 <= j < |rs| ensures rs[j].frame < Requests(b.n, b.s) {
      assert GoodReply(b, u, d, rs[j]) || NoData(b, rs[j]);
    }
    RepliesInPlace(b, u, rs, arrivals);
    AllCut(b, u, d, t, rs, arrivals);
    if AllWhole(b, rs) {
      BlockReadIsRead(b, u, d, t, rs, arrivals);
    }
  }

  lemma {:induction false} AllCut(b: Block, u: Setup, d: Disk, t: Transfer, rs: seq<Reply>, arrivals: seq<Arrival>)
    requires ReadOk(b, u) && OnDisk(b, d) && InPlace(b, rs, arrivals)
    requires t.actual == 0 && t.required == Requests(b.n, b.s) == |rs|
    requires Distinct(FramesOf(rs)) && GoodOrNoData(b, u, d, rs)
    ensures var end := ReadAll(t, u, arrivals);
      && end.required == 0 && end.phase == Status && end.interrupts == t.interrupts + 1
      && (!AllWhole(b, rs) ==> end.actual < u.bytes)
  {
    forall j | 0 <= j < |rs| ensures FramesOf(rs)[j] < Requests(b.n, b.s) {
      assert GoodReply(b, u, d, rs[j]) || NoData(b, rs[j]);
    }
    Tiling(b.n, b.s, 0);
    CutRun(t, b, u, d, rs, arrivals);
    ReceivedAll(b, FramesOf(rs));
  }

  lemma NoneReceived(b: Block)
    requires b.s > 0
    ensures Received(b, []) == 0
  {
  }

  lemma ReceivedAll(b: Block, done: seq<nat>)
    requires BlockOk(b) && DistinctFrames(b, done) && |done| == Requests(b.n, b.s)
    ensures done != [] && Received(b, done) == b.n
  {
    Tiling(b.n, b.s, 0);
    AllPresent(done, |done|, |done| - 1);
  }

  // ---- Bytes that no arrival stores ----

  predicate Touches(a: Arrival, k: nat) {
    a.pos <= k < a.pos + Min(a.room, |BytesOf(a.chain)|)
  }

  // They stay as they were, whatever else comes in.
  lemma {:induction false} Untouched(t: Transfer, u: Setup, rs: seq<Arrival>, k: nat)
    requires k < |t.buffer| && forall j :: 0 <= j < |rs| ==> !Touches(rs[j], k)
    ensures var end := ReadAll(t, u, rs);
      |end.buffer| == |t.buffer| && end.buffer[k] == t.buffer[k]
    decreases |rs|
  {
    if rs != [] {
      var m := |rs| - 1;
      Untouched(t, u, rs[..m], k);
      UntouchedStep(ReadAll(t, u, rs[..m]), u, rs[m], k);
    }
  }

  lemma UntouchedStep(t: Transfer, u: Setup, a: Arrival, k: nat)
    requires k < |t.buffer| && !Touches(a, k)
    ensures var end := ReadAt(t, u.(room := a.room), a.pos, a.chain);
      |end.buffer| == |t.buffer| && end.buffer[k] == t.buffer[k]
  {
    if t.actual < u.bytes {
      AcceptedAtMost(u.(room := a.room), u.bytes - t.actual, a.chain);
      StoredIsStore(Store(t.buffer, a.pos, Accepted(u.(room := a.room), u.bytes - t.actual, a.chain)),
                    t.buffer, a.pos, Accepted(u.(room := a.room), u.bytes - t.actual, a.chain));
    }
  }

  // ---- When a read completes ----

  // The bytes that replies offer, each within its room.
  function Offered(rs: seq<Arrival>): nat
    decreases |rs|
  {
    if rs == [] then 0
    else Offered(rs[..|rs| - 1]) + Min(rs[|rs| - 1].room, |BytesOf(rs[|rs| - 1].chain)|)
  }

  // Chains of buffers of the usual size.
  ghost predicate UsualChains(u: Setup, rs: seq<Arrival>) {
    forall j, m :: 0 <= j < |rs| && 0 <= m < |rs[j].chain.rest| ==> |rs[j].chain.rest[m]| <= u.unit
  }

  lemma UsualPrefix(u: Setup, rs: seq<Arrival>)
    requires UsualChains(u, rs) && rs != []
    ensures UsualChains(u, rs[..|rs| - 1])
  {
    var before := rs[..|rs| - 1];
    forall j, m | 0 <= j < |before| && 0 <= m < |before[j].chain.rest| ensures |before[j].chain.rest[m]| <= u.unit {
      assert before[j] == rs[j];
    }
  }

  // ActualTransfer is what was offered, whoever it came from, up to the byte count.
  lemma {:induction false} ActualIsOffered(t: Transfer, u: Setup, rs: seq<Arrival>)
    requires u.chunk > 0 && t.actual == 0 && UsualChains(u, rs)
    ensures ReadAll(t, u, rs).actual == Min(u.bytes, Offered(rs))
    ensures ReadAll(t, u, rs).required == t.required - |rs|
    decreases |rs|
  {
    if rs != [] {
      var m := |rs| - 1;
      UsualPrefix(u, rs);
      ActualIsOffered(t, u, rs[..m]);
      OfferedStep(ReadAll(t, u, rs[..m]), u.(room := rs[m].room), rs[m], Offered(rs[..m]));
    }
  }

  lemma OfferedStep(t: Transfer, u: Setup, a: Arrival, sum: nat)
    requires u.chunk > 0 && u.room == a.room && forall m :: 0 <= m < |a.chain.rest| ==> |a.chain.rest[m]| <= u.unit
    requires t.actual == Min(u.bytes, sum)
    ensures var r := ReadAt(t, u, a.pos, a.chain);
      r.actual == Min(u.bytes, sum + Min(a.room, |BytesOf(a.chain)|)) && r.required == t.required - 1
  {
    if t.actual < u.bytes {
      AcceptedLength(u, u.bytes - t.actual, a.chain);
      ReadAtTakes(t, u, a.pos, a.chain);
    }
  }

  // A reply raises the interrupt that completes the command if and only if it is the last one
  // expected, or those before it offered the whole byte count. Then it is the last in phase
  // Status, and in the second case nothing of it is stored.
  lemma InterruptIff(t: Transfer, u: Setup, rs: seq<Arrival>)
    requires u.chunk > 0 && t.actual == 0 && UsualChains(u, rs) && rs != []
    ensures var before, end := ReadAll(t, u, rs[..|rs| - 1]), ReadAll(t, u, rs);
      && (end.interrupts == before.interrupts + 1 <==> |rs| == t.required || Offered(rs[..|rs| - 1]) >= u.bytes)
      && (end.interrupts == before.interrupts || end.interrupts == before.interrupts + 1)
      && (end.phase == Status <==> end.interrupts == before.interrupts + 1)
      && (Offered(rs[..|rs| - 1]) >= u.bytes ==> end.buffer == before.buffer)
  {
    UsualPrefix(u, rs);
    ActualIsOffered(t, u, rs[..|rs| - 1]);
    assert ReadAll(t, u, rs).required == t.required - |rs|;
  }

  // Of the usual replies no more than all make a read complete.
  lemma {:induction false} InterruptsGrow(t: Transfer, u: Setup, rs: seq<Arrival>)
    ensures ReadAll(t, u, rs).interrupts >= t.interrupts && ReadAll(t, u, rs).required == t.required - |rs|
    ensures 0 < t.required <= |rs| ==> ReadAll(t, u, rs).interrupts > t.interrupts
    decreases |rs|
  {
    if rs != [] { InterruptsGrow(t, u, rs[..|rs| - 1]); }
  }
}
