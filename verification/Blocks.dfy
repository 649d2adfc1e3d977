/** A large transfer as a set of frames: how it is cut up, what a target does with the frames,
    and that any delivery of them amounts to one plain copy (AoE/AoEController.cpp). */
module Blocks {
  import opened Common
  import opened Wire
  import opened TagGenerator

  // ---- How a transfer of n sectors is cut into frames of s sectors ----

  function Requests(n: nat, s: nat): nat
    requires s > 0
  {
    if n == 0 then 0 else if n <= s then 1 else 1 + Requests(n - s, s)
  }

  // That is n / s, rounded up.
  lemma {:induction false} RequestsRoundsUp(n: nat, s: nat)
    requires s > 0
    ensures Requests(n, s) == n / s + (if n % s != 0 then 1 else 0)
    decreases n
  {
    if n > s {
      RequestsRoundsUp(n - s, s);
      DivLess(n, s);
    }
  }

  lemma DivLess(n: nat, s: nat)
    requires n >= s > 0
    ensures n / s == (n - s) / s + 1 && n % s == (n - s) % s
  {
    var q, r := (n - s) / s, (n - s) % s;
    assert n == (q + 1) * s + r;
    DivUnique(n, q + 1, r, s);
  }

  // Sectors in front of frame i, and in it.
  function SectorsIn(n: nat, s: nat, i: nat): int {
    Min(s, n - i * s)
  }

  // The frames tile the sectors 0..n-1: consecutive, non-empty, only the last one short.
  lemma {:induction false} Tiling(n: nat, s: nat, i: nat)
    requires s > 0 && i < Requests(n, s)
    ensures 0 < SectorsIn(n, s, i) <= s && i * s + SectorsIn(n, s, i) <= n
    ensures i + 1 < Requests(n, s) ==> SectorsIn(n, s, i) == s && (i + 1) * s == i * s + SectorsIn(n, s, i)
    ensures i + 1 == Requests(n, s) ==> i * s + SectorsIn(n, s, i) == n
    decreases i
  {
    if i > 0 {
      Tiling(n - s, s, i - 1);
      assert i * s == (i - 1) * s + s;
    }
    assert (i + 1) * s == i * s + s;
  }

  lemma {:induction false} Owner(n: nat, s: nat, k: nat) returns (i: nat)
    requires s > 0 && k < n
    ensures i < Requests(n, s) && i * s <= k < i * s + SectorsIn(n, s, i)
    decreases n
  {
    if k < s {
      i := 0;
    } else {
      i := Owner(n - s, s, k - s);
      assert (i + 1) * s == i * s + s;
      i := i + 1;
    }
  }

  // What asyncCommand computes: the replies it waits for and the requests it issues. `count`
  // is the register the code divides: the sector count for 48-bit commands, but the sector
  // number for 24-bit ones.
  function Planned(count: nat, n: nat, s: nat): (int, int)
    requires s > 0
  {
    var whole := Max(1, count / s);
    var left := (SECTOR * n - whole * (SECTOR * s)) % 0x1_0000_0000;
    var extra := if left / SECTOR > 0 then 1 else 0;
    (whole + extra, n / s + extra)
  }

  // The bytes that whole frames leave over.
  lemma LeftOver(n: nat, s: nat)
    requires s > 0 && SECTOR * n < 0x1_0000_0000
    ensures (SECTOR * n - (n / s) * (SECTOR * s)) % 0x1_0000_0000 == SECTOR * (n % s)
  {
    var q, r := n / s, n % s;
    assert n == q * s + r;
    assert q * (SECTOR * s) == SECTOR * (q * s);
  }

  // The two agree exactly when the register gives the number of whole frames, and then they
  // are the number of frames of the tiling.
  lemma PlanAgrees(count: nat, n: nat, s: nat)
    requires s > 0 && n >= s && SECTOR * n < 0x1_0000_0000
    ensures var (replies, issued) := Planned(count, n, s);
      && (replies == issued <==> Max(1, count / s) == n / s)
      && (replies == issued ==> replies == Requests(n, s))
  {
    RequestsRoundsUp(n, s);
    LeftOver(n, s);
  }

  // Not so for a 24-bit command: for 16 sectors from a sector number 0 on, in frames of 2,
  // the code issues nine requests, the last one for 14 more sectors, and expects two replies.
  lemma SectorNumberMiscounts()
    ensures Planned(0, 16, 2) == (2, 9) && Requests(16, 2) == 8
  {
    RequestsRoundsUp(16, 2);
  }

  // ---- The frames of one block ----

  datatype Block = Block(
    call: nat,            // calls of the tag generator made before the block
    lba: nat, n: nat, s: nat,
    to: Device, command: nat, write: bool,
    data: seq<byte>)      // what a write carries

  ghost predicate BlockOk(b: Block) {
    && 0 < b.s <= b.n
    && (b.write ==> |b.data| == SECTOR * b.n)
  }

  // A block of writes that a target takes for writes.
  ghost predicate WriteOk(b: Block) {
    BlockOk(b) && b.write && StoresData(b.command)
  }

  // Bytes in front of frame i.
  function Offset(b: Block, i: nat): nat {
    SECTOR * (i * b.s)
  }

  function DataOf(b: Block, i: nat): seq<byte>
    requires b.s > 0 && i < Requests(b.n, b.s) && |b.data| == SECTOR * b.n
  {
    Tiling(b.n, b.s, i);
    b.data[SECTOR * (i * b.s)..SECTOR * (i * b.s + SectorsIn(b.n, b.s, i))]
  }

  // Frame i of the block, as a target reads it.
  function Frame(b: Block, i: nat): Decoded
    requires b.s > 0 && i < Requests(b.n, b.s) && (b.write ==> |b.data| == SECTOR * b.n)
  {
    Tiling(b.n, b.s, i);
    Decoded(AtaHead(b.to), TagAt(b.call + 1 + i), (b.lba + i * b.s) % TWO48, SectorsIn(b.n, b.s, i), b.command, true,
            b.write, if b.write then DataOf(b, i) else [])
  }

  function Frames(b: Block): (cs: seq<Decoded>)
    requires BlockOk(b)
    ensures |cs| == Requests(b.n, b.s)
    ensures forall i :: 0 <= i < |cs| ==> cs[i] == Frame(b, i)
  {
    seq(Requests(b.n, b.s), i requires 0 <= i < Requests(b.n, b.s) => Frame(b, i))
  }

  // ---- The target ----

  type Disk = seq<byte>

  function Splice(d: seq<byte>, pos: nat, x: seq<byte>): (r: seq<byte>)
    requires pos + |x| <= |d|
    ensures |r| == |d|
    ensures forall k :: 0 <= k < |r| ==> r[k] == if pos <= k < pos + |x| then x[k - pos] else d[k]
  {
    seq(|d|, k requires 0 <= k < |d| => if pos <= k < pos + |x| then x[k - pos] else d[k])
  }

  // The ATA commands that write and read sectors, WRITE and READ with and without EXT.
  predicate StoresData(command: nat) {
    command == 0x30 || command == 0x34
  }

  predicate FetchesData(command: nat) {
    command == 0x20 || command == 0x24
  }

  // A target carries out a write that is addressed to it, if its data matches its count and
  // lies on the disk.
  function Execute(me: Device, d: Disk, c: Decoded): (d': Disk)
    ensures |d'| == |d|
  {
    if c.head == AtaHead(me) && c.write && StoresData(c.command)
       && |c.data| == SECTOR * c.count && SECTOR * c.lba + |c.data| <= |d|
    then Splice(d, SECTOR * c.lba, c.data)
    else d
  }

  // The target gets the frames of a block in some order, some of them again and again.
  function Deliver(me: Device, d: Disk, cs: seq<Decoded>, order: seq<nat>): (d': Disk)
    requires forall j :: 0 <= j < |order| ==> order[j] < |cs|
    ensures |d'| == |d|
    decreases |order|
  {
    if order == [] then d else Deliver(me, Execute(me, d, cs[order[0]]), cs, order[1..])
  }

  // It answers a read that is addressed to it with the disk's bytes.
  function ReplyData(me: Device, d: Disk, c: Decoded): seq<byte> {
    var from := SECTOR * c.lba;
    if c.head == AtaHead(me) && !c.write && FetchesData(c.command) && from + SECTOR * c.count <= |d|
    then d[from..from + SECTOR * c.count] else []
  }

  // ---- Writes ----

  ghost predicate Owns(b: Block, i: nat, k: nat) {
    SECTOR * (b.lba + i * b.s) <= k < SECTOR * (b.lba + i * b.s + SectorsIn(b.n, b.s, i))
  }

  // The disk `d0` after the frames in `done` were carried out.
  ghost predicate Partial(d: Disk, d0: Disk, goal: Disk, b: Block, done: set<nat>) {
    && |d| == |d0| == |goal|
    && forall k :: 0 <= k < |d| ==>
         d[k] == if exists i :: i in done && Owns(b, i, k) then goal[k] else d0[k]
  }

  ghost predicate OnDisk(b: Block, d: Disk) {
    b.lba + b.n <= TWO48 && SECTOR * (b.lba + b.n) <= |d|
  }

  lemma SmallAddress(a: nat)
    requires a < TWO48
    ensures a % TWO48 == a
  {
  }

  lemma ExecuteIsSplice(d: Disk, b: Block, i: nat)
    requires WriteOk(b) && i < Requests(b.n, b.s) && OnDisk(b, d)
    ensures SECTOR * b.lba + Offset(b, i) + |DataOf(b, i)| <= |d|
    ensures Execute(b.to, d, Frame(b, i)) == Splice(d, SECTOR * b.lba + Offset(b, i), DataOf(b, i))
  {
    FrameShape(b, i);
    ExecuteFitting(b.to, d, Frame(b, i));
    Tiling(b.n, b.s, i);
  }

  // Frame i of a write carries a full payload, and its address does not wrap.
  lemma FrameShape(b: Block, i: nat)
    requires WriteOk(b) && i < Requests(b.n, b.s) && b.lba + b.n <= TWO48
    ensures var c := Frame(b, i);
      && c.head == AtaHead(b.to) && StoresData(c.command)
      && c.write && c.data == DataOf(b, i) && |c.data| == SECTOR * c.count
      && c.count == SectorsIn(b.n, b.s, i) && c.lba == b.lba + i * b.s && c.lba + c.count <= b.lba + b.n
  {
    Tiling(b.n, b.s, i);
    SmallAddress(b.lba + i * b.s);
  }

  lemma ExecuteFitting(me: Device, d: Disk, c: Decoded)
    requires c.head == AtaHead(me) && c.write && StoresData(c.command)
    requires |c.data| == SECTOR * c.count && SECTOR * (c.lba + c.count) <= |d|
    ensures SECTOR * c.lba + |c.data| <= |d| && Execute(me, d, c) == Splice(d, SECTOR * c.lba, c.data)
  {
  }

  // What carrying out frame i does to one byte of the disk.
  lemma ExecuteByte(d: Disk, d0: Disk, b: Block, i: nat, k: nat)
    requires WriteOk(b) && i < Requests(b.n, b.s) && OnDisk(b, d0) && |d| == |d0| && k < |d|
    ensures Execute(b.to, d, Frame(b, i))[k]
         == if Owns(b, i, k) then Splice(d0, SECTOR * b.lba, b.data)[k] else d[k]
  {
    Tiling(b.n, b.s, i);
    ExecuteIsSplice(d, b, i);
    var from := i * b.s;
    PartOfSplice(d, d0, SECTOR * b.lba, b.data, SECTOR * from, SECTOR * (from + SectorsIn(b.n, b.s, i)), k);
  }

  lemma PartOfSplice(d: Disk, d0: Disk, pos: nat, x: seq<byte>, from: nat, to: nat, k: nat)
    requires |d| == |d0| && from <= to <= |x| && pos + |x| <= |d| && k < |d|
    ensures Splice(d, pos + from, x[from..to])[k]
         == if pos + from <= k < pos + to then Splice(d0, pos, x)[k] else d[k]
  {
  }

  lemma ExecuteOne(d: Disk, d0: Disk, b: Block, i: nat, done: set<nat>)
    requires WriteOk(b) && i < Requests(b.n, b.s) && OnDisk(b, d0)
    requires Partial(d, d0, Splice(d0, SECTOR * b.lba, b.data), b, done)
    ensures Partial(Execute(b.to, d, Frame(b, i)), d0, Splice(d0, SECTOR * b.lba, b.data), b, done + {i})
  {
    var goal := Splice(d0, SECTOR * b.lba, b.data);
    var d' := Execute(b.to, d, Frame(b, i));
    forall k | 0 <= k < |d'|
      ensures d'[k] == if exists m :: m in done + {i} && Owns(b, m, k) then goal[k] else d0[k]
    {
      ExecuteByte(d, d0, b, i, k);
      OwnedByOneMore(b, done, i, k);
    }
  }

  lemma OwnedByOneMore(b: Block, done: set<nat>, i: nat, k: nat)
    ensures (exists m :: m in done + {i} && Owns(b, m, k)) <==> (Owns(b, i, k) || exists m :: m in done && Owns(b, m, k))
  {
    if Owns(b, i, k) {
      assert i in done + {i};
    } else if exists m :: m in done && Owns(b, m, k) {
      var m :| m in done && Owns(b, m, k);
      assert m in done + {i};
    }
  }

  function Members(order: seq<nat>): set<nat> {
    set x | x in order
  }

  lemma MembersSplit(order: seq<nat>, done: set<nat>)
    requires order != []
    ensures done + {order[0]} + Members(order[1..]) == done + Members(order)
  {
  }

  lemma {:induction false} DeliverPartial(d: Disk, d0: Disk, b: Block, order: seq<nat>, done: set<nat>)
    requires WriteOk(b) && OnDisk(b, d0)
    requires forall j :: 0 <= j < |order| ==> order[j] < Requests(b.n, b.s)
    requires Partial(d, d0, Splice(d0, SECTOR * b.lba, b.data), b, done)
    ensures Partial(Deliver(b.to, d, Frames(b), order), d0, Splice(d0, SECTOR * b.lba, b.data), b, done + Members(order))
    decreases |order|
  {
    if order == [] {
      assert done + Members(order) == done;
    } else {
      ExecuteOne(d, d0, b, order[0], done);
      DeliverPartial(Execute(b.to, d, Frame(b, order[0])), d0, b, order[1..], done + {order[0]});
      MembersSplit(order, done);
      assert Deliver(b.to, d, Frames(b), order) == Deliver(b.to, Execute(b.to, d, Frame(b, order[0])), Frames(b), order[1..]);
    }
  }

  // A frame for another target changes nothing.
  lemma {:induction false} NotForMe(me: Device, d: Disk, b: Block, order: seq<nat>)
    requires BlockOk(b) && me != b.to && forall j :: 0 <= j < |order| ==> order[j] < Requests(b.n, b.s)
    ensures Deliver(me, d, Frames(b), order) == d
    decreases |order|
  {
    if order != [] {
      assert Frames(b)[order[0]].head != AtaHead(me);
      NotForMe(me, d, b, order[1..]);
    }
  }

  // A block write is a plain write on the target it is addressed to: however the frames arrive,
  // as long as each arrives at least once, the disk ends with the caller's bytes at the address
  // and no other change.
  lemma BlockWriteIsWrite(me: Device, d: Disk, b: Block, order: seq<nat>)
    requires WriteOk(b) && OnDisk(b, d) && me == b.to
    requires forall j :: 0 <= j < |order| ==> order[j] < Requests(b.n, b.s)
    requires forall i :: 0 <= i < Requests(b.n, b.s) ==> i in order
    ensures Deliver(b.to, d, Frames(b), order) == Splice(d, SECTOR * b.lba, b.data)
  {
    var goal := Splice(d, SECTOR * b.lba, b.data);
    var end := Deliver(b.to, d, Frames(b), order);
    DeliverPartial(d, d, b, order, {});
    forall k | 0 <= k < |d| ensures end[k] == goal[k] {
      if SECTOR * b.lba <= k < SECTOR * (b.lba + b.n) {
        var i := Owner(b.n, b.s, k / SECTOR - b.lba);
        assert i in {} + Members(order) && Owns(b, i, k);
      }
    }
  }

  // ---- Reads ----

  // A reply's data in a chain of buffers: the header's own buffer, then the others.
  datatype Chain = Chain(first: seq<byte>, rest: seq<seq<byte>>)

  function Concat(pieces: seq<seq<byte>>): seq<byte> {
    if pieces == [] then [] else pieces[0] + Concat(pieces[1..])
  }

  function BytesOf(c: Chain): seq<byte> {
    c.first + Concat(c.rest)
  }

  // writeBytes of the memory descriptor, which stores nothing outside the buffer.
  function Store(buffer: seq<byte>, pos: nat, x: seq<byte>): (r: seq<byte>)
    ensures |r| == |buffer|
  {
    seq(|buffer|, k requires 0 <= k < |buffer| => if pos <= k < pos + |x| then x[k - pos] else buffer[k])
  }

  // What is taken from the further buffers of a chain when `left` bytes are missing from the
  // whole transfer and `room` from this frame; at most `unit` bytes come from one buffer.
  function Gather(left: nat, room: nat, unit: nat, rest: seq<seq<byte>>): (x: seq<byte>)
    ensures |x| <= left && |x| <= room
    decreases |rest|
  {
    if rest == [] then []
    else
      var x := Gather(left, room, unit, rest[..|rest| - 1]);
      var last := rest[|rest| - 1];
      x + last[..Min(left - |x|, Min(room - |x|, Min(unit, |last|)))]
  }

  lemma {:induction false} ConcatLast(pieces: seq<seq<byte>>, last: seq<byte>)
    ensures Concat(pieces + [last]) == Concat(pieces) + last
    decreases |pieces|
  {
    if pieces == [] {
      assert pieces + [last] == [last] && Concat([last]) == last + Concat([]);
    } else {
      ConcatLast(pieces[1..], last);
      assert (pieces + [last])[1..] == pieces[1..] + [last];
    }
  }

  // A chain that fits is taken whole.
  lemma {:induction false} GatherAll(left: nat, room: nat, unit: nat, rest: seq<seq<byte>>)
    requires |Concat(rest)| <= left && |Concat(rest)| <= room
    requires forall m :: 0 <= m < |rest| ==> |rest[m]| <= unit
    ensures Gather(left, room, unit, rest) == Concat(rest)
    decreases |rest|
  {
    if rest != [] {
      var before, last := rest[..|rest| - 1], rest[|rest| - 1];
      assert rest == before + [last];
      ConcatLast(before, last);
      GatherAll(left, room, unit, before);
      assert last[..|last|] == last;
    }
  }

  // That buffer `r` is Store(buffer, pos, x), byte by byte.
  ghost predicate Stored(r: seq<byte>, buffer: seq<byte>, pos: nat, x: seq<byte>) {
    && |r| == |buffer|
    && forall k :: 0 <= k < |r| ==> r[k] == if pos <= k < pos + |x| then x[k - pos] else buffer[k]
  }

  lemma StoredIsStore(r: seq<byte>, buffer: seq<byte>, pos: nat, x: seq<byte>)
    ensures Stored(r, buffer, pos, x) <==> r == Store(buffer, pos, x)
  {
  }

  // Consecutive stores are one store, even where the buffer ends early.
  lemma StoredTwice(r: seq<byte>, s: seq<byte>, buffer: seq<byte>, pos: nat, x: seq<byte>, y: seq<byte>)
    requires Stored(s, buffer, pos, x) && Stored(r, s, pos + |x|, y)
    ensures Stored(r, buffer, pos, x + y)
  {
  }

  lemma StoreIsSplice(buffer: seq<byte>, pos: nat, x: seq<byte>)
    requires pos + |x| <= |buffer|
    ensures Store(buffer, pos, x) == Splice(buffer, pos, x)
  {
  }

  // Where a reply's data goes: (tag - base tag) * chunk, in 32-bit unsigned arithmetic.
  function Position(tag: nat, base: nat, chunk: nat): nat {
    (((tag - base) % 0x1_0000_0000) * chunk) % 0x1_0000_0000
  }

  // For the replies of a block with up to 255 sectors a frame, the position is right exactly
  // when the tag generator did not start over between the first tag and this one.
  lemma PositionIffNoWrap(call: nat, i: nat, s: nat)
    requires i < TAG_PERIOD && 0 < s <= 255 && i * (SECTOR * s) < 0x1_0000_0000
    ensures Position(TagAt(call + i), TagAt(call), SECTOR * s) == i * (SECTOR * s)
      <==> TagAt(call) + i < MAX_TAG
  {
    var base, tag := TagAt(call), TagAt(call + i);
    var c := SECTOR * s;
    TagAdvance(call, i);
    if base + i < MAX_TAG {
      assert tag - base == i;
    } else {
      var d := 0x1_0000_0000 - TAG_PERIOD + i;
      assert (tag - base) % 0x1_0000_0000 == d;
      WrappedProduct(i, s);
    }
  }

  lemma TagAdvance(call: nat, i: nat)
    requires i < TAG_PERIOD
    ensures TagAt(call + i) == if TagAt(call) + i < MAX_TAG then TagAt(call) + i else TagAt(call) + i - TAG_PERIOD
  {
  }

  lemma WrappedProduct(i: nat, s: nat)
    requires 0 < s <= 255
    ensures ((0x1_0000_0000 - TAG_PERIOD + i) * (SECTOR * s)) % 0x1_0000_0000 != i * (SECTOR * s)
  {
    var c := SECTOR * s;
    var p := (0x1_0000_0000 - TAG_PERIOD + i) * c;
    var extra := (0x1_0000_0000 - TAG_PERIOD) * c;
    assert p == extra + i * c;
    assert extra == 384 * s * 0x1_0000_0000 + 1024 * s;
    var q := p / 0x1_0000_0000;
    assert p == q * 0x1_0000_0000 + p % 0x1_0000_0000;
    assert p - i * c - q * 0x1_0000_0000 == 1024 * s - (q - 384 * s) * 0x1_0000_0000;
  }
}
