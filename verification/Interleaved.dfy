/** A target that carries out other frames among those of a block: late copies of an earlier
    write, say, resent or left on another port by a command that was cancelled. */
module Interleaved {
  import opened Wire
  import opened Blocks

  // One frame that the target gets: frame i of the block, or a frame of something else.
  datatype Item = Mine(frame: nat) | Stranger(c: Decoded)

  ghost predicate ItemsOk(b: Block, xs: seq<Item>)
    requires b.s > 0
  {
    forall j :: 0 <= j < |xs| && xs[j].Mine? ==> xs[j].frame < Requests(b.n, b.s)
  }

  function Content(b: Block, x: Item): Decoded
    requires BlockOk(b) && (x.Mine? ==> x.frame < Requests(b.n, b.s))
  {
    match x
    case Mine(i) => Frame(b, i)
    case Stranger(c) => c
  }

  function DeliverMixed(d: Disk, b: Block, xs: seq<Item>): (d': Disk)
    requires BlockOk(b) && ItemsOk(b, xs)
    ensures |d'| == |d|
    decreases |xs|
  {
    if xs == [] then d
    else Execute(b.to, DeliverMixed(d, b, xs[..|xs| - 1]), Content(b, xs[|xs| - 1]))
  }

  function Strangers(xs: seq<Item>): (ys: seq<Item>)
    ensures forall j :: 0 <= j < |ys| ==> ys[j].Stranger?
    decreases |xs|
  {
    if xs == [] then []
    else
      var last := xs[|xs| - 1];
      Strangers(xs[..|xs| - 1]) + (if last.Mine? then [] else [last])
  }

  // A frame that writes no sector of the block.
  predicate Apart(b: Block, c: Decoded) {
    !c.write || c.lba + c.count <= b.lba || b.lba + b.n <= c.lba
  }

  ghost predicate AllApart(b: Block, xs: seq<Item>) {
    forall j :: 0 <= j < |xs| && xs[j].Stranger? ==> Apart(b, xs[j].c)
  }

  // A frame of the block among `xs` owns byte k.
  ghost predicate OwnedIn(b: Block, xs: seq<Item>, k: nat) {
    exists j :: 0 <= j < |xs| && xs[j].Mine? && Owns(b, xs[j].frame, k)
  }

  lemma OwnedByLast(b: Block, xs: seq<Item>, k: nat)
    requires xs != []
    ensures var m := |xs| - 1;
      OwnedIn(b, xs, k) <==> OwnedIn(b, xs[..m], k) || (xs[m].Mine? && Owns(b, xs[m].frame, k))
  {
    var m := |xs| - 1;
    if OwnedIn(b, xs[..m], k) {
      var j :| 0 <= j < m && xs[..m][j].Mine? && Owns(b, xs[..m][j].frame, k);
      assert xs[j] == xs[..m][j];
    }
    if OwnedIn(b, xs, k) {
      var j :| 0 <= j < |xs| && xs[j].Mine? && Owns(b, xs[j].frame, k);
      if j < m { assert xs[..m][j] == xs[j]; }
    }
  }

  lemma OwnedInRange(b: Block, xs: seq<Item>, k: nat)
    requires BlockOk(b) && ItemsOk(b, xs) && OwnedIn(b, xs, k)
    ensures SECTOR * b.lba <= k < SECTOR * (b.lba + b.n)
  {
    var j :| 0 <= j < |xs| && xs[j].Mine? && Owns(b, xs[j].frame, k);
    OwnsInRange(b, xs[j].frame, k);
  }

  lemma OwnsInRange(b: Block, i: nat, k: nat)
    requires BlockOk(b) && i < Requests(b.n, b.s) && Owns(b, i, k)
    ensures SECTOR * b.lba <= k < SECTOR * (b.lba + b.n)
  {
    Tiling(b.n, b.s, i);
  }

  lemma StrangersOnly(b: Block, xs: seq<Item>)
    requires b.s > 0
    ensures ItemsOk(b, Strangers(xs))
  {
  }

  // What one more frame of something else does to a byte.
  lemma StrangerByte(b: Block, d: Disk, e: Disk, c: Decoded, k: nat)
    requires |d| == |e| && k < |d|
    ensures d[k] == e[k] ==> Execute(b.to, d, c)[k] == Execute(b.to, e, c)[k]
  {
  }

  lemma ApartByte(d: Disk, b: Block, c: Decoded, k: nat)
    requires k < |d| && SECTOR * b.lba <= k < SECTOR * (b.lba + b.n) && Apart(b, c)
    ensures Execute(b.to, d, c)[k] == d[k]
  {
  }

  lemma {:induction false} MixedByte(d: Disk, b: Block, xs: seq<Item>, k: nat)
    requires WriteOk(b) && OnDisk(b, d) && ItemsOk(b, xs) && AllApart(b, xs) && k < |d|
    ensures ItemsOk(b, Strangers(xs))
    ensures DeliverMixed(d, b, xs)[k]
         == if OwnedIn(b, xs, k) then Splice(d, SECTOR * b.lba, b.data)[k] else DeliverMixed(d, b, Strangers(xs))[k]
    decreases |xs|
  {
    StrangersOnly(b, xs);
    if xs != [] {
      var m := |xs| - 1;
      MixedByte(d, b, xs[..m], k);
      OwnedByLast(b, xs, k);
      if xs[m].Mine? {
        assert Strangers(xs) == Strangers(xs[..m]);
        MineStep(d, b, xs, k);
      } else {
        StrangersGrow(d, b, xs);
        StrangerStep(d, b, xs[..m], xs[m].c, k);
      }
    }
  }

  lemma MineStep(d: Disk, b: Block, xs: seq<Item>, k: nat)
    requires WriteOk(b) && OnDisk(b, d) && ItemsOk(b, xs) && xs != [] && k < |d|
    requires xs[|xs| - 1].Mine?
    ensures var m := |xs| - 1;
      DeliverMixed(d, b, xs)[k]
        == if Owns(b, xs[m].frame, k) then Splice(d, SECTOR * b.lba, b.data)[k] else DeliverMixed(d, b, xs[..m])[k]
  {
    var m := |xs| - 1;
    ExecuteByte(DeliverMixed(d, b, xs[..m]), d, b, xs[m].frame, k);
  }

  lemma StrangersGrow(d: Disk, b: Block, xs: seq<Item>)
    requires BlockOk(b) && ItemsOk(b, xs) && xs != [] && xs[|xs| - 1].Stranger?
    ensures var before := Strangers(xs[..|xs| - 1]);
      && ItemsOk(b, before) && ItemsOk(b, Strangers(xs))
      && DeliverMixed(d, b, Strangers(xs)) == Execute(b.to, DeliverMixed(d, b, before), xs[|xs| - 1].c)
  {
    var before := Strangers(xs[..|xs| - 1]);
    StrangersOnly(b, xs);
    StrangersOnly(b, xs[..|xs| - 1]);
    assert Strangers(xs) == before + [xs[|xs| - 1]];
    assert Strangers(xs)[..|before|] == before;
  }

  lemma StrangerStep(d: Disk, b: Block, xs: seq<Item>, c: Decoded, k: nat)
    requires BlockOk(b) && ItemsOk(b, xs) && ItemsOk(b, Strangers(xs)) && Apart(b, c) && k < |d|
    ensures var before, others := DeliverMixed(d, b, xs), DeliverMixed(d, b, Strangers(xs));
      && (OwnedIn(b, xs, k) ==> Execute(b.to, before, c)[k] == before[k])
      && (before[k] == others[k] ==> Execute(b.to, before, c)[k] == Execute(b.to, others, c)[k])
  {
    if OwnedIn(b, xs, k) {
      OwnedInRange(b, xs, k);
      ApartByte(DeliverMixed(d, b, xs), b, c, k);
    }
    StrangerByte(b, DeliverMixed(d, b, xs), DeliverMixed(d, b, Strangers(xs)), c, k);
  }

  // A block write among others is a plain write on top of them: as long as the others keep
  // off its sectors, in any order and with any repetition, the disk ends as if the block had
  // been written last.
  lemma WriteAmongOthers(d: Disk, b: Block, xs: seq<Item>)
    requires WriteOk(b) && OnDisk(b, d) && ItemsOk(b, xs) && AllApart(b, xs)
    requires forall i :: 0 <= i < Requests(b.n, b.s) ==> Mine(i) in xs
    ensures ItemsOk(b, Strangers(xs))
    ensures DeliverMixed(d, b, xs) == Splice(DeliverMixed(d, b, Strangers(xs)), SECTOR * b.lba, b.data)
  {
    StrangersOnly(b, xs);
    var end, others := DeliverMixed(d, b, xs), DeliverMixed(d, b, Strangers(xs));
    forall k | 0 <= k < |d| ensures end[k] == Splice(others, SECTOR * b.lba, b.data)[k] {
      MixedByte(d, b, xs, k);
      if SECTOR * b.lba <= k < SECTOR * (b.lba + b.n) {
        var i := Owner(b.n, b.s, k / SECTOR - b.lba);
        assert Mine(i) in xs;
        var j :| 0 <= j < |xs| && xs[j] == Mine(i);
        assert OwnedIn(b, xs, k);
      } else if OwnedIn(b, xs, k) {
        OwnedInRange(b, xs, k);
      }
    }
  }

  // Frame c carries another value for byte k than the block does.
  predicate Conflicts(b: Block, c: Decoded, k: nat)
    requires |b.data| == SECTOR * b.n && |c.data| == SECTOR * c.count
  {
    && SECTOR * b.lba <= k < SECTOR * (b.lba + b.n) && SECTOR * c.lba <= k < SECTOR * (c.lba + c.count)
    && c.data[k - SECTOR * c.lba] != b.data[k - SECTOR * b.lba]
  }

  function Sectors(d: Disk, b: Block): seq<byte>
    requires OnDisk(b, d)
  {
    d[SECTOR * b.lba..SECTOR * (b.lba + b.n)]
  }

  // A late frame leaves a block that is on the disk as it is, if and only if it carries no
  // other value for any of its bytes.
  lemma LateFrameIff(d: Disk, b: Block, c: Decoded)
    requires b.write && |b.data| == SECTOR * b.n && OnDisk(b, d) && Sectors(d, b) == b.data
    requires c.head == AtaHead(b.to) && c.write && StoresData(c.command)
    requires |c.data| == SECTOR * c.count && SECTOR * (c.lba + c.count) <= |d|
    ensures Sectors(Execute(b.to, d, c), b) == b.data <==> forall k: nat :: !Conflicts(b, c, k)
  {
    var lo := SECTOR * b.lba;
    var after := Sectors(Execute(b.to, d, c), b);
    forall i | 0 <= i < |b.data| ensures after[i] == b.data[i] <==> !Conflicts(b, c, lo + i) {
      LateByte(d, b, c, i);
    }
    if after == b.data {
      forall k: nat | lo <= k < lo + |b.data| ensures !Conflicts(b, c, k) {
        LateByte(d, b, c, k - lo);
      }
    }
  }

  lemma LateByte(d: Disk, b: Block, c: Decoded, i: nat)
    requires b.write && |b.data| == SECTOR * b.n && OnDisk(b, d) && Sectors(d, b) == b.data && i < |b.data|
    requires c.head == AtaHead(b.to) && c.write && StoresData(c.command)
    requires |c.data| == SECTOR * c.count && SECTOR * (c.lba + c.count) <= |d|
    ensures Sectors(Execute(b.to, d, c), b)[i] == b.data[i] <==> !Conflicts(b, c, SECTOR * b.lba + i)
  {
    assert Sectors(d, b)[i] == d[SECTOR * b.lba + i];
    assert Sectors(Execute(b.to, d, c), b)[i] == Execute(b.to, d, c)[SECTOR * b.lba + i];
  }
}
