/** The ATA controller of one target (AoE/AoEController.cpp): the commands it issues for a
    block and its handling of the replies, proved against modules Blocks, Replies and
    WriteReport. 48-bit commands only. */
module Controller {
  import opened Common
  import opened Wire
  import opened TagGenerator
  import opened Blocks
  import opened Replies
  import opened WriteReport

  datatype IOReturn = NoErr | DeviceError | DevBusy

  // ATA command codes.
  const READ: nat := 0x20
  const READ_EXTENDED: nat := 0x24
  const READ_DMA_EXTENDED: nat := 0x25
  const READ_DMA: nat := 0xC8
  const WRITE: nat := 0x30
  const WRITE_EXTENDED: nat := 0x34
  const WRITE_DMA_EXTENDED: nat := 0x35
  const WRITE_DMA: nat := 0xCA

  // DMA commands go out as the plain ones, the only ones a target knows.
  function Translate(command: nat): nat {
    if command == READ_DMA_EXTENDED then READ_EXTENDED
    else if command == READ_DMA then READ
    else if command == WRITE_DMA_EXTENDED then WRITE_EXTENDED
    else if command == WRITE_DMA then WRITE
    else command
  }

  // The register codes for which a block is cut into frames, by direction.
  predicate IsRead(register: nat) {
    register == 0x20 || register == 0x24 || register == 0x25 || register == 0xC8
  }

  predicate IsWrite(register: nat) {
    register == 0x30 || register == 0x34 || register == 0x35 || register == 0xCA
  }

  // The code with which a frame goes out: a read stays a read, a write stays a write, and
  // both keep the width of their address.
  predicate SentAs(register: nat, sent: nat) {
    && (register == 0x20 || register == 0xC8 ==> sent == 0x20)
    && (register == 0x24 || register == 0x25 ==> sent == 0x24)
    && (register == 0x30 || register == 0xCA ==> sent == 0x30)
    && (register == 0x34 || register == 0x35 ==> sent == 0x34)
  }

  // All frames from position `from` on: version 1, no flags, the target and the code.
  ghost predicate AllSentAs(frames: seq<Decoded>, from: nat, register: nat, to: Device) {
    forall i :: from <= i < |frames| ==> frames[i].head == Head(1, 0, to, 0) && SentAs(register, frames[i].command)
  }

  lemma BlockSentAs(before: seq<Decoded>, b: Block, register: nat, online: bool)
    requires BlockOk(b) && SentAs(register, b.command)
    ensures AllSentAs(before + (if online then Frames(b) else []), |before|, register, b.to)
  {
  }

  lemma Translated(register: nat)
    requires IsRead(register) || IsWrite(register)
    ensures SentAs(register, Translate(register))
    ensures IsRead(register) <==> FetchesData(Translate(register))
    ensures IsWrite(register) <==> StoresData(Translate(register))
  {
  }

  // The header fields issueCommand writes.
  function Build(tag: nat, g: ExtRegs, write: bool, shelf: nat, slot: nat, data: seq<byte>): Request {
    Request(SetVerFlagErr(1, 0, 0), Htons(shelf % 0x1_0000), SetPair(slot, 0), SetTagHigh(tag), SetTagLow(tag),
            SetPair(AOE_AFLAGS_E + (if write then AOE_AFLAGS_W else 0), Lo(g.features)),
            SetPair(Lo(g.count), g.command),
            SetPair(Lo(g.low), Lo(g.mid)),
            SetPair(Lo(g.high), Hi(g.low)),
            SetPair(Hi(g.mid), Hi(g.high)),
            data)
  }

  lemma Pair(a: byte, b: byte)
    ensures SetPair(a, b) == Word(a, b)
  {
  }

  lemma LbaBuilt(r: Request, g: ExtRegs)
    requires r.lba01 == SetPair(Lo(g.low), Lo(g.mid)) && r.lba23 == SetPair(Lo(g.high), Hi(g.low))
    requires r.lba45 == SetPair(Hi(g.mid), Hi(g.high))
    ensures LbaOf(r) == Address(g)
  {
    Pair(Lo(g.low), Lo(g.mid));
    Pair(Lo(g.high), Hi(g.low));
    Pair(Hi(g.mid), Hi(g.high));
  }

  lemma FlagsBuilt(w: Word, write: bool, features: nat)
    requires w == SetPair(AOE_AFLAGS_E + (if write then AOE_AFLAGS_W else 0), features)
    ensures (w.first / AOE_AFLAGS_E) % 2 == 1 && (w.first % 2 == 1 <==> write)
  {
  }

  // The major and minor address that the header has room for.
  function Addressee(shelf: nat, slot: nat): Device {
    Device(shelf % 0x1_0000, slot % 256)
  }

  lemma HeadBuilt(r: Request, shelf: nat, slot: nat)
    requires r.verFlagErr == SetVerFlagErr(1, 0, 0) && r.major == Htons(shelf % 0x1_0000) && r.minorCmd == SetPair(slot, 0)
    ensures ReadHead(r) == AtaHead(Addressee(shelf, slot))
  {
    VerFlagErrRoundTrip(1, 0, 0);
    SwapTwice(shelf % 0x1_0000);
  }

  // The 22 bytes of the header, one by one.
  lemma HeaderBuilt(tag: nat, g: ExtRegs, write: bool, shelf: nat, slot: nat, data: seq<byte>)
    requires tag < 0x1_0000_0000 && shelf < 0x1_0000 && slot < 256 && g.command < 256
    ensures HeaderBytes(Build(tag, g, write, shelf, slot, data))
         == [0x10, 0, shelf / 256, shelf % 256, slot, 0,
             tag / 0x100_0000, (tag / 0x1_0000) % 256, (tag / 256) % 256, tag % 256,
             if write then 0x41 else 0x40, g.features % 256, g.count % 256, g.command,
             g.low % 256, g.mid % 256, g.high % 256, g.low / 256, g.mid / 256, g.high / 256, 0, 0]
  {
    var r := Build(tag, g, write, shelf, slot, data);
    BytesOfTag(tag);
    AddressWords(shelf, slot);
    RegisterWords(g);
    assert r.flagsFeature == Word(if write then 0x41 else 0x40, g.features % 256);
    assert r.countCommand == Word(g.count % 256, g.command);
  }

  lemma AddressWords(shelf: nat, slot: nat)
    requires shelf < 0x1_0000 && slot < 256
    ensures SetVerFlagErr(1, 0, 0) == Word(0x10, 0)
    ensures Htons(shelf % 0x1_0000) == Word(shelf / 256, shelf % 256) && SetPair(slot, 0) == Word(slot, 0)
  {
  }

  lemma RegisterWords(g: ExtRegs)
    ensures SetPair(Lo(g.low), Lo(g.mid)) == Word(g.low % 256, g.mid % 256)
    ensures SetPair(Lo(g.high), Hi(g.low)) == Word(g.high % 256, g.low / 256)
    ensures SetPair(Hi(g.mid), Hi(g.high)) == Word(g.mid / 256, g.high / 256)
  {
    Pair(Lo(g.low), Lo(g.mid));
    Pair(Lo(g.high), Hi(g.low));
    Pair(Hi(g.mid), Hi(g.high));
  }

  lemma BytesOfTag(tag: nat)
    requires tag < 0x1_0000_0000
    ensures SetTagHigh(tag) == Word(tag / 0x100_0000, (tag / 0x1_0000) % 256)
    ensures SetTagLow(tag) == Word((tag / 256) % 256, tag % 256)
  {
    NextDigit(tag, 0x100);
    NextDigit(tag, 0x1_0000);
    NextDigit(tag, 1);
    BytesOfWord(tag / 0x1_0000, (tag / 0x100) % 256, tag % 256);
  }

  lemma BytesOfWord(high: nat, mid: byte, low: byte)
    requires high < 0x1_0000
    ensures var x := 0x1_0000 * high + 0x100 * mid + low;
      && (x / 0x1_0000) % 0x1_0000 == high && x % 0x1_0000 == 0x100 * mid + low
      && Htons(x % 0x1_0000) == Word(mid, low)
  {
    var x := 0x1_0000 * high + 0x100 * mid + low;
    assert x / 0x1_0000 == high;
    Packed(mid, low);
  }

  // A target reads back the version, its own address, the tag, the address in the registers,
  // the low byte of the count, the command and the direction.
  lemma BuildDecodes(tag: nat, g: ExtRegs, write: bool, shelf: nat, slot: nat, data: seq<byte>)
    requires tag < 0x1_0000_0000
    ensures Decode(Build(tag, g, write, shelf, slot, data))
         == Decoded(AtaHead(Addressee(shelf, slot)), tag, Address(g), g.count % 256, g.command % 256, true, write, data)
  {
    var r := Build(tag, g, write, shelf, slot, data);
    HeadBuilt(r, shelf, slot);
    TagRoundTrip(tag);
    LbaBuilt(r, g);
    FlagsBuilt(r.flagsFeature, write, Lo(g.features));
    Pair(Lo(g.count), Lo(g.count));
  }

  // A command of the ATA family: the parts of it that this driver uses.
  class BusCommand {
    const buffer: array<byte>
    var byteCount: nat
    var actualTransfer: nat
    var chunkSize: nat
    var position: nat
    var write: bool
    var useDMA: bool
    var regs: ExtRegs
    var phase: Phase
    var endStatus: nat
    var endError: nat

    constructor (buffer: array<byte>, byteCount: nat, write: bool, useDMA: bool, regs: ExtRegs)
      ensures this.buffer == buffer && this.byteCount == byteCount && this.write == write && this.regs == regs
      ensures actualTransfer == position == 0
    {
      this.buffer, this.byteCount, this.write, this.useDMA, this.regs := buffer, byteCount, write, useDMA, regs;
      actualTransfer, chunkSize, position, phase, endStatus, endError := 0, 0, 0, Status, 0, 0;
    }
  }

  class AoEController {
    const m_pProvider: Generator
    const doubleBuffer: array<byte>
    const command: BusCommand
    const nShelf: nat
    const nSlot: nat
    var m_nMaxSectorsPerTransfer: nat
    var m_nReadWriteRepliesRequired: int
    var m_unReadBaseTag: nat
    var m_PreviousWriteStatus: nat
    var m_PreviousWriteError: nat
    var outgoing: seq<Request>       // the frames handed to the transport
    ghost var frames: seq<Decoded>   // what a target will read from them
    ghost var interrupts: nat        // calls of handleDeviceInterrupt

    constructor (provider: Generator, double: array<byte>, cmd: BusCommand, shelf: nat, slot: nat, sectors: nat)
      requires provider.Valid() && double != cmd.buffer
      ensures Valid() && m_pProvider == provider && command == cmd && doubleBuffer == double
      ensures m_nMaxSectorsPerTransfer == sectors && frames == [] && interrupts == 0
      ensures nShelf == shelf && nSlot == slot && PendingView() == Pending(0, 0, 0)
    {
      m_pProvider, doubleBuffer, command, nShelf, nSlot := provider, double, cmd, shelf, slot;
      m_nMaxSectorsPerTransfer := sectors;
      m_nReadWriteRepliesRequired, m_unReadBaseTag, m_PreviousWriteStatus, m_PreviousWriteError := 0, 0, 0, 0;
      outgoing, frames, interrupts := [], [], 0;
    }

    ghost predicate Valid()
      reads this, m_pProvider
    {
      && m_pProvider.Valid()
      && doubleBuffer != command.buffer
      && |frames| == |outgoing|
      && forall i {:trigger Decode(outgoing[i])} :: 0 <= i < |outgoing| ==> Decode(outgoing[i]) == frames[i]
    }

    ghost function PendingView(): Pending
      reads this
    {
      Pending(m_nReadWriteRepliesRequired, m_PreviousWriteStatus, m_PreviousWriteError)
    }

    ghost function TransferView(): Transfer
      reads this, command, command.buffer
    {
      Transfer(command.buffer[..], command.actualTransfer, m_nReadWriteRepliesRequired,
               command.phase, interrupts)
    }

    ghost function SetupView(): Setup
      reads this, command
    {
      Setup(command.byteCount, command.chunkSize, m_nMaxSectorsPerTransfer * SECTOR,
            doubleBuffer.Length, m_unReadBaseTag)
    }

    // set_mtu_size, when a port has come up: the room in a frame changes under a command that
    // waits for its replies.
    method SetMtuSize(nMTU: nat)
      requires Valid()
      modifies this`m_nMaxSectorsPerTransfer
      ensures Valid() && m_nMaxSectorsPerTransfer == CountSectorsFromMtu(nMTU)
      ensures SetupView() == old(SetupView()).(room := CountSectorsFromMtu(nMTU) * SECTOR)
      ensures TransferView() == old(TransferView()) && PendingView() == old(PendingView())
    {
      m_nMaxSectorsPerTransfer := CountSectorsFromMtu(nMTU);
    }

    // ---- Issuing ----

    // append_write_data: the next chunk of the double buffer.
    method AppendWriteData() returns (data: seq<byte>)
      requires command.position == 0 && command.byteCount <= doubleBuffer.Length
      requires command.actualTransfer <= command.byteCount && doubleBuffer.Length > 0
      modifies command`actualTransfer
      ensures var from := old(command.actualTransfer);
        var to := Min(from + command.chunkSize, command.byteCount);
        from <= to && command.actualTransfer == to && data == doubleBuffer[from..to]
    {
      data := [];
      var bytesRemaining := command.byteCount - command.actualTransfer;
      if bytesRemaining < 1 {
        return;
      }
      ghost var from := command.actualTransfer;
      var xfrPosition := command.position + command.actualTransfer;
      var thisPass := bytesRemaining;
      if thisPass > command.chunkSize {
        thisPass := command.chunkSize;
      }
      ghost var to := from + thisPass;
      assert doubleBuffer[from..from] == [];
      while thisPass > 0
        invariant xfrPosition == command.actualTransfer && xfrPosition + thisPass == to
        invariant xfrPosition == from || thisPass == 0
        invariant thisPass == 0 ==> data == doubleBuffer[from..to]
        decreases thisPass
      {
        var bufferBytes := Min(thisPass, doubleBuffer.Length);
        data := doubleBuffer[xfrPosition..xfrPosition + bufferBytes];
        xfrPosition := xfrPosition + bufferBytes;
        thisPass := thisPass - bufferBytes;
        command.actualTransfer := command.actualTransfer + bufferBytes;
      }
    }

    // One request from the registers as they are; `online` says whether the transport takes it.
    method IssueCommand(online: bool) returns (err: IOReturn)
      requires Valid()
      requires command.write ==>
        && command.position == 0 && 0 < command.byteCount <= doubleBuffer.Length
        && command.actualTransfer <= command.byteCount
      modifies this`outgoing, this`frames, this`m_unReadBaseTag, command`actualTransfer, m_pProvider
      ensures Valid() && m_pProvider.calls == old(m_pProvider.calls) + 1
      ensures err == if online then NoErr else DevBusy
      ensures m_unReadBaseTag == if old(m_unReadBaseTag) == 0 then TagAt(m_pProvider.calls) else old(m_unReadBaseTag)
      ensures var from := old(command.actualTransfer);
        var to := if command.write then Min(from + command.chunkSize, command.byteCount) else from;
        && from <= to && command.actualTransfer == to
        && frames == if !online then old(frames) else
             old(frames) + [Decoded(Head(1, 0, Device(nShelf % 0x1_0000, nSlot % 256), 0),
                                    TagAt(m_pProvider.calls), Address(command.regs),
                                    command.regs.count % 256, command.regs.command % 256,
                                    true, command.write,
                                    if command.write then doubleBuffer[from..to] else [])]
    {
      var Tag := m_pProvider.NextTag();
      if m_unReadBaseTag == 0 {
        m_unReadBaseTag := Tag;
      }
      var data := [];
      if command.write {
        data := AppendWriteData();
      }
      TagShape(m_pProvider.calls);
      BuildDecodes(Tag, command.regs, command.write, nShelf, nSlot, data);
      if !online {
        return DevBusy;
      }
      var r := Build(Tag, command.regs, command.write, nShelf, nSlot, data);
      outgoing := outgoing + [r];
      frames := frames + [Decode(r)];
      return NoErr;
    }

    // readBytes(0, double buffer, byte count)
    method FillDoubleBuffer()
      requires command.byteCount <= doubleBuffer.Length
      requires command.byteCount <= command.buffer.Length && doubleBuffer != command.buffer
      modifies doubleBuffer
      ensures doubleBuffer[..command.byteCount] == command.buffer[..command.byteCount]
    {
      for k := 0 to command.byteCount
        invariant doubleBuffer[..k] == command.buffer[..k]
      {
        doubleBuffer[k] := command.buffer[k];
      }
    }

    // The block that the command amounts to, with frames of up to s sectors.
    ghost function BlockView(s: nat): Block
      requires command.byteCount <= command.buffer.Length
      reads this, command, command.buffer, m_pProvider
    {
      Block(m_pProvider.calls, Address(command.regs), command.byteCount / SECTOR, s,
            Addressee(nShelf, nSlot), Translate(command.regs.command), command.write,
            if command.write then command.buffer[..command.byteCount] else [])
    }

    // What asyncCommand relies on: a whole number of sectors, at most 255 to a frame; a fresh
    // command; and the count register giving the number of whole frames (PlanAgrees).
    ghost predicate CanSplit()
      reads this, command
    {
      && 0 < m_nMaxSectorsPerTransfer <= 255
      && 0 < command.byteCount < 0x1_0000_0000 && command.byteCount % SECTOR == 0
      && command.byteCount <= command.buffer.Length
      && command.actualTransfer == 0 && command.position == 0
      && (command.write ==> command.byteCount <= doubleBuffer.Length)
      && (IsRead(command.regs.command) || IsWrite(command.regs.command))
      && var n := command.byteCount / SECTOR;
         var s := Min(m_nMaxSectorsPerTransfer, n);
         Max(1, command.regs.count / s) == n / s
    }

    ghost function ProgressView(): Progress
      reads this, command, m_pProvider
    {
      Progress(m_pProvider.calls, command.actualTransfer, frames, m_unReadBaseTag, Address(command.regs))
    }

    // The fields that issuing requests leaves alone agree with block b.
    ghost predicate Fits(b: Block)
      requires BlockOk(b)
      reads this, command, m_pProvider, doubleBuffer
    {
      && Valid()
      && command.byteCount == SECTOR * b.n && command.chunkSize == SECTOR * b.s && command.position == 0
      && command.write == b.write && command.regs.command == b.command && b.to == Addressee(nShelf, nSlot)
      && (b.write ==> command.byteCount <= doubleBuffer.Length && doubleBuffer[..command.byteCount] == b.data)
    }

    // One turn of the splitting loop: count, issue, and move the address on.
    method IssueNext(count: nat, online: bool, ghost b: Block) returns (err: IOReturn)
      requires BlockOk(b) && Fits(b) && count < 0x1_0000 && command.actualTransfer <= command.byteCount
      modifies this`outgoing, this`frames, this`m_unReadBaseTag, command`actualTransfer, command`regs, m_pProvider
      ensures Fits(b) && err == (if online then NoErr else DevBusy)
      ensures ProgressView() == Issue(b, doubleBuffer[..], old(ProgressView()), count, online)
    {
      SetCount(count);
      err := IssueCommand(online);
      Advance(count);
    }

    method SetCount(count: U16)
      modifies command`regs
      ensures command.regs == old(command.regs).(count := count)
      ensures Address(command.regs) == old(Address(command.regs))
    {
      command.regs := command.regs.(count := count);
    }

    // increment_address
    method Advance(count: nat)
      modifies command`regs
      ensures Address(command.regs) == (old(Address(command.regs)) + count) % TWO48
      ensures command.regs.count == old(command.regs.count) && command.regs.command == old(command.regs.command)
    {
      IncrementAdds(command.regs, count);
      command.regs := IncrementAddress(command.regs, count);
    }

    // The whole frames of a block.
    method IssueWhole(total: nat, online: bool, nNumSectors: nat, ghost b: Block, ghost before: seq<Decoded>)
      returns (err: IOReturn)
      requires BlockOk(b) && Fits(b) && b.s <= 255 && b.command < 256 && nNumSectors == b.s
      requires total <= Requests(b.n, b.s) && forall i :: 0 <= i < total ==> SectorsIn(b.n, b.s, i) == b.s
      requires Progressed(b, before, 0, online, ProgressView())
      modifies this`outgoing, this`frames, this`m_unReadBaseTag, command`actualTransfer, command`regs, m_pProvider
      ensures Fits(b) && Progressed(b, before, total, online, ProgressView())
      ensures err == (if online || total == 0 then NoErr else DevBusy)
    {
      err := NoErr;
      var n: nat := 0;
      while n < total
        invariant n <= total && Fits(b) && Progressed(b, before, n, online, ProgressView())
        invariant err == (if online || n == 0 then NoErr else DevBusy)
      {
        IssueStep(b, before, n, online, doubleBuffer[..], ProgressView(), nNumSectors);
        err := IssueNext(nNumSectors, online, b);
        n := n + 1;
      }
    }

    // The bytes that the frames counted so far leave over, in 32-bit unsigned arithmetic.
    method BytesLeft(nNumSectors: nat, ghost b: Block) returns (left: nat)
      requires BlockOk(b) && nNumSectors == b.s && command.byteCount == SECTOR * b.n < 0x1_0000_0000
      requires m_nReadWriteRepliesRequired == b.n / b.s
      ensures left == SECTOR * (b.n % b.s)
    {
      LeftOver(b.n, b.s);
      left := (command.byteCount - m_nReadWriteRepliesRequired * (SECTOR * nNumSectors)) % 0x1_0000_0000;
    }

    // The requests of a block: as many whole frames as the byte count holds, then the
    // left-over sectors.
    method IssueBlock(nNumSectors: nat, online: bool, ghost b: Block) returns (err: IOReturn)
      requires BlockOk(b) && Fits(b) && b.s <= 255 && b.command < 256 && nNumSectors == b.s
      requires Max(1, command.regs.count / b.s) == b.n / b.s && SECTOR * b.n < 0x1_0000_0000
      requires Progressed(b, frames, 0, online, ProgressView())
      modifies this`outgoing, this`frames, this`m_unReadBaseTag, this`m_nReadWriteRepliesRequired,
               command`actualTransfer, command`regs, m_pProvider
      ensures Fits(b) && err == (if online then NoErr else DevBusy)
      ensures m_nReadWriteRepliesRequired == Requests(b.n, b.s)
      ensures Progressed(b, old(frames), Requests(b.n, b.s), online, ProgressView())
    {
      ghost var before := frames;
      m_nReadWriteRepliesRequired := Max(1, command.regs.count / nNumSectors);
      WholeFrames(b);
      RequestsRoundsUp(b.n, b.s);
      var total := command.byteCount / (SECTOR * nNumSectors);
      err := IssueWhole(total, online, nNumSectors, b, before);
      var left := BytesLeft(nNumSectors, b);
      if left != 0 {
        var nRest := left / SECTOR;
        if nRest > 0 {
          m_nReadWriteRepliesRequired := m_nReadWriteRepliesRequired + 1;
          LastFrame(b);
          IssueStep(b, before, total, online, doubleBuffer[..], ProgressView(), nRest);
          err := IssueNext(nRest, online, b);
        }
      }
    }

    // Chunk size, base tag and, for a write, the double buffer and the error bookkeeping.
    method Prepare() returns (nNumSectors: nat, ghost b: Block)
      requires Valid() && CanSplit()
      modifies this`m_unReadBaseTag, this`m_PreviousWriteStatus, this`m_PreviousWriteError,
               command`chunkSize, command`regs, doubleBuffer
      ensures nNumSectors == Min(m_nMaxSectorsPerTransfer, command.byteCount / SECTOR)
      ensures b == old(BlockView(Min(m_nMaxSectorsPerTransfer, command.byteCount / SECTOR)))
      ensures BlockOk(b) && Fits(b) && b.s == nNumSectors <= 255 && b.command < 256
      ensures command.regs == old(command.regs).(command := Translate(old(command.regs.command)))
      ensures forall online :: Progressed(b, frames, 0, online, ProgressView())
      ensures b.write ==> m_PreviousWriteStatus == m_PreviousWriteError == 0
      ensures !b.write ==>
        m_PreviousWriteStatus == old(m_PreviousWriteStatus) && m_PreviousWriteError == old(m_PreviousWriteError)
      ensures command.buffer[..] == old(command.buffer[..])
    {
      command.chunkSize := Min(m_nMaxSectorsPerTransfer * SECTOR, command.byteCount);
      nNumSectors := command.chunkSize / SECTOR;
      b := BlockView(nNumSectors);
      m_unReadBaseTag := 0;
      if command.write {
        FillDoubleBuffer();
        m_PreviousWriteStatus := 0;
        m_PreviousWriteError := 0;
      }
      command.regs := command.regs.(command := Translate(command.regs.command));
      NoneIssued(b, ProgressView());
    }

    method AsyncCommand(online: bool) returns (err: IOReturn)
      requires Valid() && CanSplit()
      modifies this, command, m_pProvider, doubleBuffer
      ensures Valid() && err == (if online then NoErr else DevBusy)
      ensures var b := old(BlockView(Min(m_nMaxSectorsPerTransfer, command.byteCount / SECTOR)));
        && BlockOk(b)
        && frames == old(frames) + (if online then Frames(b) else [])
        && m_nReadWriteRepliesRequired == Requests(b.n, b.s)
        && m_unReadBaseTag == TagAt(b.call + 1)
        && command.chunkSize == SECTOR * b.s
        && command.actualTransfer == (if b.write then SECTOR * b.n else 0)
        && (!b.write && m_unReadBaseTag + Requests(b.n, b.s) <= MAX_TAG ==>
              (IsRead(old(command.regs.command)) <==> ReadOk(b, SetupView())))
        && (b.write ==> (IsWrite(old(command.regs.command)) <==> WriteOk(b)))
        && SetupView().chunk <= SetupView().room
        && (!b.write ==> m_PreviousWriteStatus == old(m_PreviousWriteStatus)
                         && m_PreviousWriteError == old(m_PreviousWriteError))
        && (b.write ==> m_PreviousWriteStatus == m_PreviousWriteError == 0)
      ensures AllSentAs(frames, |old(frames)|, old(command.regs.command), Device(nShelf % 0x1_0000, nSlot % 256))
      ensures m_nMaxSectorsPerTransfer == old(m_nMaxSectorsPerTransfer) && interrupts == old(interrupts)
      ensures command.byteCount == old(command.byteCount) && command.write == old(command.write)
      ensures command.buffer[..] == old(command.buffer[..])
      ensures err == NoErr ==> command.phase == if command.useDMA || command.write then Status else DataTx
    {
      ghost var register, before := command.regs.command, frames;
      ghost var b := BlockView(Min(m_nMaxSectorsPerTransfer, command.byteCount / SECTOR));
      err := IssueTransfer(online);
      Translated(register);
      BlockSentAs(before, b, register, online);
      AllIssued(b);
      if err == NoErr {
        EnterNextPhase();
      }
    }

    // The requests of the command's block.
    method IssueTransfer(online: bool) returns (err: IOReturn)
      requires Valid() && CanSplit()
      modifies this`outgoing, this`frames, this`m_unReadBaseTag, this`m_nReadWriteRepliesRequired,
               this`m_PreviousWriteStatus, this`m_PreviousWriteError,
               command`chunkSize, command`regs, command`actualTransfer, m_pProvider, doubleBuffer
      ensures err == (if online then NoErr else DevBusy)
      ensures var b := old(BlockView(Min(m_nMaxSectorsPerTransfer, command.byteCount / SECTOR)));
        && BlockOk(b) && Fits(b) && b.s <= m_nMaxSectorsPerTransfer
        && m_nReadWriteRepliesRequired == Requests(b.n, b.s)
        && Progressed(b, old(frames), Requests(b.n, b.s), online, ProgressView())
      ensures PendingView().status == (if command.write then 0 else old(PendingView()).status)
      ensures PendingView().error == (if command.write then 0 else old(PendingView()).error)
      ensures command.buffer[..] == old(command.buffer[..])
    {
      var nNumSectors, b := Prepare();
      err := IssueBlock(nNumSectors, online, b);
    }

    // Where the command waits for its replies.
    method EnterNextPhase()
      modifies command`phase
      ensures command.phase == if command.useDMA || command.write then Status else DataTx
    {
      if command.useDMA {
        command.phase := Status;
      } else if !command.write {
        command.phase := DataTx;
      } else {
        command.phase := Status;
      }
    }

    // ---- Replies ----

    // writeBytes of the command's buffer, which stores nothing past its end.
    method WriteBytes(pos: nat, x: seq<byte>)
      modifies command.buffer
      ensures Stored(command.buffer[..], old(command.buffer[..]), pos, x)
    {
      ghost var was := command.buffer[..];
      var k := 0;
      while k < |x| && pos + k < command.buffer.Length
        invariant k <= |x| && (k == 0 || pos + k <= command.buffer.Length)
        invariant forall m :: 0 <= m < |was| ==>
          command.buffer[m] == if pos <= m < pos + k then x[m - pos] else was[m]
      {
        command.buffer[pos + k] := x[k];
        k := k + 1;
      }
    }

    // completeDataRead, after the count of replies has been lowered; `xfrPosition` is where
    // the data belongs.
    method CompleteDataRead(xfrPosition: nat, c: Chain) returns (interrupt: bool)
      requires command.actualTransfer <= command.byteCount
      modifies command`actualTransfer, command`phase, command.buffer
      ensures command.actualTransfer <= command.byteCount
      ensures var t := old(TransferView());
        var r := ReadAt(t.(required := t.required + 1), old(SetupView()), xfrPosition, c);
        TransferView() == r.(interrupts := t.interrupts) && r.interrupts == t.interrupts + (if interrupt then 1 else 0)
    {
      var bytesRemaining := command.byteCount - command.actualTransfer;
      if bytesRemaining < 1 {
        command.phase := Status;
        return true;
      }
      ghost var was, u := command.buffer[..], SetupView();
      CopyData(xfrPosition, bytesRemaining, c, u);
      StoredIsStore(command.buffer[..], was, xfrPosition, Accepted(u, bytesRemaining, c));
      if m_nReadWriteRepliesRequired != 0 {
        command.phase := DataTx;
        interrupt := false;
      } else {
        command.phase := Status;
        interrupt := true;
      }
    }

    // The data of a reply, of which no more is taken than the transfer still misses.
    method CopyData(pos: nat, left: nat, c: Chain, ghost u: Setup)
      requires u == SetupView()
      modifies command`actualTransfer, command.buffer
      ensures Stored(command.buffer[..], old(command.buffer[..]), pos, Accepted(u, left, c))
      ensures command.actualTransfer == old(command.actualTransfer) + |Accepted(u, left, c)|
    {
      ghost var was := command.buffer[..];
      var nMaxTransferSize := m_nMaxSectorsPerTransfer * SECTOR;
      var bufferBytes := CopyFirst(pos, left, nMaxTransferSize, c.first, u);
      ghost var first := command.buffer[..];
      CopyRestOfChain(pos + bufferBytes, left - bufferBytes, nMaxTransferSize - bufferBytes, c.rest);
      BothParts(command.buffer[..], first, was, pos, u, left, c, bufferBytes);
    }

    // The data in the header's own buffer.
    method CopyFirst(pos: nat, left: nat, nMaxTransferSize: nat, data: seq<byte>, ghost u: Setup)
      returns (bufferBytes: nat)
      requires nMaxTransferSize == u.room && command.chunkSize == u.chunk
      modifies command`actualTransfer, command.buffer
      ensures bufferBytes == FirstBytes(u, left, |data|)
      ensures Stored(command.buffer[..], old(command.buffer[..]), pos, data[..bufferBytes])
      ensures command.actualTransfer == old(command.actualTransfer) + bufferBytes
    {
      bufferBytes := 0;
      if Min(left, command.chunkSize) > 0 {
        bufferBytes := Min(nMaxTransferSize, |data|);
        bufferBytes := Min(left, bufferBytes);
      }
      WriteBytes(pos, data[..bufferBytes]);
      command.actualTransfer := command.actualTransfer + bufferBytes;
    }

    // One more buffer of a reply, of which the bytes `done` have been stored from `start` on.
    method CopyPiece(pos: nat, left: nat, room: nat, x: seq<byte>,
                     ghost was: seq<byte>, ghost start: nat, ghost done: seq<byte>)
      returns (bufferBytes: nat)
      requires Stored(command.buffer[..], was, start, done) && pos == start + |done|
      modifies command`actualTransfer, command.buffer
      ensures bufferBytes == Min(left, Min(room, Min(doubleBuffer.Length, |x|)))
      ensures Stored(command.buffer[..], was, start, done + x[..bufferBytes])
      ensures command.actualTransfer == old(command.actualTransfer) + bufferBytes
    {
      bufferBytes := Min(doubleBuffer.Length, |x|);
      bufferBytes := Min(room, bufferBytes);
      bufferBytes := Min(left, bufferBytes);
      ghost var before := command.buffer[..];
      WriteBytes(pos, x[..bufferBytes]);
      StoredTwice(command.buffer[..], before, was, start, done, x[..bufferBytes]);
      command.actualTransfer := command.actualTransfer + bufferBytes;
    }

    // The loop over the further buffers of a reply.
    method CopyRestOfChain(pos: nat, left: nat, room: nat, rest: seq<seq<byte>>)
      modifies command`actualTransfer, command.buffer
      ensures var x := Gather(left, room, doubleBuffer.Length, rest);
        && Stored(command.buffer[..], old(command.buffer[..]), pos, x)
        && command.actualTransfer == old(command.actualTransfer) + |x|
    {
      ghost var done: seq<byte> := [];
      var k: nat, xfrPosition: nat, bytesRemaining: nat, nMaxTransferSize: nat := 0, pos, left, room;
      while k < |rest|
        invariant k <= |rest| && done == Gather(left, room, doubleBuffer.Length, rest[..k])
        invariant xfrPosition == pos + |done|
        invariant bytesRemaining == left - |done| && nMaxTransferSize == room - |done|
        invariant Stored(command.buffer[..], old(command.buffer[..]), pos, done)
        invariant command.actualTransfer == old(command.actualTransfer) + |done|
      {
        var bufferBytes := CopyPiece(xfrPosition, bytesRemaining, nMaxTransferSize, rest[k],
                                     old(command.buffer[..]), pos, done);
        assert rest[..k + 1][..k] == rest[..k];
        done := done + rest[k][..bufferBytes];
        xfrPosition := xfrPosition + bufferBytes;
        bytesRemaining := bytesRemaining - bufferBytes;
        nMaxTransferSize := nMaxTransferSize - bufferBytes;
        k := k + 1;
      }
      assert rest[..k] == rest;
    }

    // ata_response to a write, with the reply's status and error byte.
    method WriteResponse(ack: Ack) returns (interrupt: bool)
      requires Valid()
      modifies this`m_nReadWriteRepliesRequired, this`m_PreviousWriteStatus, this`m_PreviousWriteError, this`interrupts
      ensures Valid() && PendingView() == WriteReply(old(PendingView()), ack)
      ensures interrupt == (m_nReadWriteRepliesRequired == 0)
      ensures interrupts == old(interrupts) + (if interrupt then 1 else 0)
    {
      interrupt := true;
      m_nReadWriteRepliesRequired := m_nReadWriteRepliesRequired - 1;
      if m_nReadWriteRepliesRequired != 0 {
        interrupt := false;
        if !(m_PreviousWriteStatus != 0 || m_PreviousWriteError != 0) {
          m_PreviousWriteStatus := ack.status;
          if Failed(m_PreviousWriteStatus) {
            m_PreviousWriteError := ack.error;
          }
        }
      }
      if interrupt {
        interrupts := interrupts + 1;
      }
    }

    // ata_response to a read, with the tag and the data of the reply.
    method ReadResponse(Tag: nat, c: Chain) returns (interrupt: bool)
      requires Valid() && command.actualTransfer <= command.byteCount
      modifies this`m_nReadWriteRepliesRequired, this`interrupts, command`actualTransfer, command`phase, command.buffer
      ensures Valid() && command.actualTransfer <= command.byteCount
      ensures TransferView() == ReadReply(old(TransferView()), old(SetupView()), Tag, c)
      ensures SetupView() == old(SetupView()) && PendingView() == ReadAck(old(PendingView()))
      ensures interrupts == old(interrupts) + (if interrupt then 1 else 0)
    {
      m_nReadWriteRepliesRequired := m_nReadWriteRepliesRequired - 1;
      var xfrPosition := Position(Tag, m_unReadBaseTag, command.chunkSize);
      interrupt := CompleteDataRead(xfrPosition, c);
      if interrupt {
        interrupts := interrupts + 1;
      }
    }

    // asyncStatus, after the interrupt for the reply `last`.
    method AsyncStatus(last: Ack) returns (err: IOReturn)
      requires Valid()
      modifies this`m_PreviousWriteStatus, this`m_PreviousWriteError, command`endStatus, command`endError
      ensures Valid() && PendingView() == old(PendingView()).(status := 0, error := 0)
      ensures err == if Reports(old(PendingView()), last) then DeviceError else NoErr
      ensures var p := old(PendingView());
        (command.endStatus, command.endError)
          == if Failed(p.status) && p.error != 0 then (p.status, p.error)
             else (last.status, if Failed(last.status) then last.error else 0)
    {
      err := NoErr;
      var error := 0;
      if Failed(last.status) {
        error := last.error;
        err := DeviceError;
      }
      command.endStatus, command.endError := last.status, error;
      if Failed(m_PreviousWriteStatus) && m_PreviousWriteError != 0 {
        command.endStatus, command.endError := m_PreviousWriteStatus, m_PreviousWriteError;
        err := DeviceError;
      }
      m_PreviousWriteStatus := 0;
      m_PreviousWriteError := 0;
    }
  }

  // ---- How far a block has been issued ----

  // Tags taken, ActualTransfer, frames out, base tag, and the address in the registers.
  datatype Progress = Progress(calls: nat, actual: nat, frames: seq<Decoded>, base: nat, address: nat)

  // What one request does to it; `double` is the content of the double buffer.
  ghost function Issue(b: Block, double: seq<byte>, p: Progress, count: nat, online: bool): Progress
    requires p.actual <= SECTOR * b.n && (b.write ==> SECTOR * b.n <= |double|)
  {
    var to := if b.write then Min(p.actual + SECTOR * b.s, SECTOR * b.n) else p.actual;
    var c := Decoded(AtaHead(b.to), TagAt(p.calls + 1), p.address, count % 256, b.command % 256, true, b.write,
                     if b.write then double[p.actual..to] else []);
    Progress(p.calls + 1, to, if online then p.frames + [c] else p.frames,
             if p.base == 0 then TagAt(p.calls + 1) else p.base, (p.address + count) % TWO48)
  }

  // After i requests of block b, on top of the frames `before`.
  ghost predicate Progressed(b: Block, before: seq<Decoded>, i: nat, online: bool, p: Progress)
    requires BlockOk(b)
  {
    && i <= Requests(b.n, b.s)
    && p.calls == b.call + i
    && p.actual == (if b.write then SECTOR * Min(i * b.s, b.n) else 0)
    && p.frames == before + (if online then Frames(b)[..i] else [])
    && p.base == (if i == 0 then 0 else TagAt(b.call + 1))
    && (i < Requests(b.n, b.s) ==> p.address == (b.lba + i * b.s) % TWO48)
  }

  // The bytes that append_write_data takes for frame i are those of the block.
  lemma FrameBytes(b: Block, i: nat, double: seq<byte>)
    requires BlockOk(b) && b.write && i < Requests(b.n, b.s)
    requires SECTOR * b.n <= |double| && double[..SECTOR * b.n] == b.data
    ensures i * b.s <= b.n
    ensures var from := SECTOR * (i * b.s);
      var to := Min(from + SECTOR * b.s, SECTOR * b.n);
      from <= to && double[from..to] == DataOf(b, i) && to == SECTOR * Min((i + 1) * b.s, b.n)
  {
    Tiling(b.n, b.s, i);
    assert (i + 1) * b.s == i * b.s + b.s;
    SliceOfSlice(double, 0, SECTOR * b.n, SECTOR * (i * b.s), SECTOR * (i * b.s + SectorsIn(b.n, b.s, i)));
  }

  lemma AddressStep(b: Block, i: nat)
    requires BlockOk(b) && i + 1 < Requests(b.n, b.s)
    ensures ((b.lba + i * b.s) % TWO48 + SectorsIn(b.n, b.s, i)) % TWO48 == (b.lba + (i + 1) * b.s) % TWO48
  {
    Tiling(b.n, b.s, i);
    AddModulo(b.lba + i * b.s, SectorsIn(b.n, b.s, i));
  }

  lemma AddModulo(x: nat, y: nat)
    ensures (x % TWO48 + y) % TWO48 == (x + y) % TWO48
  {
  }

  // What is put on the wire for frame i is what the block calls for.
  lemma FrameStep(b: Block, i: nat, double: seq<byte>, p: Progress, count: nat)
    requires BlockOk(b) && b.s <= 255 && b.command < 256 && i < Requests(b.n, b.s)
    requires b.write ==> SECTOR * b.n <= |double| && double[..SECTOR * b.n] == b.data
    requires p.calls == b.call + i && p.address == (b.lba + i * b.s) % TWO48
    requires p.actual == (if b.write then SECTOR * (i * b.s) else 0) && p.actual <= SECTOR * b.n
    requires count == SectorsIn(b.n, b.s, i)
    ensures var q := Issue(b, double, p, count, true);
      q.frames == p.frames + [Frame(b, i)] && q.actual == (if b.write then SECTOR * Min((i + 1) * b.s, b.n) else 0)
  {
    CountFits(b, i);
    SmallByte(b.command);
    if b.write { FrameBytes(b, i, double); }
  }

  lemma CountFits(b: Block, i: nat)
    requires BlockOk(b) && b.s <= 255 && i < Requests(b.n, b.s)
    ensures 0 < SectorsIn(b.n, b.s, i) <= 255 && SectorsIn(b.n, b.s, i) % 256 == SectorsIn(b.n, b.s, i)
  {
    Tiling(b.n, b.s, i);
    SmallByte(SectorsIn(b.n, b.s, i));
  }

  lemma SmallByte(x: nat)
    requires x < 256
    ensures x % 256 == x
  {
  }

  lemma IssueStep(b: Block, before: seq<Decoded>, i: nat, online: bool, double: seq<byte>, p: Progress, count: nat)
    requires BlockOk(b) && b.s <= 255 && b.command < 256 && i < Requests(b.n, b.s) && count == SectorsIn(b.n, b.s, i)
    requires b.write ==> SECTOR * b.n <= |double| && double[..SECTOR * b.n] == b.data
    requires Progressed(b, before, i, online, p)
    ensures p.actual <= SECTOR * b.n
    ensures Progressed(b, before, i + 1, online, Issue(b, double, p, count, online))
  {
    StartOfFrame(b, i);
    FrameStep(b, i, double, p, count);
    if i + 1 < Requests(b.n, b.s) { AddressStep(b, i); }
    ProgressNext(b, before, i, online, p, Issue(b, double, p, count, online));
  }

  lemma StartOfFrame(b: Block, i: nat)
    requires BlockOk(b) && i < Requests(b.n, b.s)
    ensures i * b.s < b.n
  {
    Tiling(b.n, b.s, i);
  }

  lemma ProgressNext(b: Block, before: seq<Decoded>, i: nat, online: bool, p: Progress, q: Progress)
    requires BlockOk(b) && i < Requests(b.n, b.s) && Progressed(b, before, i, online, p)
    requires q.calls == p.calls + 1 && q.base == (if p.base == 0 then TagAt(p.calls + 1) else p.base)
    requires q.actual == (if b.write then SECTOR * Min((i + 1) * b.s, b.n) else 0)
    requires q.frames == if online then p.frames + [Frame(b, i)] else p.frames
    requires i + 1 < Requests(b.n, b.s) ==> q.address == (b.lba + (i + 1) * b.s) % TWO48
    ensures Progressed(b, before, i + 1, online, q)
  {
    TagShape(b.call + 1);
    FramesUpTo(b, i);
  }

  lemma FramesUpTo(b: Block, i: nat)
    requires BlockOk(b) && i < Requests(b.n, b.s)
    ensures Frames(b)[..i + 1] == Frames(b)[..i] + [Frame(b, i)]
  {
  }

  // The loop of asyncCommand runs over the whole frames.
  lemma WholeFrames(b: Block)
    requires BlockOk(b)
    ensures SECTOR * b.n / (SECTOR * b.s) == b.n / b.s <= Requests(b.n, b.s)
    ensures forall i :: 0 <= i < b.n / b.s ==> SectorsIn(b.n, b.s, i) == b.s
  {
    var q, r := b.n / b.s, b.n % b.s;
    assert b.n == q * b.s + r;
    assert SECTOR * b.n == q * (SECTOR * b.s) + SECTOR * r;
    DivUnique(SECTOR * b.n, q, SECTOR * r, SECTOR * b.s);
    RequestsRoundsUp(b.n, b.s);
    forall i | 0 <= i < q ensures SectorsIn(b.n, b.s, i) == b.s {
      MulOrder(i, q, b.s);
    }
  }

  lemma NoneIssued(b: Block, p: Progress)
    requires BlockOk(b) && p.calls == b.call && p.actual == 0 && p.base == 0 && p.address == b.lba < TWO48
    ensures forall online :: Progressed(b, p.frames, 0, online, p)
  {
    assert Frames(b)[..0] == [];
  }

  lemma AllIssued(b: Block)
    requires BlockOk(b)
    ensures Frames(b)[..Requests(b.n, b.s)] == Frames(b) && Requests(b.n, b.s) > 0
    ensures Min(Requests(b.n, b.s) * b.s, b.n) == b.n
  {
    Tiling(b.n, b.s, Requests(b.n, b.s) - 1);
  }

  lemma LastFrame(b: Block)
    requires BlockOk(b) && b.n % b.s != 0
    ensures b.n / b.s < Requests(b.n, b.s) && SectorsIn(b.n, b.s, b.n / b.s) == b.n % b.s
  {
    RequestsRoundsUp(b.n, b.s);
    assert b.n == (b.n / b.s) * b.s + b.n % b.s;
  }
}
