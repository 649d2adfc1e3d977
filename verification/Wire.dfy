/** The AoE and ATA headers (AoE/aoe.h), the LBA registers and the size of a frame. */
module Wire {
  import opened Common

  type byte = x: nat | x < 256
  type U16 = x: nat | x < 0x1_0000

  const SECTOR: nat := 512
  const TWO48: nat := 0x1_0000_0000_0000
  const BYTES_IN_AOE_HEADER: nat := 36     // 14 Ethernet + 10 AoE + 12 ATA

  const AOE_AFLAGS_E: nat := 0x40
  const AOE_AFLAGS_W: nat := 0x01

  // A 16-bit header word as its two bytes on the wire. htons stores a value with its high
  // byte first, so the SET macro of a pair of bytes stores them in that order, and the GET
  // macros read the one or the other.
  datatype Word = Word(first: byte, second: byte)

  function SetPair(a: nat, b: nat): Word {
    Word(a % 256, b % 256)
  }

  function Htons(x: U16): Word {
    Word(x / 256, x % 256)
  }

  function Ntohs(w: Word): U16 {
    w.first * 256 + w.second
  }

  lemma SwapTwice(x: U16)
    ensures Ntohs(Htons(x)) == x
  {
  }

  // AOE_HEADER_SETVERFLAGERR and its three readers
  function SetVerFlagErr(v: nat, f: nat, e: nat): Word {
    Htons((v % 16) * 4096 + (f % 16) * 256 + e % 16)
  }

  function GetVer(w: Word): nat { (Ntohs(w) / 4096) % 16 }
  function GetFlag(w: Word): nat { (Ntohs(w) / 256) % 16 }
  function GetErr(w: Word): nat { Ntohs(w) % 256 }

  // The writer keeps four bits of the error code, the reader takes eight: the header comes
  // back whole exactly for codes below 16.
  lemma VerFlagErrRoundTrip(v: nat, f: nat, e: nat)
    requires v < 16 && f < 16 && e < 256
    ensures var w := SetVerFlagErr(v, f, e);
      GetVer(w) == v && GetFlag(w) == f && (GetErr(w) == e <==> e < 16)
  {
    var x: U16 := v * 4096 + f * 256 + e % 16;
    SwapTwice(x);
    Nibbles(v, f, e % 16);
  }

  lemma Nibbles(v: nat, f: nat, e: nat)
    requires v < 16 && f < 16 && e < 16
    ensures var x := v * 4096 + f * 256 + e;
      (x / 4096) % 16 == v && (x / 256) % 16 == f && x % 256 == e
  {
    var x := v * 4096 + f * 256 + e;
    assert x / 256 == v * 16 + f;
    assert x / 4096 == v;
  }

  function SetTagHigh(tag: nat): Word { Htons((tag / 0x1_0000) % 0x1_0000) }
  function SetTagLow(tag: nat): Word { Htons(tag % 0x1_0000) }
  function GetTag(high: Word, low: Word): nat { Ntohs(high) * 0x1_0000 + Ntohs(low) }

  lemma TagRoundTrip(tag: nat)
    requires tag < 0x1_0000_0000
    ensures GetTag(SetTagHigh(tag), SetTagLow(tag)) == tag
  {
    var high: U16, low: U16 := tag / 0x1_0000, tag % 0x1_0000;
    assert (tag / 0x1_0000) % 0x1_0000 == high;
    TagWords(high, low);
  }

  lemma TagWords(high: U16, low: U16)
    ensures GetTag(Htons(high), Htons(low)) == high * 0x1_0000 + low
  {
    SwapTwice(high);
    SwapTwice(low);
  }

  // ---- A request as it goes out, and as a target reads it ----

  datatype Request = Request(
    verFlagErr: Word, major: Word, minorCmd: Word, tagHigh: Word, tagLow: Word,
    flagsFeature: Word, countCommand: Word, lba01: Word, lba23: Word, lba45: Word,
    data: seq<byte>)

  // lba0 is the least significant byte.
  function LbaOf(r: Request): nat {
    r.lba01.first + 0x100 * r.lba01.second
      + 0x1_0000 * r.lba23.first + 0x100_0000 * r.lba23.second
      + 0x1_0000_0000 * r.lba45.first + 0x100_0000_0000 * r.lba45.second
  }

  // A target: its shelf (major address) and slot (minor address).
  datatype Device = Device(shelf: nat, slot: nat)

  // What the AoE header says: version, flags, the target it is for, AoE command.
  datatype Head = Head(version: nat, flags: nat, to: Device, command: nat)

  // What a target reads from a frame.
  datatype Decoded = Decoded(
    head: Head, tag: nat, lba: nat, count: nat, command: nat, extended: bool, write: bool,
    data: seq<byte>)

  function ReadHead(r: Request): Head {
    Head(GetVer(r.verFlagErr), GetFlag(r.verFlagErr), Device(Ntohs(r.major), r.minorCmd.first), r.minorCmd.second)
  }

  // The header of an ATA request: version 1, no flags, AoE command 0.
  function AtaHead(to: Device): Head {
    Head(1, 0, to, 0)
  }

  function Decode(r: Request): Decoded {
    Decoded(ReadHead(r), GetTag(r.tagHigh, r.tagLow), LbaOf(r), r.countCommand.first, r.countCommand.second,
            (r.flagsFeature.first / AOE_AFLAGS_E) % 2 == 1, r.flagsFeature.first % 2 == 1, r.data)
  }

  // The header as the bytes that follow the Ethernet header.
  function HeaderBytes(r: Request): seq<byte> {
    [r.verFlagErr.first, r.verFlagErr.second, r.major.first, r.major.second, r.minorCmd.first, r.minorCmd.second,
     r.tagHigh.first, r.tagHigh.second, r.tagLow.first, r.tagLow.second,
     r.flagsFeature.first, r.flagsFeature.second, r.countCommand.first, r.countCommand.second,
     r.lba01.first, r.lba01.second, r.lba23.first, r.lba23.second, r.lba45.first, r.lba45.second, 0, 0]
  }

  // ---- The 48-bit registers ----

  // Each register holds one byte of the low and one of the high half of the address.
  datatype ExtRegs = ExtRegs(low: U16, mid: U16, high: U16, count: U16, command: nat, features: U16)

  function Lo(x: U16): byte { x % 256 }
  function Hi(x: U16): byte { x / 256 }

  function Address(g: ExtRegs): (a: nat)
    ensures a < TWO48
  {
    Lo(g.low) + 0x100 * Lo(g.mid) + 0x1_0000 * Lo(g.high)
      + 0x100_0000 * Hi(g.low) + 0x1_0000_0000 * Hi(g.mid) + 0x100_0000_0000 * Hi(g.high)
  }

  function Digit(a: nat, unit: nat): byte
    requires unit > 0
  {
    (a / unit) % 256
  }

  function SetAddress(g: ExtRegs, a: nat): ExtRegs {
    g.(low := Digit(a, 0x100_0000) * 256 + Digit(a, 1),
       mid := Digit(a, 0x1_0000_0000) * 256 + Digit(a, 0x100),
       high := Digit(a, 0x100_0000_0000) * 256 + Digit(a, 0x1_0000))
  }

  // increment_address for the 48-bit registers
  function IncrementAddress(g: ExtRegs, inc: nat): ExtRegs {
    SetAddress(g, Address(g) + inc)
  }

  lemma Digits(a: nat)
    ensures a % TWO48 == Digit(a, 1) + 0x100 * Digit(a, 0x100) + 0x1_0000 * Digit(a, 0x1_0000)
      + 0x100_0000 * Digit(a, 0x100_0000) + 0x1_0000_0000 * Digit(a, 0x1_0000_0000)
      + 0x100_0000_0000 * Digit(a, 0x100_0000_0000)
  {
    NextDigit(a, 1);
    NextDigit(a, 0x100);
    NextDigit(a, 0x1_0000);
    NextDigit(a, 0x100_0000);
    NextDigit(a, 0x1_0000_0000);
    var a5 := a / 0x100_0000_0000;
    var low := Digit(a, 1) + 0x100 * Digit(a, 0x100) + 0x1_0000 * Digit(a, 0x1_0000)
      + 0x100_0000 * Digit(a, 0x100_0000) + 0x1_0000_0000 * Digit(a, 0x1_0000_0000)
      + 0x100_0000_0000 * Digit(a, 0x100_0000_0000);
    DivUnique(a, a5 / 256, low, TWO48);
  }

  lemma NextDigit(a: nat, unit: nat)
    requires unit > 0
    ensures a / unit / 256 == a / (256 * unit) && a / unit == 256 * (a / (256 * unit)) + Digit(a, unit)
  {
    var q, r := a / unit, a % unit;
    assert a == q * unit + r;
    var q', r' := q / 256, q % 256;
    assert q * unit == q' * (256 * unit) + r' * unit;
    MulOrder(r', 256, unit);
    DivUnique(a, q', r' * unit + r, 256 * unit);
  }

  // The increment is addition modulo 2^48, through the interleaved bytes.
  lemma IncrementAdds(g: ExtRegs, inc: nat)
    ensures Address(IncrementAddress(g, inc)) == (Address(g) + inc) % TWO48
  {
    AddressSet(g, Address(g) + inc);
  }

  lemma AddressSet(g: ExtRegs, a: nat)
    ensures Address(SetAddress(g, a)) == a % TWO48
  {
    Digits(a);
    Packed(Digit(a, 0x100_0000), Digit(a, 1));
    Packed(Digit(a, 0x1_0000_0000), Digit(a, 0x100));
    Packed(Digit(a, 0x100_0000_0000), Digit(a, 0x1_0000));
  }

  lemma Packed(h: byte, l: byte)
    ensures Hi(h * 256 + l) == h && Lo(h * 256 + l) == l
  {
  }

  // ---- The 24-bit registers ----

  const TWO24: nat := 0x100_0000

  datatype TaskFile = TaskFile(sector: byte, cylLo: byte, cylHigh: byte)

  function ShortAddress(t: TaskFile): nat {
    t.sector + 0x100 * t.cylLo + 0x1_0000 * t.cylHigh
  }

  // increment_address for the 24-bit registers
  function IncrementShort(t: TaskFile, inc: nat): TaskFile {
    var a := ShortAddress(t) + inc;
    TaskFile(a % 256, (a / 0x100) % 256, (a / 0x1_0000) % 256)
  }

  // It is addition modulo 2^24.
  lemma IncrementShortAdds(t: TaskFile, inc: nat)
    ensures ShortAddress(IncrementShort(t, inc)) == (ShortAddress(t) + inc) % TWO24
  {
    var a := ShortAddress(t) + inc;
    NextDigit(a, 0x100);
    var a2 := a / 0x1_0000;
    DivUnique(a, a2 / 256, a % 256 + 0x100 * ((a / 0x100) % 256) + 0x1_0000 * (a2 % 256), TWO24);
  }

  // ---- Frame size ----

  // COUNT_SECTORS_FROM_MTU, whose subtraction is unsigned.
  function CountSectorsFromMtu(mtu: nat): nat {
    (if mtu >= BYTES_IN_AOE_HEADER then mtu - BYTES_IN_AOE_HEADER
     else mtu + 0x1_0000_0000 - BYTES_IN_AOE_HEADER) / SECTOR
  }

  // A frame of that many sectors fits exactly when the MTU holds the headers, and is then
  // the largest that fits; otherwise the subtraction has wrapped.
  lemma FrameFits(mtu: nat)
    ensures 36 + 512 * CountSectorsFromMtu(mtu) <= mtu <==> mtu >= 36
    ensures mtu < 36 ==> CountSectorsFromMtu(mtu) == 0x7F_FFFF
    ensures mtu >= 36 ==> mtu < 36 + 512 * (CountSectorsFromMtu(mtu) + 1)
  {
  }
}
