// GPFIFO entries and pushbuffer method headers (app/src/main/cpp/skyline/gpu/gpfifo.h),
// as laid out by the NVIDIA host class (clb06f.h) and the PBDMA and RAM
// manuals: the two words of a GPFIFO entry, the word that heads a method
// sequence, and the fetching of the pushbuffer segment an entry points at.
//
// The bitfields are read with the AArch64 little-endian allocation the code
// relies on: the first field in the lowest bits. Reading GPU virtual memory
// belongs to the memory manager, which is not part of this model: the words
// stored from the segment's address on are given.

module Gpfifo {
  import opened Common

  datatype FetchMode = Unconditional | Conditional
  datatype Priv = User | Kernel
  datatype Level = Main | Subroutine
  datatype Sync = Proceed | Wait

  /** A GPFIFO entry: the low 30 bits of the segment's word address, its high
      byte (which doubles as the opcode of a control entry), and the length
      of the segment in words. */
  datatype GpEntry = GpEntry(fetch: FetchMode, get: nat, getHi: u8, priv: Priv, level: Level, size: nat, sync: Sync)

  predicate WellFormed(e: GpEntry) {
    e.get < 0x4000_0000 && e.size < 0x20_0000
  }

  function Bit(b: bool): nat { if b then 1 else 0 }

  /** entry0: fetch in bit 0, bit 1 unused, get in bits 2-31. */
  function DecodeEntry0(w: u32): (r: (FetchMode, nat))
    ensures r.1 < 0x4000_0000
  {
    (if w % 2 == 0 then Unconditional else Conditional, w / 4)
  }

  /** entry1: getHi (or the opcode) in bits 0-7, priv in bit 8, level in bit
      9, size in bits 10-30, sync in bit 31. */
  function DecodeEntry1(w: u32): (r: (u8, Priv, Level, nat, Sync))
    ensures r.3 < 0x20_0000
  {
    (w % 0x100,
     if (w / 0x100) % 2 == 0 then User else Kernel,
     if (w / 0x200) % 2 == 0 then Main else Subroutine,
     (w / 0x400) % 0x20_0000,
     if w / 0x8000_0000 == 0 then Proceed else Wait)
  }

  function DecodeGpEntry(entry0: u32, entry1: u32): (e: GpEntry)
    ensures WellFormed(e)
  {
    var (fetch, get) := DecodeEntry0(entry0);
    var (getHi, priv, level, size, sync) := DecodeEntry1(entry1);
    GpEntry(fetch, get, getHi, priv, level, size, sync)
  }

  /** The words an entry is stored as, with the unused bit clear. */
  function EncodeGpEntry(e: GpEntry): (r: (u32, u32))
    requires WellFormed(e)
  {
    (Bit(e.fetch == Conditional) + 4 * e.get,
     e.getHi + 0x100 * Bit(e.priv == Kernel) + 0x200 * Bit(e.level == Subroutine)
       + 0x400 * e.size + 0x8000_0000 * Bit(e.sync == Wait))
  }

  /** Decoding the stored words gives every field back. */
  lemma DecodeEncodeGpEntry(e: GpEntry)
    requires WellFormed(e)
    ensures DecodeGpEntry(EncodeGpEntry(e).0, EncodeGpEntry(e).1) == e
  {
    var (w0, w1) := EncodeGpEntry(e);
    var b := Bit(e.fetch == Conditional);
    ModUnique(w0, 2, 2 * e.get, b);
    ModUnique(w0, 4, e.get, b);
    var p, l, s := Bit(e.priv == Kernel), Bit(e.level == Subroutine), Bit(e.sync == Wait);
    var x, y, z := p + 2 * l + 4 * e.size + 0x80_0000 * s, l + 2 * e.size + 0x40_0000 * s, e.size + 0x20_0000 * s;
    ModUnique(w1, 0x100, x, e.getHi);
    ModUnique(x, 2, y, p);
    ModUnique(w1, 0x200, y, e.getHi + 0x100 * p);
    ModUnique(y, 2, z, l);
    ModUnique(w1, 0x400, z, e.getHi + 0x100 * p + 0x200 * l);
    ModUnique(z, 0x20_0000, s, e.size);
    ModUnique(w1, 0x8000_0000, s, e.getHi + 0x100 * p + 0x200 * l + 0x400 * e.size);
  }

  /** Encoding a decoded entry gives the words back, but for the unused bit 1 of entry0. */
  lemma EncodeDecodeGpEntry(entry0: u32, entry1: u32)
    ensures EncodeGpEntry(DecodeGpEntry(entry0, entry1)) == (entry0 - 2 * ((entry0 / 2) % 2), entry1)
  {
    ModDouble(entry0, 2);
    var w := entry1;
    var a, b, c := w / 0x100, w / 0x200, w / 0x400;
    DivDiv(w, 0x100, 2);
    DivDiv(w, 0x200, 2);
    DivDiv(w, 0x400, 0x20_0000);
    assert w == w % 0x100 + 0x100 * a;
    assert a == a % 2 + 2 * b;
    assert b == b % 2 + 2 * c;
    assert c == c % 0x20_0000 + 0x20_0000 * (w / 0x8000_0000);
  }

  /** `PushBuffer::Fetch`'s address: `(getHi << 32) | (get << 2)`. */
  function FetchAddress(e: GpEntry): (a: nat)
  {
    BitOr(e.getHi * Pow2(32), e.get * 4)
  }

  /** The address is the 40-bit byte address whose word index is getHi:get. */
  lemma FetchAddressValue(e: GpEntry)
    requires WellFormed(e)
    ensures FetchAddress(e) == e.getHi * 0x1_0000_0000 + e.get * 4
    ensures FetchAddress(e) % 4 == 0 && FetchAddress(e) < 0x100_0000_0000
  {
    Pow2Value32();
    BitOrCommutes(e.getHi * Pow2(32), e.get * 4);
    BitOrDisjoint(e.get * 4, e.getHi, 32);
    var a := e.getHi * 0x1_0000_0000 + e.get * 4;
    assert e.getHi * 0x1_0000_0000 <= 0xFF * 0x1_0000_0000;
    ModUnique(a, 4, e.getHi * 0x4000_0000 + e.get, 0);
  }

  // ---------------------------------------------------------------------------
  // Method headers
  // ---------------------------------------------------------------------------

  datatype SecOp = Grp0UseTert | IncMethod | Grp2UseTert | NonIncMethod | ImmdDataMethod | OneInc | Reserved6 | EndPbSegment

  function SecOpValue(op: SecOp): (v: nat)
    ensures v < 8
  {
    match op
    case Grp0UseTert => 0 case IncMethod => 1 case Grp2UseTert => 2 case NonIncMethod => 3
    case ImmdDataMethod => 4 case OneInc => 5 case Reserved6 => 6 case EndPbSegment => 7
  }

  function SecOpOf(v: nat): (op: SecOp)
    requires v < 8
    ensures SecOpValue(op) == v
  {
    if v == 0 then Grp0UseTert else if v == 1 then IncMethod else if v == 2 then Grp2UseTert
    else if v == 3 then NonIncMethod else if v == 4 then ImmdDataMethod else if v == 5 then OneInc
    else if v == 6 then Reserved6 else EndPbSegment
  }

  lemma SecOpRoundTrip(op: SecOp)
    ensures SecOpOf(SecOpValue(op)) == op
  {
  }

  /** The fields of a method header word: the method address in bits 0-11,
      the subchannel in bits 13-15, the count (or immediate data) in bits
      16-28 and the secondary opcode in bits 29-31. */
  datatype MethodHeader = MethodHeader(methodAddress: nat, methodSubChannel: nat, methodCount: nat, secOp: SecOp)

  predicate HeaderWellFormed(h: MethodHeader) {
    h.methodAddress < 0x1000 && h.methodSubChannel < 8 && h.methodCount < 0x2000
  }

  function DecodeHeader(w: u32): (h: MethodHeader)
    ensures HeaderWellFormed(h)
  {
    MethodHeader(w % 0x1000, (w / 0x2000) % 8, (w / 0x1_0000) % 0x2000, SecOpOf(w / 0x2000_0000))
  }

  /** The header word for the fields, with bit 12 clear. */
  function EncodeHeader(h: MethodHeader): (w: u32)
    requires HeaderWellFormed(h)
  {
    h.methodAddress + 0x2000 * h.methodSubChannel + 0x1_0000 * h.methodCount + 0x2000_0000 * SecOpValue(h.secOp)
  }

  lemma DecodeEncodeHeader(h: MethodHeader)
    requires HeaderWellFormed(h)
    ensures DecodeHeader(EncodeHeader(h)) == h
  {
    var w := EncodeHeader(h);
    var a, sc, cnt, op := h.methodAddress, h.methodSubChannel, h.methodCount, SecOpValue(h.secOp);
    ModUnique(w, 0x1000, 2 * sc + 0x10 * cnt + 0x2_0000 * op, a);
    ModUnique(w, 0x2000, sc + 8 * cnt + 0x1_0000 * op, a);
    ModUnique(sc + 8 * cnt + 0x1_0000 * op, 8, cnt + 0x2000 * op, sc);
    ModUnique(w, 0x1_0000, cnt + 0x2000 * op, a + 0x2000 * sc);
    ModUnique(cnt + 0x2000 * op, 0x2000, op, cnt);
    ModUnique(w, 0x2000_0000, op, a + 0x2000 * sc + 0x1_0000 * cnt);
  }

  /** Every word but for bit 12 is a header: encoding the decoded fields gives it back. */
  lemma EncodeDecodeHeader(w: u32)
    ensures EncodeHeader(DecodeHeader(w)) == w - 0x1000 * ((w / 0x1000) % 2)
  {
    assert w == w % 0x1000 + 0x1000 * (w / 0x1000);
    assert w / 0x1000 == (w / 0x1000) % 2 + 2 * (w / 0x2000);
    assert w / 0x2000 == (w / 0x2000) % 8 + 8 * (w / 0x1_0000);
    assert w / 0x1_0000 == (w / 0x1_0000) % 0x2000 + 0x2000 * (w / 0x2000_0000);
  }

  /** The tertiary opcode shares bits 16-18 with the count: it is the count's low three bits. */
  function TertOp(w: u32): (t: nat)
    ensures t == DecodeHeader(w).methodCount % 8
  {
    ModMod(w / 0x1_0000, 8, 0x400);
    (w / 0x1_0000) % 8
  }

  /** Taking a multiple of 8 bits off the top keeps the low three. */
  lemma ModMod(x: nat, a: nat, b: nat)
    requires a > 0 && b > 0
    ensures (x % (a * b)) % a == x % a
  {
    var q, r := x / (a * b), x % (a * b);
    var q2, r2 := r / a, r % a;
    assert x == a * (b * q + q2) + r2;
    ModUnique(x, a, b * q + q2, r2);
  }

  // ---------------------------------------------------------------------------
  // Pushbuffers
  // ---------------------------------------------------------------------------

  /** A pushbuffer: its entry and the words of its segment. */
  class PushBuffer {
    const gpEntry: GpEntry
    var segment: seq<u32>

    /** The constructor fetches the segment only when asked to. `memory`
        stands for the words stored from the entry's address on. */
    constructor (gpEntry: GpEntry, memory: seq<u32>, fetch: bool)
      requires fetch ==> gpEntry.size <= |memory|
      ensures this.gpEntry == gpEntry
      ensures segment == if fetch then memory[..gpEntry.size] else []
    {
      this.gpEntry := gpEntry;
      segment := [];
      new;
      if fetch {
        Fetch(memory);
      }
    }

    /** `Fetch`: the segment becomes the entry's `size` words at its address. */
    method Fetch(memory: seq<u32>)
      requires gpEntry.size <= |memory|
      modifies this
      ensures segment == memory[..gpEntry.size] && |segment| == gpEntry.size
    {
      segment := memory[..gpEntry.size];
    }
  }
}
