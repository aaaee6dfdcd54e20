// The shared font service (app/src/main/cpp/skyline/services/pl/IPlatformServiceManager.cpp):
// the six system fonts laid out back to back in a shared memory block, each
// behind an eight-byte header holding a magic and its length disguised by an
// XOR key, and the commands that report where each font is.
//
// The font files compiled into the emulator are parameters here: only their
// bytes matter.

module Pl {
  import opened Wrappers
  import opened Common

  /** The size of the font shared memory. */
  const FontSharedMemSize: nat := 0x1100000

  /** The number of fonts in the table. */
  const FontCount: nat := 6

  /** The decrypted magic of a font record, as written before each font. */
  const SharedFontResult: u32 := 0x7F9A0218
  /** The encrypted magic; its XOR with the decrypted one is the key. */
  const SharedFontMagic: u32 := 0x36F81A1E

  /** The key the lengths are XOR-ed with. */
  const SharedFontKey: u32 := 0x49621806

  /** The key is the XOR of the two magics. */
  lemma SharedFontKeyIsXorOfMagics()
    ensures SharedFontMagic == 0x36F81A1E && SharedFontResult == 0x7F9A0218 && SharedFontKey == 0x49621806
    ensures ((0x36F81A1E as bv32) ^ (0x7F9A0218 as bv32)) as int == 0x49621806
  {
  }

  /** A length as stored in a record header. */
  function EncodeLength(length: u32): (r: u32)
    ensures BitXor(r, SharedFontKey) == length
  {
    Pow2Value32();
    BitXorBound(length, SharedFontKey, 32);
    BitXorTwice(length, SharedFontKey);
    BitXor(length, SharedFontKey)
  }

  /** A font record: the magic, the encoded length, the font's bytes. */
  function Record(font: seq<u8>): (r: seq<u8>)
    requires |font| < U32_MODULUS
    ensures |r| == |font| + 8
  {
    LeBytes(SharedFontResult, 4) + LeBytes(EncodeLength(|font|), 4) + font
  }

  /** A font whose length a record header can hold. */
  type Font = f: seq<u8> | |f| < U32_MODULUS

  /** The shared memory's used part: the records of the fonts in table order. */
  function Image(fonts: seq<Font>): (r: seq<u8>)
  {
    if fonts == [] then [] else Image(fonts[..|fonts| - 1]) + Record(fonts[|fonts| - 1])
  }

  /** What the table records for a font: its length and where its bytes start. */
  datatype FontEntry = FontEntry(length: nat, offset: nat)

  /** The table after the layout: the offset of font i is just past its
      header, after the records of fonts 0 to i - 1. */
  function Entries(fonts: seq<Font>): (r: seq<FontEntry>)
    ensures |r| == |fonts|
  {
    seq(|fonts|, i requires 0 <= i < |fonts| => FontEntry(|fonts[i]|, |Image(fonts[..i])| + 8))
  }

  /** The first font starts after its header, and each font's record starts
      where the previous font's bytes end: the records are contiguous, in
      table order and do not overlap. */
  lemma EntriesAreContiguous(fonts: seq<Font>, i: nat)
    requires i + 1 < |fonts|
    ensures Entries(fonts)[0].offset == 8
    ensures Entries(fonts)[i + 1].offset == Entries(fonts)[i].offset + Entries(fonts)[i].length + 8
  {
    assert fonts[..0] == [];
    assert fonts[..i + 1][..i] == fonts[..i];
  }

  /** The size of the image is the sum of the record sizes. */
  lemma {:induction false} ImagePrefix(fonts: seq<Font>, k: nat)
    requires k <= |fonts|
    ensures Image(fonts[..k]) <= Image(fonts)
    decreases |fonts|
  {
    if k < |fonts| {
      var init := fonts[..|fonts| - 1];
      assert init[..k] == fonts[..k];
      ImagePrefix(init, k);
    } else {
      assert fonts[..k] == fonts;
    }
  }

  /** Reading the image at a font's table entry gives back the record: the
      magic, the length once the key is applied again, and the font's bytes. */
  lemma ImageHoldsRecords(fonts: seq<Font>, i: nat)
    requires i < |fonts|
    ensures var e := Entries(fonts)[i];
            && e.offset + e.length <= |Image(fonts)|
            && LittleEndian(Image(fonts)[e.offset - 8..e.offset - 4]) == SharedFontResult
            && BitXor(LittleEndian(Image(fonts)[e.offset - 4..e.offset]), SharedFontKey) == |fonts[i]|
            && Image(fonts)[e.offset..e.offset + e.length] == fonts[i]
  {
    var e := Entries(fonts)[i];
    RecordInImage(fonts, i);
    RecordFields(Image(fonts), e.offset - 8, fonts[i]);
  }

  /** Font i's record sits in the image right after the records before it. */
  lemma RecordInImage(fonts: seq<Font>, i: nat)
    requires i < |fonts|
    ensures var e := Entries(fonts)[i];
            && e.offset + e.length <= |Image(fonts)|
            && Image(fonts)[e.offset - 8..e.offset + e.length] == Record(fonts[i])
  {
    var before := Image(fonts[..i]);
    var upto := Image(fonts[..i + 1]);
    assert fonts[..i + 1][..i] == fonts[..i];
    assert upto == before + Record(fonts[i]);
    ImagePrefix(fonts, i + 1);
    var image := Image(fonts);
    assert image[..|upto|] == upto;
    SliceOfSlice(image, 0, |upto|, |before|, |upto|);
    assert upto[|before|..|upto|] == Record(fonts[i]);
  }

  /** The three fields of a record read back from wherever it is stored. */
  lemma RecordFields(image: seq<u8>, at: nat, font: seq<u8>)
    requires |font| < U32_MODULUS && at + |font| + 8 <= |image|
    requires image[at..at + |font| + 8] == Record(font)
    ensures LittleEndian(image[at..at + 4]) == SharedFontResult
    ensures BitXor(LittleEndian(image[at + 4..at + 8]), SharedFontKey) == |font|
    ensures image[at + 8..at + 8 + |font|] == font
  {
    var h1, h2 := LeBytes(SharedFontResult, 4), LeBytes(EncodeLength(|font|), 4);
    var stored := image[at..at + |font| + 8];
    assert stored[..4] == h1 && stored[4..8] == h2 && stored[8..] == font;
    SliceOfSlice(image, at, at + |font| + 8, 0, 4);
    SliceOfSlice(image, at, at + |font| + 8, 4, 8);
    SliceOfSlice(image, at, at + |font| + 8, 8, |font| + 8);
    U32ReadsBack(SharedFontResult);
    U32ReadsBack(EncodeLength(|font|));
  }

  lemma U32ReadsBack(v: u32)
    requires v < U32_MODULUS
    ensures LittleEndian(LeBytes(v, 4)) == v
  {
    Pow2Value32();
    LeBytesRoundTrip(v, 4);
  }

  /** Copies `bytes` into `mem` at `at`, leaving the rest of `mem` alone. */
  method CopyTo(mem: array<u8>, at: nat, bytes: seq<u8>)
    requires at + |bytes| <= mem.Length
    modifies mem
    ensures mem[..] == old(mem[..])[..at] + bytes + old(mem[..])[at + |bytes|..]
  {
    var k := 0;
    while k < |bytes|
      invariant k <= |bytes|
      invariant mem[..] == old(mem[..])[..at] + bytes[..k] + old(mem[..])[at + k..]
    {
      mem[at + k] := bytes[k];
      k := k + 1;
    }
  }

  /** One turn of the layout loop: the magic and the encoded length at the
      cursor, then the font's bytes after them. */
  method WriteRecord(mem: array<u8>, pointer: nat, font: seq<u8>)
    requires |font| < U32_MODULUS && pointer + 8 + |font| <= mem.Length
    modifies mem
    ensures mem[..] == old(mem[..])[..pointer] + Record(font) + old(mem[..])[pointer + 8 + |font|..]
  {
    ghost var m0 := mem[..];
    var h1, h2 := LeBytes(SharedFontResult, 4), LeBytes(EncodeLength(|font|), 4);
    CopyTo(mem, pointer, h1);
    ghost var m1 := mem[..];
    CopyTo(mem, pointer + 4, h2);
    CopiesCompose(m0, m1, mem[..], pointer, h1, h2);
    ghost var m2 := mem[..];
    CopyTo(mem, pointer + 8, font);
    CopiesCompose(m0, m2, mem[..], pointer, h1 + h2, font);
  }

  /** Two copies side by side are one copy of both. */
  lemma CopiesCompose(m0: seq<u8>, m1: seq<u8>, m2: seq<u8>, at: nat, a: seq<u8>, b: seq<u8>)
    requires at + |a| + |b| <= |m0|
    requires m1 == m0[..at] + a + m0[at + |a|..]
    requires m2 == m1[..at + |a|] + b + m1[at + |a| + |b|..]
    ensures m2 == m0[..at] + (a + b) + m0[at + |a| + |b|..]
  {
    assert m1[..at + |a|] == m0[..at] + a;
    assert m1[at + |a| + |b|..] == m0[at + |a| + |b|..];
  }

  /** The layout loop of the constructor: a cursor walks through the shared
      memory writing each font's record, and the table records where each
      font's bytes begin. */
  method WriteFonts(mem: array<u8>, fonts: seq<Font>) returns (table: seq<FontEntry>)
    requires |Image(fonts)| <= mem.Length
    modifies mem
    ensures table == Entries(fonts)
    ensures mem[..] == Image(fonts) + old(mem[..])[|Image(fonts)|..]
  {
    ghost var initial := mem[..];
    table := [];
    var pointer := 0;
    var i := 0;
    while i < |fonts|
      invariant i <= |fonts|
      invariant pointer == |Image(fonts[..i])| <= |Image(fonts)|
      invariant mem[..] == Image(fonts[..i]) + initial[pointer..]
      invariant table == Entries(fonts[..i])
    {
      var font := fonts[i];
      LayoutStep(fonts, i);
      ghost var before := mem[..];
      WriteRecord(mem, pointer, font);
      WrittenAfter(fonts, i, before, initial);
      table := table + [FontEntry(|font|, pointer + 8)];
      pointer := pointer + 8 + |font|;
      i := i + 1;
    }
    assert fonts[..i] == fonts;
  }

  /** Writing the next font's record at the end of the image written so far
      extends it by that record. */
  lemma WrittenAfter(fonts: seq<Font>, i: nat, m: seq<u8>, initial: seq<u8>)
    requires i < |fonts| && |Image(fonts)| <= |initial|
    requires |Image(fonts[..i])| <= |Image(fonts)| && m == Image(fonts[..i]) + initial[|Image(fonts[..i])|..]
    ensures Image(fonts[..i + 1]) == Image(fonts[..i]) + Record(fonts[i]) && |Image(fonts[..i + 1])| <= |Image(fonts)|
    ensures var at, record := |Image(fonts[..i])|, Record(fonts[i]);
      m[..at] + record + m[at + |record|..] == Image(fonts[..i + 1]) + initial[|Image(fonts[..i + 1])|..]
  {
    LayoutStep(fonts, i);
    var image, record := Image(fonts[..i]), Record(fonts[i]);
    var at := |image|;
    assert m[..at] == image;
    assert m[at + |record|..] == initial[at + |record|..];
  }

  /** The facts one turn of the layout loop needs: the image grows by the
      font's record, and the table by its entry. */
  lemma LayoutStep(fonts: seq<Font>, i: nat)
    requires i < |fonts|
    ensures Image(fonts[..i + 1]) == Image(fonts[..i]) + Record(fonts[i])
    ensures |Image(fonts[..i + 1])| <= |Image(fonts)|
    ensures Entries(fonts[..i + 1]) == Entries(fonts[..i]) + [FontEntry(|fonts[i]|, |Image(fonts[..i])| + 8)]
  {
    assert fonts[..i + 1][..i] == fonts[..i];
    ImagePrefix(fonts, i + 1);
    var a, b := Entries(fonts[..i + 1]), Entries(fonts[..i]) + [FontEntry(|fonts[i]|, |Image(fonts[..i])| + 8)];
    forall k | 0 <= k < i + 1 ensures a[k] == b[k] {
      if k < i {
        assert fonts[..i + 1][..k] == fonts[..i][..k];
      }
    }
  }

  /** IPlatformServiceManager: the font shared memory and the font table. */
  class PlatformServiceManager {
    const sharedMemory: array<u8>
    var fontTable: seq<FontEntry>

    /** The fonts are laid out in table order at the start of a new shared
        memory block, and the table records each one's length and offset. */
    constructor (fonts: seq<Font>)
      requires |fonts| == FontCount && |Image(fonts)| <= FontSharedMemSize
      ensures fresh(sharedMemory) && sharedMemory.Length == FontSharedMemSize
      ensures sharedMemory[..|Image(fonts)|] == Image(fonts)
      ensures forall i :: |Image(fonts)| <= i < FontSharedMemSize ==> sharedMemory[i] == 0
      ensures fontTable == Entries(fonts)
    {
      sharedMemory := new u8[FontSharedMemSize](_ => 0);
      new;
      fontTable := WriteFonts(sharedMemory, fonts);
    }

    /** `GetLoadState`: the fonts are always loaded. */
    function GetLoadState(): (state: u32)
      ensures state == 1
    {
      1
    }

    /** `GetSize`: the length recorded for the font; an id past the table throws. */
    function GetSize(fontId: u32): (r: Result<u32>)
      reads this
      requires forall i :: 0 <= i < |fontTable| ==> fontTable[i].length < U32_MODULUS
      ensures r.Ok? <==> fontId < |fontTable|
      ensures r.Ok? ==> r.value == fontTable[fontId].length
    {
      if fontId < |fontTable| then Ok(fontTable[fontId].length) else Err("array::at: index out of range")
    }

    /** `GetSharedMemoryAddressOffset`: where the font's bytes start in the
        shared memory (pushed as a u32); an id past the table throws. */
    function GetSharedMemoryAddressOffset(fontId: u32): (r: Result<u32>)
      reads this
      ensures r.Ok? <==> fontId < |fontTable|
      ensures r.Ok? ==> r.value == fontTable[fontId].offset % U32_MODULUS
    {
      if fontId < |fontTable| then Ok(Wrap32(fontTable[fontId].offset)) else Err("array::at: index out of range")
    }
  }

  /** The table's lengths as written: entry 0 pairs the simplified Chinese
      font with the extended simplified Chinese font's length (entry 2's). */
  function TableLengthsAsWritten(fonts: seq<Font>): (r: seq<nat>)
    requires |fonts| == FontCount
    ensures |r| == FontCount
  {
    [|fonts[2]|, |fonts[1]|, |fonts[2]|, |fonts[3]|, |fonts[4]|, |fonts[5]|]
  }

  /** Whenever the two simplified Chinese fonts differ in length, the length
      recorded for font 0 as written is not that font's length, while the
      corrected table's is; a longer one makes the copy read past the font. */
  lemma TableLengthAsWrittenIsWrong()
    ensures var fonts: seq<Font> := [[0], [], [0, 0], [], [], []];
            && TableLengthsAsWritten(fonts)[0] == 2 > |fonts[0]|
            && Entries(fonts)[0].length == |fonts[0]|
  {
  }
}
