// The title entry of an NRO file (app/src/main/java/emu/skyline/loader/NroLoader.kt):
// whether a file is an NRO, and its name, author and icon as read from the
// ASET section that follows the executable.
//
// The file is a byte sequence and the reads follow java.io.RandomAccessFile:
// `read` fills a fresh zeroed buffer as far as the file goes, `readInt` and
// `readLong` read big-endian and throw an IOException past the end, and
// seeking to a negative position throws an IOException. The loader reverses
// the bytes of what it reads, so every field is little-endian, and keeps
// Kotlin's signed `Int` and `Long`. Decoding the icon image is left out: the
// entry carries the icon's bytes.

module NroLoader {
  import opened Wrappers
  import opened Common

  const NroMagic: seq<u8> := [0x4E, 0x52, 0x4F, 0x30] // "NRO0"
  const AsetMagic: seq<u8> := [0x41, 0x53, 0x45, 0x54] // "ASET"
  const NameSize: nat := 0x200
  const AuthorSize: nat := 0x100

  function Zeros(n: nat): (z: seq<u8>)
    ensures |z| == n && forall i :: 0 <= i < n ==> z[i] == 0
  {
    seq(n, _ => 0)
  }

  /** `read` into a new buffer of n bytes at `pos`. */
  function ReadBytes(file: seq<u8>, pos: nat, n: nat): (r: seq<u8>)
    ensures |r| == n
    ensures forall i :: 0 <= i < n ==> r[i] == if pos + i < |file| then file[pos + i] else 0
  {
    if pos >= |file| then Zeros(n)
    else if pos + n <= |file| then file[pos..pos + n]
    else file[pos..] + Zeros(pos + n - |file|)
  }

  /** An n-byte field at `pos`, byte-reversed after a big-endian read: its
      little-endian value, or nothing when the file ends first. */
  function ReadLe(file: seq<u8>, pos: nat, n: nat): (r: Option<nat>)
    ensures r.Some? <==> pos + n <= |file|
    ensures r.Some? ==> r.value < Pow2(8 * n) && LeBytes(r.value, n) == file[pos..pos + n]
  {
    if pos + n <= |file| then
      LittleEndianSnoc(file[pos..pos + n], 0);
      LittleEndianRoundTrip(file[pos..pos + n]);
      Some(LittleEndian(file[pos..pos + n]))
    else None
  }

  function ToSigned32(x: u32): i32 { if x < 0x8000_0000 then x else x - U32_MODULUS }

  /** `Integer.reverseBytes(readInt())`. */
  function ReadInt(file: seq<u8>, pos: nat): (r: Option<i32>)
    ensures r.Some? <==> pos + 4 <= |file|
  {
    match ReadLe(file, pos, 4)
    case None => None
    case Some(v) => Pow2Value32(); Some(ToSigned32(v))
  }

  /** `Long.reverseBytes(readLong())`. */
  function ReadLong(file: seq<u8>, pos: nat): (r: Option<i64>)
    ensures r.Some? <==> pos + 8 <= |file|
  {
    match ReadLe(file, pos, 8)
    case None => None
    case Some(v) => Pow2Value64(); Some(ToSigned64(v))
  }

  /** A `Long` sum, which wraps around. */
  function LongAdd(a: int, b: int): i64 { ToSigned64(Wrap64(a + b)) }

  // ---------------------------------------------------------------------------
  // verifyFile
  // ---------------------------------------------------------------------------

  /** `verifyFile`: the four bytes at 0x10 must spell "NRO0"; a short read
      leaves zeros in the buffer, which do not. */
  function VerifyFile(file: seq<u8>): (r: bool)
    ensures r <==> |file| >= 0x14 && file[0x10..0x14] == NroMagic
  {
    var buffer := ReadBytes(file, 0x10, 4);
    assert |file| < 0x14 ==> buffer[3] == 0 && NroMagic[3] != 0;
    buffer == NroMagic
  }

  // ---------------------------------------------------------------------------
  // getTitleEntry
  // ---------------------------------------------------------------------------

  /** The title entry: a name and an author cut at their first NUL and the
      icon's bytes, or the entry that reports a missing ASET section (not
      valid), which every IOException leads to. */
  datatype TitleEntry = Titled(name: seq<u8>, author: seq<u8>, icon: seq<u8>) | AsetMissing

  predicate Valid(t: TitleEntry) { t.Titled? }

  /** Where the icon stage leaves off: the ASET offset, the icon's position
      and its size as read. */
  datatype IconField = IconField(aset: nat, iconPos: nat, iconSize: i32)

  /** The ASET offset at 0x18, the magic at it, the icon offset and size at
      +8 and +0x10, neither zero, and the icon's position, which must not be
      negative; `None` where one of these throws an IOException or fails. */
  function IconStage(file: seq<u8>): (r: Option<IconField>)
    ensures r.Some? ==> ReadBytes(file, r.value.aset, 4) == AsetMagic && r.value.iconSize != 0
  {
    match ReadInt(file, 0x18)
    case None => None
    case Some(aset) =>
      if aset < 0 || ReadBytes(file, aset, 4) != AsetMagic then None
      else
        match (ReadLong(file, aset + 8), ReadInt(file, aset + 0x10))
        case (Some(iconOffset), Some(iconSize)) =>
          if iconOffset == 0 || iconSize == 0 then None
          else
            var iconPos := LongAdd(aset, iconOffset);
            if iconPos < 0 then None else Some(IconField(aset, iconPos, iconSize))
        case _ => None
  }

  /** The NACP offset and size at +0x18 and +0x20, neither zero, and the
      name's position, which must not be negative. */
  function NacpStage(file: seq<u8>, aset: nat): (r: Option<nat>)
  {
    match (ReadLong(file, aset + 0x18), ReadLong(file, aset + 0x20))
    case (Some(nacpOffset), Some(nacpSize)) =>
      if nacpOffset == 0 || nacpSize == 0 then None
      else
        var namePos := LongAdd(aset, nacpOffset);
        if namePos < 0 then None else Some(namePos)
    case _ => None
  }

  /** After the icon: the 0x200-byte name at the NACP and the 0x100-byte
      author after it, each cut at its first NUL. */
  function Finish(file: seq<u8>, aset: nat, iconPos: nat, iconSize: nat): (t: TitleEntry)
    ensures t.Titled? ==> |t.name| <= NameSize && |t.author| <= AuthorSize && 0 !in t.name && 0 !in t.author
    ensures t.Titled? ==> |t.icon| == iconSize
  {
    match NacpStage(file, aset)
    case None => AsetMissing
    case Some(namePos) =>
      Titled(UntilNul(ReadBytes(file, namePos, NameSize)), UntilNul(ReadBytes(file, namePos + NameSize, AuthorSize)),
             ReadBytes(file, iconPos, iconSize))
  }

  /** `getTitleEntry` as written: a negative icon size makes the icon buffer
      throw a NegativeArraySizeException, which the IOException handler does
      not catch, so it escapes the loader. */
  function GetTitleEntryAsWritten(file: seq<u8>): (r: Result<TitleEntry>)
    ensures r.Err? <==> IconStage(file).Some? && IconStage(file).value.iconSize < 0
  {
    match IconStage(file)
    case None => Ok(AsetMissing)
    case Some(f) =>
      if f.iconSize < 0 then Err("NegativeArraySizeException")
      else Ok(Finish(file, f.aset, f.iconPos, f.iconSize))
  }

  /** `getTitleEntry` with a negative icon size treated as the malformed ASET
      section it is: the entry is then the fallback, like every other one. */
  function GetTitleEntry(file: seq<u8>): (t: TitleEntry)
    ensures t.Titled? ==> IconStage(file).Some? && IconStage(file).value.iconSize > 0
    ensures t.Titled? ==> |t.name| <= NameSize && |t.author| <= AuthorSize && 0 !in t.name && 0 !in t.author
    ensures t.Titled? ==> |t.icon| == IconStage(file).value.iconSize
  {
    match IconStage(file)
    case None => AsetMissing
    case Some(f) =>
      if f.iconSize < 0 then AsetMissing
      else Finish(file, f.aset, f.iconPos, f.iconSize)
  }

  /** The two agree on every file the loader as written returns for. */
  lemma AsWrittenAgreesWhenItReturns(file: seq<u8>)
    ensures GetTitleEntryAsWritten(file).Ok? ==> GetTitleEntryAsWritten(file).value == GetTitleEntry(file)
  {
  }

  // ---------------------------------------------------------------------------
  // A well-formed NRO
  // ---------------------------------------------------------------------------

  /** A file laid out as an NRO: a 0x20-byte header with the magic at 0x10 and
      the ASET offset 0x20 at 0x18; the ASET header with the icon right after
      it (offset 0x28) and the NACP after the icon; then the icon, and the
      NACP's NUL-padded name and author. The icon size field is given, so
      that it may also disagree with the icon. */
  function NroFile(name: seq<u8>, author: seq<u8>, icon: seq<u8>, iconSizeField: u32): (file: seq<u8>)
    requires |name| <= NameSize && |author| <= AuthorSize
    ensures |file| == 0x48 + |icon| + NameSize + AuthorSize
  {
    NroHeader() + AsetHeader(|icon|, iconSizeField) + icon
      + (name + Zeros(NameSize - |name|)) + (author + Zeros(AuthorSize - |author|))
  }

  function NroHeader(): (h: seq<u8>)
    ensures |h| == 0x20
  {
    Zeros(0x10) + NroMagic + Zeros(4) + LeBytes(0x20, 4) + Zeros(4)
  }

  function AsetHeader(iconLength: nat, iconSizeField: u32): (h: seq<u8>)
    ensures |h| == 0x28
  {
    AsetMagic + Zeros(4) + LeBytes(0x28, 8) + LeBytes(iconSizeField, 4) + Zeros(4)
      + LeBytes(0x28 + iconLength, 8) + LeBytes(NameSize + AuthorSize, 8)
  }

  /** What the loader reads from such a file, field by field. */
  lemma NroFileFields(name: seq<u8>, author: seq<u8>, icon: seq<u8>, iconSizeField: u32)
    requires |name| <= NameSize && |author| <= AuthorSize && |icon| < 0x1_0000
    ensures var file := NroFile(name, author, icon, iconSizeField);
      && ReadInt(file, 0x18) == Some(0x20)
      && ReadBytes(file, 0x20, 4) == AsetMagic
      && ReadLong(file, 0x28) == Some(0x28)
      && ReadInt(file, 0x30) == Some(ToSigned32(iconSizeField))
      && ReadLong(file, 0x38) == Some(0x28 + |icon|)
      && ReadLong(file, 0x40) == Some(NameSize + AuthorSize)
      && ReadBytes(file, 0x48, |icon|) == icon
      && ReadBytes(file, 0x48 + |icon|, NameSize) == name + Zeros(NameSize - |name|)
      && ReadBytes(file, 0x48 + |icon| + NameSize, AuthorSize) == author + Zeros(AuthorSize - |author|)
  {
    NroFileIconFields(name, author, icon, iconSizeField);
    NroFileNacpFields(name, author, icon, iconSizeField);
    NroFileContents(name, author, icon, iconSizeField);
  }

  /** The file starts with the two headers. */
  lemma NroFileHeaders(name: seq<u8>, author: seq<u8>, icon: seq<u8>, iconSizeField: u32)
    requires |name| <= NameSize && |author| <= AuthorSize
    ensures var file := NroFile(name, author, icon, iconSizeField);
      file[..0x20] == NroHeader() && file[0x20..0x48] == AsetHeader(|icon|, iconSizeField)
  {
    var rest := icon + (name + Zeros(NameSize - |name|)) + (author + Zeros(AuthorSize - |author|));
    assert NroFile(name, author, icon, iconSizeField) == NroHeader() + AsetHeader(|icon|, iconSizeField) + rest;
    Middle([], NroHeader(), AsetHeader(|icon|, iconSizeField) + rest);
    Middle(NroHeader(), AsetHeader(|icon|, iconSizeField), rest);
  }

  /** Where the fields of the ASET header lie. */
  lemma AsetHeaderFields(iconLength: nat, iconSizeField: u32)
    ensures var h := AsetHeader(iconLength, iconSizeField);
      && h[0..4] == AsetMagic && h[8..16] == LeBytes(0x28, 8) && h[16..20] == LeBytes(iconSizeField, 4)
      && h[0x18..0x20] == LeBytes(0x28 + iconLength, 8) && h[0x20..0x28] == LeBytes(NameSize + AuthorSize, 8)
  {
    var magic, offset, size := AsetMagic, LeBytes(0x28, 8), LeBytes(iconSizeField, 4);
    var nacpOffset, nacpSize := LeBytes(0x28 + iconLength, 8), LeBytes(NameSize + AuthorSize, 8);
    var a := magic + Zeros(4);
    var b := a + offset;
    var c := b + size + Zeros(4);
    var d := c + nacpOffset;
    Middle([], magic, Zeros(4) + offset + size + Zeros(4) + nacpOffset + nacpSize);
    Middle(a, offset, size + Zeros(4) + nacpOffset + nacpSize);
    Middle(b, size, Zeros(4) + nacpOffset + nacpSize);
    Middle(c, nacpOffset, nacpSize);
    Middle(d, nacpSize, []);
  }

  /** The NRO header holds the ASET offset at 0x18. */
  lemma NroHeaderOffset()
    ensures NroHeader()[0x18..0x1C] == LeBytes(0x20, 4)
  {
    var a := Zeros(0x10) + NroMagic + Zeros(4);
    Middle(a, LeBytes(0x20, 4), Zeros(4));
  }

  /** The ASET offset, magic, icon offset and icon size field. */
  lemma NroFileIconFields(name: seq<u8>, author: seq<u8>, icon: seq<u8>, iconSizeField: u32)
    requires |name| <= NameSize && |author| <= AuthorSize && |icon| < 0x1_0000
    ensures var file := NroFile(name, author, icon, iconSizeField);
      && ReadInt(file, 0x18) == Some(0x20)
      && ReadBytes(file, 0x20, 4) == AsetMagic
      && ReadLong(file, 0x28) == Some(0x28)
      && ReadInt(file, 0x30) == Some(ToSigned32(iconSizeField))
  {
    NroFileAset(name, author, icon, iconSizeField);
    NroFileIconHeader(name, author, icon, iconSizeField);
  }

  /** The ASET offset and the magic at it. */
  lemma NroFileAset(name: seq<u8>, author: seq<u8>, icon: seq<u8>, iconSizeField: u32)
    requires |name| <= NameSize && |author| <= AuthorSize
    ensures var file := NroFile(name, author, icon, iconSizeField);
      ReadInt(file, 0x18) == Some(0x20) && ReadBytes(file, 0x20, 4) == AsetMagic
  {
    var file := NroFile(name, author, icon, iconSizeField);
    NroFileHeaders(name, author, icon, iconSizeField);
    AsetHeaderFields(|icon|, iconSizeField);
    NroHeaderOffset();
    SliceOfSlice(file, 0, 0x20, 0x18, 0x1C);
    SliceOfSlice(file, 0x20, 0x48, 0, 4);
    IntAt(file, 0x18, 0x20);
  }

  /** The icon offset and the icon size field. */
  lemma NroFileIconHeader(name: seq<u8>, author: seq<u8>, icon: seq<u8>, iconSizeField: u32)
    requires |name| <= NameSize && |author| <= AuthorSize
    ensures var file := NroFile(name, author, icon, iconSizeField);
      ReadLong(file, 0x28) == Some(0x28) && ReadInt(file, 0x30) == Some(ToSigned32(iconSizeField))
  {
    var file := NroFile(name, author, icon, iconSizeField);
    NroFileHeaders(name, author, icon, iconSizeField);
    AsetHeaderFields(|icon|, iconSizeField);
    SliceOfSlice(file, 0x20, 0x48, 8, 16);
    SliceOfSlice(file, 0x20, 0x48, 16, 20);
    LongAt(file, 0x28, 0x28);
    IntAt(file, 0x30, iconSizeField);
  }

  /** The NACP offset and size. */
  lemma NroFileNacpFields(name: seq<u8>, author: seq<u8>, icon: seq<u8>, iconSizeField: u32)
    requires |name| <= NameSize && |author| <= AuthorSize && |icon| < 0x1_0000
    ensures var file := NroFile(name, author, icon, iconSizeField);
      && ReadLong(file, 0x38) == Some(0x28 + |icon|)
      && ReadLong(file, 0x40) == Some(NameSize + AuthorSize)
  {
    var file := NroFile(name, author, icon, iconSizeField);
    NroFileHeaders(name, author, icon, iconSizeField);
    AsetHeaderFields(|icon|, iconSizeField);
    SliceOfSlice(file, 0x20, 0x48, 0x18, 0x20);
    SliceOfSlice(file, 0x20, 0x48, 0x20, 0x28);
    LongAt(file, 0x38, 0x28 + |icon|);
    LongAt(file, 0x40, NameSize + AuthorSize);
  }

  /** Eight bytes holding a value below 2^63 read back as that long. */
  lemma LongAt(file: seq<u8>, pos: nat, v: nat)
    requires pos + 8 <= |file| && v < 0x8000_0000_0000_0000 && file[pos..pos + 8] == LeBytes(v, 8)
    ensures ReadLong(file, pos) == Some(v)
  {
    Pow2Value64();
    LeInverse(v, 8, file[pos..pos + 8]);
  }

  /** Four bytes holding a u32 read back as that int. */
  lemma IntAt(file: seq<u8>, pos: nat, v: u32)
    requires pos + 4 <= |file| && file[pos..pos + 4] == LeBytes(v, 4)
    ensures ReadInt(file, pos) == Some(ToSigned32(v))
  {
    Pow2Value32();
    LeInverse(v, 4, file[pos..pos + 4]);
  }

  /** The icon, the padded name and the padded author. */
  lemma NroFileContents(name: seq<u8>, author: seq<u8>, icon: seq<u8>, iconSizeField: u32)
    requires |name| <= NameSize && |author| <= AuthorSize
    ensures var file := NroFile(name, author, icon, iconSizeField);
      && ReadBytes(file, 0x48, |icon|) == icon
      && ReadBytes(file, 0x48 + |icon|, NameSize) == name + Zeros(NameSize - |name|)
      && ReadBytes(file, 0x48 + |icon| + NameSize, AuthorSize) == author + Zeros(AuthorSize - |author|)
  {
    var file := NroFile(name, author, icon, iconSizeField);
    var n := |icon|;
    assert file[0x48..0x48 + n] == icon;
    assert file[0x48 + n..0x48 + n + NameSize] == name + Zeros(NameSize - |name|);
    assert file[0x48 + n + NameSize..0x48 + n + NameSize + AuthorSize] == author + Zeros(AuthorSize - |author|);
  }

  /** The bytes of a value read back as the value. */
  lemma LeInverse(v: nat, n: nat, s: seq<u8>)
    requires v < Pow2(8 * n) && s == LeBytes(v, n)
    ensures LittleEndian(s) == v
  {
    LeBytesRoundTrip(v, n);
  }

  /** The icon stage of such a file finds the ASET section at 0x20 and the icon at 0x48. */
  lemma NroFileIconStage(name: seq<u8>, author: seq<u8>, icon: seq<u8>, iconSizeField: u32)
    requires |name| <= NameSize && |author| <= AuthorSize && |icon| < 0x1_0000 && iconSizeField != 0
    ensures IconStage(NroFile(name, author, icon, iconSizeField)) == Some(IconField(0x20, 0x48, ToSigned32(iconSizeField)))
  {
    NroFileIconFields(name, author, icon, iconSizeField);
  }

  /** Its NACP stage finds the name right after the icon. */
  lemma NroFileNacpStage(name: seq<u8>, author: seq<u8>, icon: seq<u8>, iconSizeField: u32)
    requires |name| <= NameSize && |author| <= AuthorSize && |icon| < 0x1_0000
    ensures NacpStage(NroFile(name, author, icon, iconSizeField), 0x20) == Some(0x48 + |icon|)
  {
    NroFileNacpFields(name, author, icon, iconSizeField);
  }

  /** Such a file passes `verifyFile`. */
  lemma NroFileVerifies(name: seq<u8>, author: seq<u8>, icon: seq<u8>, iconSizeField: u32)
    requires |name| <= NameSize && |author| <= AuthorSize
    ensures VerifyFile(NroFile(name, author, icon, iconSizeField))
  {
    var file := NroFile(name, author, icon, iconSizeField);
    assert file[0x10..0x14] == NroMagic;
  }

  /** The entry of such a file is its name, author and icon. */
  lemma NroFileRoundTrip(name: seq<u8>, author: seq<u8>, icon: seq<u8>)
    requires |name| <= NameSize && |author| <= AuthorSize && 0 !in name && 0 !in author
    requires 0 < |icon| < 0x1_0000
    ensures GetTitleEntry(NroFile(name, author, icon, |icon|)) == Titled(name, author, icon)
    ensures GetTitleEntryAsWritten(NroFile(name, author, icon, |icon|)) == Ok(Titled(name, author, icon))
  {
    var file := NroFile(name, author, icon, |icon|);
    NroFileFields(name, author, icon, |icon|);
    NroFileIconStage(name, author, icon, |icon|);
    NroFileNacpStage(name, author, icon, |icon|);
    UntilNulPadded(name, NameSize - |name|);
    UntilNulPadded(author, AuthorSize - |author|);
  }

  /** An icon size field of 0xFFFFFFFF is the `Int` -1: the loader as
      written throws past its handler instead of returning the fallback. */
  lemma NegativeIconSizeEscapes()
    ensures GetTitleEntryAsWritten(NroFile([], [], [1], 0xFFFF_FFFF)).Err?
    ensures GetTitleEntry(NroFile([], [], [1], 0xFFFF_FFFF)) == AsetMissing
  {
    NroFileIconStage([], [], [1], 0xFFFF_FFFF);
  }
}
