// Texture sizes (app/src/main/cpp/skyline/gpu/texture.h): the dimensions of
// a texture, a format described by its bytes per block and its block size,
// and the number of bytes a texture of a format and dimensions occupies.
//
// The size is computed in 32-bit unsigned arithmetic and only then widened,
// so each product wraps modulo 2^32; a block width or height of zero divides
// by zero and is excluded.

module Texture {
  import opened Common

  datatype Dimensions = Dimensions(width: u32, height: u32, depth: u32)

  /** `Dimensions()`: all zero. */
  function EmptyDimensions(): (d: Dimensions)
    ensures d.width == 0 && d.height == 0 && d.depth == 0
  {
    Dimensions(0, 0, 0)
  }

  /** `Dimensions(width, height)`: a single layer. */
  function Dimensions2D(width: u32, height: u32): (d: Dimensions)
    ensures d.width == width && d.height == height && d.depth == 1
  {
    Dimensions(width, height, 1)
  }

  /** The defaulted `<=>`: width, then height, then depth. */
  function CompareDimensions(a: Dimensions, b: Dimensions): (c: int)
    ensures c == 0 <==> a == b
    ensures c < 0 <==> a.width < b.width || (a.width == b.width && (a.height < b.height || (a.height == b.height && a.depth < b.depth)))
    ensures -1 <= c <= 1
  {
    if a.width != b.width then (if a.width < b.width then -1 else 1)
    else if a.height != b.height then (if a.height < b.height then -1 else 1)
    else if a.depth != b.depth then (if a.depth < b.depth then -1 else 1)
    else 0
  }

  /** The comparison is antisymmetric and transitive: a total order. */
  lemma CompareIsTotalOrder(a: Dimensions, b: Dimensions, c: Dimensions)
    ensures CompareDimensions(a, b) == -CompareDimensions(b, a)
    ensures CompareDimensions(a, b) < 0 && CompareDimensions(b, c) < 0 ==> CompareDimensions(a, c) < 0
  {
  }

  /** A format: bytes per block, block height and width in pixels, and the
      host format it maps to (an opaque number). */
  datatype Format = Format(bpb: u8, blockHeight: u16, blockWidth: u16, vkFormat: nat)

  /** `IsCompressed`: blocks larger than one pixel. */
  predicate IsCompressed(f: Format) {
    f.blockHeight != 1 || f.blockWidth != 1
  }

  /** `operator bool`: a format is valid when it has a nonzero block size in bytes. */
  predicate IsValid(f: Format) {
    f.bpb != 0
  }

  /** `operator==` and `operator!=` compare the host formats only. */
  predicate SameFormat(a: Format, b: Format) {
    a.vkFormat == b.vkFormat
  }

  /** So formats that differ in their layout can compare equal. */
  lemma SameFormatIgnoresLayout(a: Format, bpb: u8, blockHeight: u16, blockWidth: u16)
    ensures SameFormat(a, Format(bpb, blockHeight, blockWidth, a.vkFormat))
    ensures SameFormat(a, Format(bpb, blockHeight, blockWidth, a.vkFormat)) == SameFormat(Format(bpb, blockHeight, blockWidth, a.vkFormat), a)
  {
  }

  /** `GetSize(width, height, depth)`: whole blocks across times whole blocks
      down, times the bytes per block, times the depth, each product in
      32-bit unsigned arithmetic. */
  function GetSize(f: Format, width: u32, height: u32, depth: u32): (r: u32)
    requires f.blockWidth > 0 && f.blockHeight > 0
  {
    var blocks := Wrap32((width / f.blockWidth) * (height / f.blockHeight));
    var bytes := Wrap32(blocks * f.bpb);
    Wrap32(bytes * depth)
  }

  /** `GetSize(dimensions)` and `GuestTexture::Size` use the same formula. */
  function SizeOf(f: Format, d: Dimensions): u32
    requires f.blockWidth > 0 && f.blockHeight > 0
  {
    GetSize(f, d.width, d.height, d.depth)
  }

  /** The exact number of bytes: whole blocks times bytes per block times depth. */
  function ExactSize(f: Format, width: nat, height: nat, depth: nat): nat
    requires f.blockWidth > 0 && f.blockHeight > 0
  {
    var across: nat, down: nat := width / f.blockWidth, height / f.blockHeight;
    MulMonotone(0, across, down);
    MulMonotone(0, across * down, f.bpb);
    MulMonotone(0, across * down * f.bpb, depth);
    across * down * f.bpb * depth
  }

  /** Without overflow the 32-bit computation gives the exact size. */
  lemma GetSizeIsExact(f: Format, width: u32, height: u32, depth: u32)
    requires f.blockWidth > 0 && f.blockHeight > 0
    requires ExactSize(f, width, height, depth) < U32_MODULUS
    ensures GetSize(f, width, height, depth) == ExactSize(f, width, height, depth)
  {
    var across: nat, down: nat := width / f.blockWidth, height / f.blockHeight;
    MulMonotone(0, across, down);
    var a := across * down;
    if depth > 0 && f.bpb > 0 {
      MulMonotone(1, f.bpb, a);
      MulMonotone(1, depth, a * f.bpb);
      ModUnique(a, U32_MODULUS, 0, a);
      ModUnique(a * f.bpb, U32_MODULUS, 0, a * f.bpb);
      ModUnique(a * f.bpb * depth, U32_MODULUS, 0, a * f.bpb * depth);
    } else {
      ModUnique(0, U32_MODULUS, 0, 0);
    }
  }

  /** For an uncompressed format the size is width times height times the
      bytes per pixel times the depth. */
  lemma UncompressedSize(f: Format, width: u32, height: u32, depth: u32)
    requires !IsCompressed(f)
    ensures ExactSize(f, width, height, depth) == width * height * f.bpb * depth
  {
  }

  /** A texture of `depth` layers is `depth` times a single layer, when that
      fits in 32 bits. */
  lemma SizeScalesWithDepth(f: Format, width: u32, height: u32, depth: u32)
    requires f.blockWidth > 0 && f.blockHeight > 0
    requires ExactSize(f, width, height, depth) < U32_MODULUS && depth > 0
    ensures GetSize(f, width, height, depth) == GetSize(f, width, height, 1) * depth
  {
    var layer := ExactSize(f, width, height, 1);
    assert ExactSize(f, width, height, depth) == layer * depth;
    MulMonotone(1, depth, layer);
    GetSizeIsExact(f, width, height, depth);
    GetSizeIsExact(f, width, height, 1);
  }

  /** A valid format gives a texture of at least one block and one layer a
      nonzero size, when the size fits in 32 bits. */
  lemma ValidTextureHasBytes(f: Format, width: u32, height: u32, depth: u32)
    requires f.blockWidth > 0 && f.blockHeight > 0 && IsValid(f)
    requires width >= f.blockWidth && height >= f.blockHeight && depth > 0
    requires ExactSize(f, width, height, depth) < U32_MODULUS
    ensures GetSize(f, width, height, depth) > 0
  {
    GetSizeIsExact(f, width, height, depth);
    var across, down := width / f.blockWidth, height / f.blockHeight;
    assert across >= 1 && down >= 1;
    MulMonotone(1, across, down);
    MulMonotone(1, across * down, f.bpb);
    MulMonotone(1, across * down * f.bpb, depth);
  }

  /** 0x10000 by 0x10000 texels of one byte wrap to a size of zero. */
  lemma LargeTextureWraps()
    ensures GetSize(Format(1, 1, 1, 0), 0x10000, 0x10000, 1) == 0
  {
    assert 0x10000 * 0x10000 == U32_MODULUS;
  }
}
