// A display-service parcel being built (app/src/main/cpp/skyline/gpu/parcel.h):
// its data and objects sections, which values are appended to byte by byte,
// and the 16-byte header that describes the two sections.
//
// A value is given by its object representation, the bytes it occupies in
// memory; for the integers written to parcels that is little-endian. The
// constructors that parse a parcel and WriteParcel are defined in a file
// that is not part of this model.

module Parcel {
  import opened Common

  /** The header: the size and offset of the data, then of the objects. */
  datatype ParcelHeader = ParcelHeader(dataSize: u32, dataOffset: u32, objectsSize: u32, objectsOffset: u32)

  const ParcelHeaderSize: nat := 0x10

  /** The header as it is stored: its four fields, four little-endian bytes each. */
  function HeaderBytes(h: ParcelHeader): (b: seq<u8>)
    ensures |b| == ParcelHeaderSize
  {
    LeBytes(h.dataSize, 4) + LeBytes(h.dataOffset, 4) + LeBytes(h.objectsSize, 4) + LeBytes(h.objectsOffset, 4)
  }

  /** Reading a stored header. */
  function ParseHeader(b: seq<u8>): (h: ParcelHeader)
    requires |b| == ParcelHeaderSize
  {
    LittleEndianBound(b[0..4]);
    LittleEndianBound(b[4..8]);
    LittleEndianBound(b[8..12]);
    LittleEndianBound(b[12..16]);
    ParcelHeader(LittleEndian(b[0..4]), LittleEndian(b[4..8]), LittleEndian(b[8..12]), LittleEndian(b[12..16]))
  }

  /** Four bytes hold a u32. */
  lemma LittleEndianBound(s: seq<u8>)
    requires |s| == 4
    ensures LittleEndian(s) < U32_MODULUS
  {
    LittleEndianSnoc(s, 0);
    Pow2Value32();
  }

  /** Storing a header and reading it back gives the same header. */
  lemma ParseHeaderBytes(h: ParcelHeader)
    ensures ParseHeader(HeaderBytes(h)) == h
  {
    var b := HeaderBytes(h);
    Pow2Value32();
    assert b[0..4] == LeBytes(h.dataSize, 4);
    assert b[4..8] == LeBytes(h.dataOffset, 4);
    assert b[8..12] == LeBytes(h.objectsSize, 4);
    assert b[12..16] == LeBytes(h.objectsOffset, 4);
    LeBytesRoundTrip(h.dataSize, 4);
    LeBytesRoundTrip(h.dataOffset, 4);
    LeBytesRoundTrip(h.objectsSize, 4);
    LeBytesRoundTrip(h.objectsOffset, 4);
  }

  class Parcel {
    var header: ParcelHeader
    var data: seq<u8>
    var objects: seq<u8>

    /** An empty parcel: a zero header and empty sections. */
    constructor ()
      ensures header == ParcelHeader(0, 0, 0, 0) && data == [] && objects == []
    {
      header := ParcelHeader(0, 0, 0, 0);
      data := [];
      objects := [];
    }

    /** `WriteData`: the value's bytes are appended to the data, one at a
        time in memory order; the objects are untouched. */
    method WriteData(value: seq<u8>)
      modifies this
      ensures data == old(data) + value
      ensures objects == old(objects) && header == old(header)
    {
      var index := 0;
      while index < |value|
        invariant 0 <= index <= |value|
        invariant data == old(data) + value[..index]
        invariant objects == old(objects) && header == old(header)
      {
        data := data + [value[index]];
        assert value[..index + 1] == value[..index] + [value[index]];
        index := index + 1;
      }
      assert value[..index] == value;
    }

    /** `WriteObject`: the same on the objects; the data is untouched. */
    method WriteObject(value: seq<u8>)
      modifies this
      ensures objects == old(objects) + value
      ensures data == old(data) && header == old(header)
    {
      var index := 0;
      while index < |value|
        invariant 0 <= index <= |value|
        invariant objects == old(objects) + value[..index]
        invariant data == old(data) && header == old(header)
      {
        objects := objects + [value[index]];
        assert value[..index + 1] == value[..index] + [value[index]];
        index := index + 1;
      }
      assert value[..index] == value;
    }

    /** Writing a u32 puts its four little-endian bytes at the end of the
        data, where it reads back. */
    method WriteU32(v: u32)
      modifies this
      ensures data == old(data) + LeBytes(v, 4) && objects == old(objects)
      ensures LittleEndian(data[|old(data)|..]) == v
    {
      WriteData(LeBytes(v, 4));
      assert data[|old(data)|..] == LeBytes(v, 4);
      Pow2Value32();
      LeBytesRoundTrip(v, 4);
    }
  }
}
