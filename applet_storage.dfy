// The applet manager's storage objects
// (app/src/main/cpp/skyline/services/am/storage/IStorage.h and
// IStorageAccessor.cpp): a byte buffer filled front to back by pushes, and
// an accessor that copies between it and guest buffers.
//
// Guest memory is reduced to the bytes of the request's buffers: the bytes
// of the input buffer a write copies from, and the bytes a read writes to
// the guest.

module AppletStorage {
  import opened Wrappers
  import opened Common

  /** The result codes of the accessor. */
  datatype AmResult = AmSuccess | OutOfBounds

  /** `content` with `value` copied over it at `offset`. */
  function Pushed(content: seq<u8>, offset: nat, value: seq<u8>): (r: seq<u8>)
    requires offset + |value| <= |content|
    ensures |r| == |content| && r[offset..offset + |value|] == value
    ensures r[..offset] == content[..offset] && r[offset + |value|..] == content[offset + |value|..]
  {
    content[..offset] + value + content[offset + |value|..]
  }

  /** Two pushes in a row write the two values back to back, as one push of
      both would. */
  lemma PushesConcatenate(content: seq<u8>, offset: nat, a: seq<u8>, b: seq<u8>)
    requires offset + |a| + |b| <= |content|
    ensures Pushed(Pushed(content, offset, a), offset + |a|, b) == Pushed(content, offset, a + b)
  {
    var once := Pushed(content, offset, a + b);
    var twice := Pushed(Pushed(content, offset, a), offset + |a|, b);
    assert twice[..offset] == once[..offset];
    assert twice[offset..offset + |a|] == once[offset..offset + |a|];
    assert twice[offset + |a|..offset + |a| + |b|] == once[offset + |a|..offset + |a| + |b|];
    assert twice[offset + |a| + |b|..] == once[offset + |a| + |b|..];
    assert twice == twice[..offset] + twice[offset..offset + |a|] + twice[offset + |a|..offset + |a| + |b|]
                    + twice[offset + |a| + |b|..];
    assert once == once[..offset] + once[offset..offset + |a|] + once[offset + |a|..offset + |a| + |b|]
                   + once[offset + |a| + |b|..];
  }

  /** An IStorage: its content and the cursor pushes advance. */
  class Storage {
    var content: seq<u8>
    var offset: nat

    predicate Valid()
      reads this
    {
      offset <= |content|
    }

    /** A storage of `size` zero bytes with the cursor at the start. */
    constructor (size: nat)
      ensures Valid() && content == seq(size, _ => 0) && offset == 0
    {
      content := seq(size, _ => 0);
      offset := 0;
    }

    /** `Push`: a value that does not fit after the cursor throws; otherwise
        its bytes are copied at the cursor, which moves past them. */
    method Push(value: seq<u8>) returns (r: Result<()>)
      requires Valid()
      modifies this
      ensures Valid()
      ensures r.Ok? <==> old(offset) + |value| <= |old(content)|
      ensures r.Ok? ==> content == Pushed(old(content), old(offset), value) && offset == old(offset) + |value|
      ensures r.Err? ==> content == old(content) && offset == old(offset)
    {
      if offset + |value| > |content| {
        return Err("The supplied value cannot fit into the IStorage");
      }
      content := content[..offset] + value + content[offset + |value|..];
      offset := offset + |value|;
      r := Ok(());
    }
  }

  /** `GetSize`: the content's size. */
  method GetSize(parent: Storage) returns (size: i64)
    requires |parent.content| < MaxContentSize
    ensures size == |parent.content|
  {
    size := |parent.content|;
  }

  /** The number of bytes an accessor call moves: the buffer's size, cut at
      the end of the content; zero or less moves nothing. */
  function TransferLength(bufferSize: nat, contentSize: nat, offset: int): (n: int)
    ensures n <= bufferSize && n <= contentSize - offset
    ensures n == bufferSize || n == contentSize - offset
  {
    if bufferSize < contentSize - offset then bufferSize else contentSize - offset
  }

  /** The offset check: the signed offset compared unsigned with the size,
      so a negative offset is refused too. */
  predicate OffsetInBounds(offset: i64, contentSize: nat) {
    Wrap64(offset) <= contentSize
  }

  /** Sizes the accessor handles: it works on the content's size as a signed 64-bit value. */
  const MaxContentSize: nat := 0x8000_0000_0000_0000

  /** An offset the check lets through is never negative. */
  lemma InBoundsOffsetIsNatural(offset: i64, contentSize: nat)
    requires contentSize < MaxContentSize && OffsetInBounds(offset, contentSize)
    ensures 0 <= offset <= contentSize
  {
  }

  /** `Write`: the first input buffer (its absence throws) is copied to the
      content at `offset`, as much of it as fits; an offset past the end is
      OutOfBounds. Only the bytes written change. */
  method Write(parent: Storage, offset: i64, input: Option<seq<u8>>) returns (r: Result<AmResult>)
    requires |parent.content| < MaxContentSize
    modifies parent
    ensures parent.offset == old(parent.offset)
    ensures r.Err? <==> input.None?
    ensures input.Some? && !OffsetInBounds(offset, |old(parent.content)|) ==> r == Ok(OutOfBounds)
    ensures r == Ok(AmSuccess) <==> input.Some? && OffsetInBounds(offset, |old(parent.content)|)
    ensures r == Ok(AmSuccess) ==>
              var n := TransferLength(|input.value|, |old(parent.content)|, offset);
              parent.content == if n > 0 then Pushed(old(parent.content), offset, input.value[..n]) else old(parent.content)
    ensures r != Ok(AmSuccess) ==> parent.content == old(parent.content)
  {
    if input.None? {
      return Err("vector::at: no input buffer");
    }
    var size := TransferLength(|input.value|, |parent.content|, offset);
    if Wrap64(offset) > |parent.content| {
      return Ok(OutOfBounds);
    }
    if size > 0 {
      parent.content := parent.content[..offset] + input.value[..size] + parent.content[offset + size..];
    }
    r := Ok(AmSuccess);
  }

  /** `Read` as written: the length comes from the first input buffer, which
      a read request need not have, and the bytes are written to the output
      buffer whatever its size. */
  function ReadAsWritten(content: seq<u8>, offset: i64, inputSize: Option<nat>): (r: Result<(AmResult, seq<u8>)>)
    requires |content| < MaxContentSize
    ensures r.Err? <==> inputSize.None?
    ensures r.Ok? ==> (r.value.0 == AmSuccess <==> OffsetInBounds(offset, |content|))
    ensures r.Ok? && r.value.0 == AmSuccess ==>
              var n := TransferLength(inputSize.value, |content|, offset);
              r.value.1 == if n > 0 then content[offset..offset + n] else []
  {
    if inputSize.None? then Err("vector::at: no input buffer")
    else
      var size := TransferLength(inputSize.value, |content|, offset);
      if Wrap64(offset) > |content| then Ok((OutOfBounds, []))
      else Ok((AmSuccess, if size > 0 then content[offset..offset + size] else []))
  }

  /** `Read` as intended: the length comes from the output buffer it fills. */
  function Read(content: seq<u8>, offset: i64, outputSize: nat): (r: (AmResult, seq<u8>))
    requires |content| < MaxContentSize
    ensures r.0 == AmSuccess <==> OffsetInBounds(offset, |content|)
    ensures |r.1| <= outputSize
    ensures r.0 == AmSuccess ==>
              var n := TransferLength(outputSize, |content|, offset);
              r.1 == if n > 0 then content[offset..offset + n] else []
  {
    var size := TransferLength(outputSize, |content|, offset);
    if Wrap64(offset) > |content| then (OutOfBounds, [])
    else (AmSuccess, if size > 0 then content[offset..offset + size] else [])
  }

  /** A read request carries an output buffer only: as written it throws, as
      intended it returns the whole content. With an input buffer larger than
      the output buffer, as written more bytes are written than the output
      buffer holds. */
  lemma ReadAsWrittenIgnoresOutputBuffer()
    ensures ReadAsWritten(seq(0x88, _ => 0), 0, None).Err?
    ensures Read(seq(0x88, _ => 0), 0, 0x88) == (AmSuccess, seq(0x88, _ => 0))
    ensures |ReadAsWritten(seq(0x88, _ => 0), 0, Some(0x88)).value.1| > 0x10
  {
    assert seq(0x88, _ => 0)[0..0x88] == seq(0x88, _ => 0);
  }

  /** What a write put in reads back unchanged. */
  lemma WriteThenRead(content: seq<u8>, offset: i64, input: seq<u8>)
    requires 0 <= offset && offset + |input| <= |content| < MaxContentSize && |input| > 0
    ensures Read(Pushed(content, offset, input), offset, |input|) == (AmSuccess, input)
  {
  }
}
