// A storage backing (app/src/main/cpp/skyline/vfs/backing.h): a mode, a
// size, and the bounds checks around the implementation's reads, writes and
// resizes.
//
// The implementation hooks (`ReadImpl`, `WriteImpl`, `ResizeImpl`) belong to
// the concrete backings, which are not part of this model. Here the backing
// is a byte sequence: a read copies what the sequence holds, a write
// overwrites (zero-filling any gap), and a resize truncates or zero-pads.
// Whether the concrete backing overrides the write and resize hooks at all
// is a constant; when it does not, the base class's hook throws.

module Backing {
  import opened Wrappers
  import opened Common

  datatype Mode = Mode(read: bool, write: bool, append: bool)

  /** The number of bytes a read of `len` bytes at `offset` finds in `contents`. */
  function Available(contents: seq<u8>, offset: nat, len: nat): (n: nat)
    ensures offset + n <= |contents| || n == 0
    ensures n <= len
    ensures offset + len <= |contents| ==> n == len
  {
    if offset >= |contents| then 0
    else if len < |contents| - offset then len
    else |contents| - offset
  }

  /** `contents` with `input` written at `offset`; a gap before `offset` reads as zeros. */
  function Overwrite(contents: seq<u8>, offset: nat, input: seq<u8>): (r: seq<u8>)
    ensures |r| == if offset + |input| > |contents| then offset + |input| else |contents|
    ensures r[offset..offset + |input|] == input
    ensures forall i :: 0 <= i < |r| && !(offset <= i < offset + |input|) ==>
              r[i] == if i < |contents| then contents[i] else 0
  {
    var padded := if offset > |contents| then contents + seq(offset - |contents|, _ => 0) else contents;
    var tail := if offset + |input| < |padded| then padded[offset + |input|..] else [];
    padded[..offset] + input + tail
  }

  /** `contents` cut or zero-padded to `size` bytes. */
  function Resized(contents: seq<u8>, size: nat): (r: seq<u8>)
    ensures |r| == size
    ensures forall i :: 0 <= i < size ==> r[i] == if i < |contents| then contents[i] else 0
  {
    if size <= |contents| then contents[..size] else contents + seq(size - |contents|, _ => 0)
  }

  class Backing {
    var mode: Mode
    var size: u64
    var contents: seq<u8>
    /** Whether the concrete backing overrides the base class's throwing write hook. */
    const writeSupported: bool
    /** Whether the concrete backing overrides the base class's throwing resize hook. */
    const resizeSupported: bool

    /** The default mode is read-only, the default size 0. */
    constructor (mode: Mode, size: u64, contents: seq<u8>, writeSupported: bool, resizeSupported: bool)
      ensures this.mode == mode && this.size == size && this.contents == contents
      ensures this.writeSupported == writeSupported && this.resizeSupported == resizeSupported
    {
      this.mode := mode;
      this.size := size;
      this.contents := contents;
      this.writeSupported := writeSupported;
      this.resizeSupported := resizeSupported;
    }

    /** Reading needs a readable mode; the bytes then come straight from the
        implementation, which reports how many it delivered. */
    method ReadUnchecked(len: nat, offset: u64) returns (r: Result<nat>, output: seq<u8>)
      ensures r.Ok? <==> mode.read
      ensures r.Ok? ==> r.value == |output| == Available(contents, offset, len)
      ensures r.Ok? && |output| > 0 ==> output == contents[offset..offset + |output|]
    {
      if !mode.read {
        return Err("Attempting to read a backing that is not readable"), [];
      }
      var n := Available(contents, offset, len);
      output := if n == 0 then [] else contents[offset..offset + n];
      r := Ok(n);
    }

    /** The bounds checks of Read: the offset within the backing and enough
        bytes after it for the output. */
    predicate ReadInBounds(len: nat, offset: u64)
      reads this
    {
      offset <= size && len <= size - offset
    }

    /** Read as written: after the bounds checks it demands that the
        implementation reported the backing's whole size, and returns that
        size rather than the requested length. */
    method ReadAsWritten(len: nat, offset: u64) returns (r: Result<nat>, output: seq<u8>)
      requires |contents| == size
      ensures r.Ok? <==> mode.read && ReadInBounds(len, offset) && len == size
      ensures r.Ok? ==> r.value == size && offset == 0
    {
      if offset > size {
        return Err("Offset cannot be past the end of a backing"), [];
      }
      if size - offset < len {
        return Err("Trying to read past the end of a backing"), [];
      }
      var n;
      n, output := ReadUnchecked(len, offset);
      if n.Err? {
        return n, output;
      }
      if n.value != size {
        return Err("Failed to read the requested size from backing"), output;
      }
      r := Ok(size);
    }

    /** Read as its checks and its error message intend: any in-bounds read of
        a readable backing delivers exactly the requested bytes. */
    method Read(len: nat, offset: u64) returns (r: Result<nat>, output: seq<u8>)
      requires |contents| == size
      ensures r.Ok? <==> mode.read && ReadInBounds(len, offset)
      ensures r.Ok? ==> r.value == len && output == contents[offset..offset + len]
    {
      if offset > size {
        return Err("Offset cannot be past the end of a backing"), [];
      }
      if size - offset < len {
        return Err("Trying to read past the end of a backing"), [];
      }
      var n;
      n, output := ReadUnchecked(len, offset);
      if n.Err? {
        return n, output;
      }
      if n.value != len {
        return Err("Failed to read the requested size from backing"), output;
      }
      r := Ok(len);
    }

    /** Resizing goes to the implementation, which the base class refuses. */
    method Resize(newSize: u64) returns (r: Result<()>)
      modifies this
      ensures r.Ok? <==> resizeSupported
      ensures r.Ok? ==> size == newSize && contents == Resized(old(contents), newSize) && mode == old(mode)
      ensures r.Err? ==> unchanged(this)
    {
      if !resizeSupported {
        return Err("This backing does not support being resized");
      }
      size := newSize;
      contents := Resized(contents, newSize);
      r := Ok(());
    }

    /** Whether a write of `len` bytes at `offset` runs past the end. The
        remaining room is computed in 64-bit unsigned arithmetic, so an
        offset past the end wraps to a huge room and passes. */
    predicate PastEnd(len: nat, offset: u64)
      reads this
    {
      len > Wrap64(size - offset)
    }

    /** Writing needs a writable mode; a write past the end first grows the
        backing to `offset + len` when it may be appended to and is refused
        otherwise; the bytes then go to the implementation. */
    method Write(input: seq<u8>, offset: u64) returns (r: Result<nat>)
      requires |input| < U64_MODULUS
      modifies this
      ensures mode == old(mode)
      ensures r.Ok? <==>
                && mode.write && writeSupported
                && (old(PastEnd(|input|, offset)) ==> mode.append && resizeSupported)
      ensures r.Ok? ==> r.value == |input|
      ensures r.Ok? ==> size == (if old(PastEnd(|input|, offset)) then Wrap64(offset + |input|) else old(size))
      ensures r.Ok? ==> contents == Overwrite(if old(PastEnd(|input|, offset)) then Resized(old(contents), size) else old(contents),
                                              offset, input)
      ensures !mode.write ==> unchanged(this)
    {
      if !mode.write {
        return Err("Attempting to write to a backing that is not writable");
      }
      if PastEnd(|input|, offset) {
        if mode.append {
          var resized := Resize(Wrap64(offset + |input|));
          if resized.Err? {
            return Err(resized.message);
          }
        } else {
          return Err("Trying to write past the end of a non-appendable backing");
        }
      }
      if !writeSupported {
        return Err("This backing does not support being written to");
      }
      contents := Overwrite(contents, offset, input);
      r := Ok(|input|);
    }

    /** Writes an object's bytes; anything short of all of them is an error. */
    method WriteObject(item: seq<u8>, offset: u64) returns (r: Result<()>)
      requires |item| < U64_MODULUS
      modifies this
      ensures r.Ok? <==>
                && mode.write && writeSupported
                && (old(PastEnd(|item|, offset)) ==> mode.append && resizeSupported)
      ensures r.Ok? ==> offset + |item| <= |contents| && contents[offset..offset + |item|] == item
    {
      var written := Write(item, offset);
      if written.Err? {
        return Err(written.message);
      }
      if written.value != |item| {
        return Err("Object wasn't written fully into output backing");
      }
      r := Ok(());
    }
  }

  /** A write that fits inside the backing leaves its size alone, and a read of
      the same range returns the bytes written. */
  lemma WriteThenReadBack(contents: seq<u8>, offset: nat, input: seq<u8>)
    requires offset + |input| <= |contents|
    ensures |Overwrite(contents, offset, input)| == |contents|
    ensures Overwrite(contents, offset, input)[offset..offset + |input|] == input
    ensures Available(Overwrite(contents, offset, input), offset, |input|) == |input|
  {
  }
}
