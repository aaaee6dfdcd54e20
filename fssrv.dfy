// The filesystem service's storage and directory views
// (app/src/main/cpp/skyline/services/fssrv/IStorage.cpp and IDirectory.cpp).
//
// The IPC request is reduced to the values popped from it and to whether it
// carries the buffer the command uses: a storage read returns the bytes
// written to the output buffer, and the directory listing writes into an
// array of entries viewed over the first input buffer. A request without
// that buffer throws at `at(0)`.

module Fssrv {
  import opened Wrappers
  import opened Common
  import Backing

  /** The result codes of the service, by name. */
  datatype FsResult = FsSuccess | InvalidOffset | InvalidSize

  /** `IStorage::Read`: a negative offset is refused first, then a negative
      size; then a request without an output buffer throws; otherwise `size`
      bytes at `offset` are read through the backing, whose own bounds checks
      throw. */
  method StorageRead(backing: Backing.Backing, offset: i64, size: i64, hasOutputBuffer: bool)
    returns (r: Result<FsResult>, output: seq<u8>)
    requires |backing.contents| == backing.size
    ensures offset < 0 ==> r == Ok(InvalidOffset)
    ensures 0 <= offset && size < 0 ==> r == Ok(InvalidSize)
    ensures 0 <= offset && 0 <= size && !hasOutputBuffer ==> r.Err? && output == []
    ensures 0 <= offset && 0 <= size ==>
              && (r.Ok? <==> hasOutputBuffer && backing.mode.read && backing.ReadInBounds(size, offset))
              && (r.Ok? ==> r == Ok(FsSuccess) && output == backing.contents[offset..offset + size])
  {
    if offset < 0 {
      return Ok(InvalidOffset), [];
    }
    if size < 0 {
      return Ok(InvalidSize), [];
    }
    if !hasOutputBuffer {
      return Err("vector::at: no output buffer"), [];
    }
    var read;
    read, output := backing.Read(size, offset);
    if read.Err? {
      return Err(read.message), output;
    }
    r := Ok(FsSuccess);
  }

  /** `IStorage::GetSize`: the backing's size, which a whole read from offset 0 covers. */
  method StorageGetSize(backing: Backing.Backing) returns (size: u64)
    ensures size == backing.size
    ensures backing.ReadInBounds(size, 0)
  {
    size := backing.size;
  }

  // ---------------------------------------------------------------------------
  // IDirectory::Read
  // ---------------------------------------------------------------------------

  /** The length of the name field of a packed directory entry. */
  const NameLength: nat := 0x301

  datatype EntryType = File | Directory

  /** An entry as the backing directory lists it. */
  datatype Entry = Entry(name: string, entryType: EntryType, size: u64)

  /** The packed record the guest reads: a NUL-padded name, the attribute
      bits (archive is never set), the type and the size. */
  datatype DirectoryEntry = DirectoryEntry(name: string, directory: bool, archive: bool,
                                           entryType: EntryType, size: u64)

  /** The record initialised from an entry, before its name is copied in. */
  function Blank(e: Entry): (d: DirectoryEntry)
    ensures |d.name| == NameLength && forall i :: 0 <= i < NameLength ==> d.name[i] == 0 as char
    ensures d.directory <==> e.entryType == Directory
    ensures !d.archive && d.entryType == e.entryType && d.size == e.size
  {
    DirectoryEntry(seq(NameLength, _ => 0 as char), e.entryType == Directory, false, e.entryType, e.size)
  }

  /** The finished record: the name copied over the front of the blank one. */
  function Packed(e: Entry): (d: DirectoryEntry)
    requires |e.name| <= NameLength
    ensures |d.name| == NameLength && d.name[..|e.name|] == e.name
    ensures forall i :: |e.name| <= i < NameLength ==> d.name[i] == 0 as char
    ensures d.directory <==> e.entryType == Directory
    ensures !d.archive && d.entryType == e.entryType && d.size == e.size
  {
    var b := Blank(e);
    b.(name := e.name + b.name[|e.name|..])
  }

  /** The index of the first name that does not fit among the first `count`
      entries, or `count`. */
  function FirstLongName(entries: seq<Entry>, count: nat): (k: nat)
    requires count <= |entries|
    ensures k <= count
    ensures forall i :: 0 <= i < k ==> |entries[i].name| <= NameLength
    ensures k < count ==> |entries[k].name| > NameLength
  {
    if count == 0 then 0
    else
      var k := FirstLongName(entries, count - 1);
      if k < count - 1 then k
      else if |entries[count - 1].name| > NameLength then count - 1
      else count
  }

  /** `IDirectory::Read`. The entries are listed first; then a request without
      an input buffer throws. The first input buffer holds `bufferBytes` bytes,
      viewed as records of `entrySize` bytes; a size that is not a whole number
      of records throws. `min(entries, records)` records are written in order and that count
      is returned. A name longer than the field throws after its record was
      initialised, leaving the records before it written. */
  method DirectoryRead(entries: seq<Entry>, inputBuffer: Option<nat>, entrySize: nat, output: array<DirectoryEntry>)
    returns (r: Result<nat>)
    requires entrySize > 0
    requires inputBuffer.Some? && inputBuffer.value % entrySize == 0 ==> output.Length == inputBuffer.value / entrySize
    modifies output
    ensures inputBuffer.None? ==> r.Err? && output[..] == old(output[..])
    ensures inputBuffer.Some? && inputBuffer.value % entrySize != 0 ==> r.Err? && output[..] == old(output[..])
    ensures inputBuffer.Some? && inputBuffer.value % entrySize == 0 ==>
              var count := if |entries| < output.Length then |entries| else output.Length;
              var k := FirstLongName(entries, count);
              && (r.Ok? <==> k == count)
              && (r.Ok? ==> r.value == count)
              && (forall i :: 0 <= i < k ==> output[i] == Packed(entries[i]))
              && (k < count ==> output[k] == Blank(entries[k]))
              && (forall i :: (if k < count then k + 1 else k) <= i < output.Length ==> output[i] == old(output[i]))
  {
    if inputBuffer.None? {
      return Err("vector::at: no input buffer");
    }
    var view := SpanCast(seq(inputBuffer.value, _ => 0), entrySize);
    if view.Err? {
      return Err(view.message);
    }
    var count := if |entries| < output.Length then |entries| else output.Length;
    var i := 0;
    while i < count
      invariant i <= count
      invariant forall j :: 0 <= j < i ==> |entries[j].name| <= NameLength
      invariant FirstLongName(entries, count) >= i
      invariant forall j :: 0 <= j < i ==> output[j] == Packed(entries[j])
      invariant forall j :: i <= j < output.Length ==> output[j] == old(output[j])
    {
      var entry := entries[i];
      output[i] := Blank(entry);
      if |entry.name| > NameLength {
        return Err("Data being copied is larger than this span");
      }
      output[i] := output[i].(name := entry.name + output[i].name[|entry.name|..]);
      i := i + 1;
    }
    r := Ok(i);
  }

  /** The name a guest reads from a record's name field: the characters before the first NUL. */
  function FieldName(field: string): (r: string)
    ensures r <= field && (0 as char) !in r
    ensures |r| < |field| ==> field[|r|] == 0 as char
  {
    if field == [] || field[0] == 0 as char then [] else [field[0]] + FieldName(field[1..])
  }

  /** A name without NUL characters that fits the field is read back unchanged. */
  lemma {:induction false} FieldNameRoundTrip(name: string, field: string)
    requires (0 as char) !in name && |name| < |field| && field[..|name|] == name && field[|name|] == 0 as char
    ensures FieldName(field) == name
    decreases |name|
  {
    if name != [] {
      assert field[1..][..|name| - 1] == name[1..];
      FieldNameRoundTrip(name[1..], field[1..]);
    }
  }

  /** A packed record gives back the entry's name when it is shorter than the
      field and holds no NUL; a name filling the field has no terminator. */
  lemma PackedNameReadsBack(e: Entry)
    requires |e.name| < NameLength && (0 as char) !in e.name
    ensures FieldName(Packed(e).name) == e.name
  {
    FieldNameRoundTrip(e.name, Packed(e).name);
  }
}
