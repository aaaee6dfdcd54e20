// The application control property file (app/src/main/cpp/skyline/vfs/nacp.cpp
// and nacp.h): a 0x4000-byte block whose first 0x3000 bytes are sixteen
// title entries, one per language, each a 0x200-byte name followed by a
// 0x100-byte publisher. The name and publisher are taken from entry 0,
// at their full fixed lengths, NUL padding included.

module Nacp {
  import opened Wrappers
  import opened Common
  import Backing

  const ApplicationNameSize: nat := 0x200
  const ApplicationPublisherSize: nat := 0x100
  const ApplicationTitleSize: nat := 0x300
  const TitleEntryCount: nat := 0x10
  const NacpDataSize: nat := 0x4000

  /** The title entries fill 0x3000 bytes of the block; the rest is padding. */
  lemma LayoutFits()
    ensures ApplicationNameSize + ApplicationPublisherSize == ApplicationTitleSize
    ensures TitleEntryCount * ApplicationTitleSize <= NacpDataSize
  {
  }

  datatype Nacp = Nacp(applicationName: seq<u8>, applicationPublisher: seq<u8>)

  /** The strings of title entry 0 of a block. */
  function TitleOf(block: seq<u8>): (r: Nacp)
    requires |block| == NacpDataSize
    ensures |r.applicationName| == ApplicationNameSize && |r.applicationPublisher| == ApplicationPublisherSize
  {
    Nacp(block[..ApplicationNameSize], block[ApplicationNameSize..ApplicationTitleSize])
  }

  /** A block laid out from a name, a publisher and the remaining bytes. */
  function BlockOf(name: seq<u8>, publisher: seq<u8>, rest: seq<u8>): (b: seq<u8>)
    requires |name| == ApplicationNameSize && |publisher| == ApplicationPublisherSize
    requires |rest| == NacpDataSize - ApplicationTitleSize
    ensures |b| == NacpDataSize
  {
    name + publisher + rest
  }

  /** Reading a block gives back the name and publisher it was laid out from,
      whatever the other entries and the padding hold. */
  lemma TitleOfBlockOf(name: seq<u8>, publisher: seq<u8>, rest: seq<u8>)
    requires |name| == ApplicationNameSize && |publisher| == ApplicationPublisherSize
    requires |rest| == NacpDataSize - ApplicationTitleSize
    ensures TitleOf(BlockOf(name, publisher, rest)) == Nacp(name, publisher)
  {
    var b := BlockOf(name, publisher, rest);
    assert b[..ApplicationNameSize] == name;
    assert b[ApplicationNameSize..ApplicationTitleSize] == publisher;
  }

  /** And a block is determined by its title-0 strings and the rest. */
  lemma BlockOfTitleOf(block: seq<u8>)
    requires |block| == NacpDataSize
    ensures BlockOf(TitleOf(block).applicationName, TitleOf(block).applicationPublisher, block[ApplicationTitleSize..]) == block
  {
  }

  /** The constructor: the block is read from the start of the backing, then
      the strings are taken from title entry 0. A backing that cannot be read
      or holds less than a block throws. */
  method OpenNacp(backing: Backing.Backing) returns (r: Result<Nacp>)
    requires |backing.contents| == backing.size
    ensures r.Ok? <==> backing.mode.read && NacpDataSize <= backing.size
    ensures r.Ok? ==> r.value == TitleOf(backing.contents[..NacpDataSize])
  {
    var read, block := backing.Read(NacpDataSize, 0);
    if read.Err? {
      return Err(read.message);
    }
    r := Ok(TitleOf(block));
  }
}
