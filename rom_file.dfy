// ROM files on the application side (app/src/main/java/emu/skyline/loader/RomFile.kt):
// the ROM formats and the loader results with their numeric values, the
// format of a file as its extension names it, the metadata entry of an
// application, and that entry's serialized form.
//
// Strings are sequences of Unicode scalar values. Upper-casing with the root
// locale is modelled for the characters that can upper-case into the letters
// of a format name (ASCII letters, dotless i and long s); every other
// character is kept, which changes no format lookup. The serialized form is
// the sequence of primitive records the object stream is given; the bytes of
// the stream and the image compression are left out.

module RomFile {
  import opened Wrappers

  datatype RomFormat = NRO | NSO | NCA | XCI | NSP

  /** `RomFormat.format`: 0 to 4, in declaration order. */
  function FormatValue(f: RomFormat): (v: nat)
    ensures v < 5
  {
    match f case NRO => 0 case NSO => 1 case NCA => 2 case XCI => 3 case NSP => 4
  }

  const Formats: seq<RomFormat> := [NRO, NSO, NCA, XCI, NSP]

  /** Each format's value is its ordinal, so distinct formats have distinct values. */
  lemma FormatValueIsOrdinal(f: RomFormat)
    ensures Formats[FormatValue(f)] == f
  {
  }

  /** `RomFormat.name`. */
  function FormatName(f: RomFormat): (s: string)
    ensures |s| == 3
  {
    match f case NRO => "NRO" case NSO => "NSO" case NCA => "NCA" case XCI => "XCI" case NSP => "NSP"
  }

  /** `RomFormat.valueOf`: the format with exactly this name; any other name throws. */
  function ValueOf(s: string): (r: Result<RomFormat>)
    ensures r.Ok? ==> FormatName(r.value) == s
    ensures r.Err? ==> forall f :: FormatName(f) != s
  {
    if s == "NRO" then Ok(NRO) else if s == "NSO" then Ok(NSO) else if s == "NCA" then Ok(NCA)
    else if s == "XCI" then Ok(XCI) else if s == "NSP" then Ok(NSP)
    else
      assert forall f :: FormatName(f) != s;
      Err("No enum constant")
  }

  /** The text after the last '.', or all of it when there is none. */
  function Extension(s: string): (e: string)
    ensures |e| <= |s| && e == s[|s| - |e|..] && '.' !in e
    ensures |e| < |s| ==> s[|s| - |e| - 1] == '.'
  {
    if s == [] then []
    else if s[|s| - 1] == '.' then []
    else
      var e := Extension(s[..|s| - 1]);
      assert e == s[|s| - 1 - |e|..|s| - 1];
      e + [s[|s| - 1]]
  }

  /** Root-locale upper case of the characters that can become a format
      name's letters. */
  function UpperChar(c: char): (u: char)
  {
    if 'a' <= c <= 'z' then (c as int - 32) as char
    else if c == 'ı' then 'I'
    else if c == 'ſ' then 'S'
    else c
  }

  function Upper(s: string): (u: string)
    ensures |u| == |s| && forall i :: 0 <= i < |s| ==> u[i] == UpperChar(s[i])
  {
    seq(|s|, i requires 0 <= i < |s| => UpperChar(s[i]))
  }

  /** `getRomFormat`: `valueOf` of the upper-cased extension of the display
      name; an extension that names no format throws. */
  function GetRomFormat(displayName: string): (r: Result<RomFormat>)
    ensures r.Ok? ==> FormatName(r.value) == Upper(Extension(displayName))
  {
    ValueOf(Upper(Extension(displayName)))
  }

  /** A file named with a format's extension, in any letter case, has that format. */
  lemma GetRomFormatOfExtension(base: string, ext: string, f: RomFormat)
    requires Upper(ext) == FormatName(f)
    ensures GetRomFormat(base + "." + ext) == Ok(f)
  {
    var s := base + "." + ext;
    assert '.' !in ext by {
      forall i | 0 <= i < |ext| ensures ext[i] != '.' {
        assert UpperChar(ext[i]) == FormatName(f)[i];
      }
    }
    ExtensionOfSuffix(base, ext);
    ValueOfName(f);
  }

  lemma ValueOfName(f: RomFormat)
    ensures ValueOf(FormatName(f)) == Ok(f)
  {
  }

  /** The extension of a name ending in '.' and a dot-free suffix is that suffix. */
  lemma {:induction false} ExtensionOfSuffix(base: string, ext: string)
    requires '.' !in ext
    ensures Extension(base + "." + ext) == ext
    decreases |ext|
  {
    var s := base + "." + ext;
    if ext == [] {
      assert s[|s| - 1] == '.';
    } else {
      var init := ext[..|ext| - 1];
      assert s[..|s| - 1] == base + "." + init;
      assert ext == init + [ext[|ext| - 1]];
      ExtensionOfSuffix(base, init);
    }
  }

  /** A name whose extension names no format throws, even when an earlier one does. */
  lemma UnknownExtensionThrows()
    ensures GetRomFormat("game.nsp.bak").Err?
  {
    assert "game.nsp" + "." + "bak" == "game.nsp.bak";
    ExtensionOfSuffix("game.nsp", "bak");
    var u := Upper("bak");
    assert u[0] == 'B';
  }

  /** Root-locale upper case maps a dotless i to I, so ".xcı" names an XCI. */
  lemma DotlessINamesXci()
    ensures GetRomFormat("game.xcı") == Ok(XCI)
  {
    assert Upper("xcı") == "XCI";
    assert "game" + "." + "xcı" == "game.xcı";
    GetRomFormatOfExtension("game", "xcı", XCI);
  }

  // ---------------------------------------------------------------------------
  // Loader results
  // ---------------------------------------------------------------------------

  datatype LoaderResult = Success | ParsingError | MissingHeaderKey | MissingTitleKey | MissingTitleKek | MissingKeyArea

  function LoaderResultValue(r: LoaderResult): (v: nat)
    ensures v <= 5 && (v == 0 <==> r == Success)
  {
    match r
    case Success => 0 case ParsingError => 1 case MissingHeaderKey => 2
    case MissingTitleKey => 3 case MissingTitleKek => 4 case MissingKeyArea => 5
  }

  /** `LoaderResult.get`: the first constant with the value; none throws. */
  function LoaderResultGet(value: int): (r: Result<LoaderResult>)
    ensures r.Ok? <==> 0 <= value <= 5
    ensures r.Ok? ==> LoaderResultValue(r.value) == value
  {
    if value == 0 then Ok(Success) else if value == 1 then Ok(ParsingError)
    else if value == 2 then Ok(MissingHeaderKey) else if value == 3 then Ok(MissingTitleKey)
    else if value == 4 then Ok(MissingTitleKek) else if value == 5 then Ok(MissingKeyArea)
    else Err("NoSuchElementException")
  }

  lemma LoaderResultRoundTrip(r: LoaderResult)
    ensures LoaderResultGet(LoaderResultValue(r)) == Ok(r)
  {
  }

  // ---------------------------------------------------------------------------
  // Application entries
  // ---------------------------------------------------------------------------

  /** `AppEntry`; the icon is given by its compressed bytes. */
  datatype AppEntry = AppEntry(name: string, author: Option<string>, icon: Option<seq<int>>, format: RomFormat, uri: string)

  /** `dropLast(n)`: all but the last n characters, nothing when there are fewer. */
  function DropLast(s: string, n: nat): (r: string)
    ensures r <= s && |r| == if n <= |s| then |s| - n else 0
  {
    if n <= |s| then s[..|s| - n] else []
  }

  /** The entry made from a display name: the name less its format's
      extension and dot; no author and no icon. */
  function EntryFromDisplayName(displayName: string, format: RomFormat, uri: string): (e: AppEntry)
    ensures e.author.None? && e.icon.None? && e.format == format && e.uri == uri
    ensures e.name <= displayName
  {
    AppEntry(DropLast(displayName, |FormatName(format)| + 1), None, None, format, uri)
  }

  /** A display name of a base, a dot and a three-letter extension gives the base. */
  lemma DisplayNameDropsExtension(base: string, ext: string, format: RomFormat, uri: string)
    requires |ext| == 3
    ensures EntryFromDisplayName(base + "." + ext, format, uri).name == base
  {
    assert (base + "." + ext)[..|base|] == base;
  }

  /** `RomFile`'s entry: the one the native loader filled in when it gave a
      name, an author and an icon, otherwise the one from the display name;
      the file is valid when the native result is `Success`. A native result
      with no constant throws. */
  datatype Rom = Rom(appEntry: AppEntry, result: LoaderResult)

  function OpenRom(format: RomFormat, uri: string, displayName: string, populated: int,
                   applicationName: Option<string>, applicationAuthor: Option<string>, rawIcon: Option<seq<int>>): (r: Result<Rom>)
    ensures r.Ok? <==> 0 <= populated <= 5
    ensures r.Ok? ==> (r.value.result == Success <==> populated == 0)
    ensures r.Ok? && applicationName.Some? && applicationAuthor.Some? && rawIcon.Some? ==>
      r.value.appEntry == AppEntry(applicationName.value, applicationAuthor, rawIcon, format, uri)
    ensures r.Ok? && (applicationName.None? || applicationAuthor.None? || rawIcon.None?) ==>
      r.value.appEntry == EntryFromDisplayName(displayName, format, uri)
  {
    var result :- LoaderResultGet(populated);
    var entry :=
      if applicationName.Some? && applicationAuthor.Some? && rawIcon.Some? then
        AppEntry(applicationName.value, applicationAuthor, rawIcon, format, uri)
      else EntryFromDisplayName(displayName, format, uri);
    Ok(Rom(entry, result))
  }

  // ---------------------------------------------------------------------------
  // Serialization
  // ---------------------------------------------------------------------------

  /** The records of the object stream: a `writeUTF` string, an enum object,
      a boolean, and the bytes of a compressed image. */
  datatype Record = Utf(s: string) | EnumObject(format: RomFormat) | Boolean(b: bool) | Image(bytes: seq<int>)

  /** The length of a string in the modified UTF-8 of `writeUTF`: NUL takes
      two bytes, and a character outside the basic plane two surrogates of
      three bytes each. */
  function ModifiedUtf8Length(s: string): (n: nat)
    ensures n >= |s|
  {
    if s == [] then 0
    else
      var c := s[0] as int;
      (if 0 < c < 0x80 then 1 else if c < 0x800 then 2 else if c < 0x1_0000 then 3 else 6)
        + ModifiedUtf8Length(s[1..])
  }

  /** `writeUTF` refuses a string longer than 65535 encoded bytes. */
  predicate Writable(s: string) { ModifiedUtf8Length(s) <= 0xFFFF }

  /** `writeObject`: name, format, uri, then a presence flag before each of
      the author and the icon. A string too long for `writeUTF` throws. */
  function WriteObject(e: AppEntry): (r: Result<seq<Record>>)
    ensures r.Ok? <==> Writable(e.name) && Writable(e.uri) && (e.author.Some? ==> Writable(e.author.value))
  {
    if !Writable(e.name) || !Writable(e.uri) || (e.author.Some? && !Writable(e.author.value)) then
      Err("UTFDataFormatException")
    else
      Ok([Utf(e.name), EnumObject(e.format), Utf(e.uri), Boolean(e.author.Some?)]
         + (if e.author.Some? then [Utf(e.author.value)] else [])
         + [Boolean(e.icon.Some?)]
         + (if e.icon.Some? then [Image(e.icon.value)] else []))
  }

  /** `readObject`, on an entry whose author and icon start out null: the
      records in the same order; a record of the wrong kind or a missing one
      throws. Gives the entry and the records after it. */
  function ReadObject(records: seq<Record>): (r: Result<(AppEntry, seq<Record>)>)
    ensures r.Ok? ==> |r.value.1| < |records|
  {
    if |records| < 4 || !records[0].Utf? || !records[1].EnumObject? || !records[2].Utf? then
      Err("StreamCorruptedException")
    else
      var (author, afterAuthor) :- ReadOptional(records[3..], (r: Record) => r.Utf?);
      var (icon, rest) :- ReadOptional(afterAuthor, (r: Record) => r.Image?);
      Ok((AppEntry(records[0].s, if author.Some? then Some(author.value.s) else None,
                   if icon.Some? then Some(icon.value.bytes) else None,
                   records[1].format, records[2].s), rest))
  }

  /** A presence flag, then the record it announces when it is set. */
  function ReadOptional(records: seq<Record>, kind: Record -> bool): (r: Result<(Option<Record>, seq<Record>)>)
    ensures r.Ok? ==> |r.value.1| < |records|
    ensures r.Ok? && r.value.0.Some? ==> kind(r.value.0.value)
  {
    if records == [] || !records[0].Boolean? then Err("StreamCorruptedException")
    else if !records[0].b then Ok((None, records[1..]))
    else if |records| > 1 && kind(records[1]) then Ok((Some(records[1]), records[2..]))
    else Err("StreamCorruptedException")
  }

  /** Reading back what was written gives the entry, whatever follows it in the stream. */
  lemma ReadWriteObject(e: AppEntry, rest: seq<Record>)
    requires WriteObject(e).Ok?
    ensures ReadObject(WriteObject(e).value + rest) == Ok((e, rest))
  {
    var written := WriteObject(e).value;
    var s := written + rest;
    var iconPart := [Boolean(e.icon.Some?)] + (if e.icon.Some? then [Image(e.icon.value)] else []);
    var authorPart := [Boolean(e.author.Some?)] + (if e.author.Some? then [Utf(e.author.value)] else []);
    assert s[3..] == authorPart + (iconPart + rest);
    assert ReadOptional(authorPart + (iconPart + rest), (r: Record) => r.Utf?)
      == Ok((if e.author.Some? then Some(Utf(e.author.value)) else None, iconPart + rest));
    assert ReadOptional(iconPart + rest, (r: Record) => r.Image?)
      == Ok((if e.icon.Some? then Some(Image(e.icon.value)) else None, rest));
  }
}
