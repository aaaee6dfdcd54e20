// The key store (app/src/main/cpp/skyline/crypto/key_store.cpp and
// key_store.h): the key-file line parser and the tables it fills.
//
// Opening the key files is not part of this model: each file's text is a
// parameter, `None` when the file does not exist.

module KeyStore {
  import opened Wrappers
  import opened Common

  /** The number of slots in each indexed key table. */
  const IndexedKeyCount: nat := 20

  /** The indexed 128-bit key tables. */
  datatype Keys128 = TitleKek | KeyAreaKeyApplication | KeyAreaKeyOcean | KeyAreaKeySystem

  /** The only recognised 256-bit key name. */
  const HeaderKeyName: string := "header_key"

  /** The name prefix of each indexed table. */
  function Prefix(k: Keys128): string {
    match k
    case TitleKek => "titlekek_"
    case KeyAreaKeyApplication => "key_area_key_application_"
    case KeyAreaKeyOcean => "key_area_key_ocean_"
    case KeyAreaKeySystem => "key_area_key_system_"
  }

  /** A name is an indexed key of table `k` when it is the prefix and two more characters. */
  predicate NameMatches(name: string, k: Keys128) {
    |name| == |Prefix(k)| + 2 && name[..|Prefix(k)|] == Prefix(k)
  }

  /** The prefixes have different lengths, so a name matches at most one table
      and the unspecified order the tables are tried in does not matter. */
  lemma AtMostOneTable(name: string, a: Keys128, b: Keys128)
    requires NameMatches(name, a) && NameMatches(name, b)
    ensures a == b
  {
  }

  /** The table a name belongs to, if any. */
  function MatchingTable(name: string): (r: Option<Keys128>)
    ensures r.Some? ==> NameMatches(name, r.value)
    ensures r.None? ==> forall k: Keys128 :: !NameMatches(name, k)
  {
    if NameMatches(name, TitleKek) then Some(TitleKek)
    else if NameMatches(name, KeyAreaKeyApplication) then Some(KeyAreaKeyApplication)
    else if NameMatches(name, KeyAreaKeyOcean) then Some(KeyAreaKeyOcean)
    else if NameMatches(name, KeyAreaKeySystem) then Some(KeyAreaKeySystem)
    else None
  }

  predicate IsSpace(c: char) {
    c == ' ' || c == '\t' || c == '\n' || c == '\r' || c == 11 as char || c == 12 as char
  }

  /** `std::stoul(suffix, nullptr, 16)` on a two-character suffix: leading
      white space and a sign are accepted, parsing stops at the first
      non-digit, a negative value wraps modulo 2^64, and no digit at all throws. */
  function ParseIndex(suffix: string): (r: Result<nat>)
    requires |suffix| == 2
    ensures r.Ok? <==> IsHexDigit(suffix[0]) || ((IsSpace(suffix[0]) || suffix[0] == '+' || suffix[0] == '-') && IsHexDigit(suffix[1]))
    ensures IsHexDigit(suffix[0]) && IsHexDigit(suffix[1]) ==>
              r == Ok(16 * HexDigitToByte(suffix[0]).value + HexDigitToByte(suffix[1]).value)
    ensures IsHexDigit(suffix[0]) && !IsHexDigit(suffix[1]) ==> r == Ok(HexDigitToByte(suffix[0]).value)
  {
    var c0, c1 := suffix[0], suffix[1];
    if IsHexDigit(c0) then
      Ok(if IsHexDigit(c1) then 16 * HexDigitToByte(c0).value + HexDigitToByte(c1).value else HexDigitToByte(c0).value)
    else if (IsSpace(c0) || c0 == '+') && IsHexDigit(c1) then Ok(HexDigitToByte(c1).value)
    else if c0 == '-' && IsHexDigit(c1) then Ok(Wrap64(0 - HexDigitToByte(c1).value as int))
    else Err("stoul: no conversion could be performed")
  }

  /** The contents of the store. */
  datatype Snapshot = Snapshot(headerKey: Option<seq<u8>>,
                               titleKek: seq<Option<seq<u8>>>, areaKeyApplication: seq<Option<seq<u8>>>,
                               areaKeyOcean: seq<Option<seq<u8>>>, areaKeySystem: seq<Option<seq<u8>>>,
                               titleKeys: map<seq<u8>, seq<u8>>)
  {
    function Table(k: Keys128): seq<Option<seq<u8>>> {
      match k
      case TitleKek => titleKek
      case KeyAreaKeyApplication => areaKeyApplication
      case KeyAreaKeyOcean => areaKeyOcean
      case KeyAreaKeySystem => areaKeySystem
    }

    function WithTable(k: Keys128, t: seq<Option<seq<u8>>>): (r: Snapshot)
      ensures r.Table(k) == t && forall j :: j != k ==> r.Table(j) == Table(j)
      ensures r.headerKey == headerKey && r.titleKeys == titleKeys
    {
      match k
      case TitleKek => this.(titleKek := t)
      case KeyAreaKeyApplication => this.(areaKeyApplication := t)
      case KeyAreaKeyOcean => this.(areaKeyOcean := t)
      case KeyAreaKeySystem => this.(areaKeySystem := t)
    }
  }

  /** Every table has its 20 slots, every key has its size. */
  ghost predicate WellFormed(s: Snapshot) {
    && (forall k: Keys128 :: |s.Table(k)| == IndexedKeyCount
          && forall i :: 0 <= i < IndexedKeyCount && s.Table(k)[i].Some? ==> |s.Table(k)[i].value| == 16)
    && (s.headerKey.Some? ==> |s.headerKey.value| == 32)
    && (forall t :: t in s.titleKeys ==> |t| == 16 && |s.titleKeys[t]| == 16)
  }

  /** A title-key line: both sides must be 32 hex digits; a title already in
      the map keeps its first key. */
  function TitleKeyUpdate(s: Snapshot, name: string, value: string): (r: Result<Snapshot>)
    ensures r.Ok? <==> HexStringToArray(16, name).Ok? && HexStringToArray(16, value).Ok?
    ensures r.Ok? ==> var t := HexStringToArray(16, name).value;
                      r.value == s.(titleKeys := if t in s.titleKeys then s.titleKeys
                                                 else s.titleKeys[t := HexStringToArray(16, value).value])
  {
    var t :- HexStringToArray(16, name);
    var v :- HexStringToArray(16, value);
    Ok(s.(titleKeys := if t in s.titleKeys then s.titleKeys else s.titleKeys[t := v]))
  }

  /** A key line: "header_key" takes a 64-digit value; a name of an indexed
      table stores a 32-digit value at the slot its suffix names (a slot
      past the table, which the source writes out of bounds, is an error
      here); any other name changes nothing. */
  function KeyUpdate(s: Snapshot, name: string, value: string): (r: Result<Snapshot>)
    requires WellFormed(s)
  {
    if name == HeaderKeyName then
      var key :- HexStringToArray(32, value);
      Ok(s.(headerKey := Some(key)))
    else
      match MatchingTable(name)
      case None => Ok(s)
      case Some(k) =>
        var index :- ParseIndex(name[|Prefix(k)|..]);
        var key :- HexStringToArray(16, value);
        if index >= IndexedKeyCount then Err("key index out of range")
        else Ok(s.WithTable(k, s.Table(k)[index := Some(key)]))
  }

  /** Which callback the lines of a file go to. */
  datatype KeyFile = TitleKeys | ProdKeys

  function Populate(s: Snapshot, file: KeyFile, name: string, value: string): Result<Snapshot>
    requires WellFormed(s)
  {
    match file
    case TitleKeys => TitleKeyUpdate(s, name, value)
    case ProdKeys => KeyUpdate(s, name, value)
  }

  /** Storing a 16-byte key in a slot of a table keeps the store well formed. */
  lemma SlotKeepsWellFormed(s: Snapshot, k: Keys128, index: nat, key: seq<u8>)
    requires WellFormed(s) && index < IndexedKeyCount && |key| == 16
    ensures WellFormed(s.WithTable(k, s.Table(k)[index := Some(key)]))
  {
    var t := s.Table(k)[index := Some(key)];
    var r := s.WithTable(k, t);
    forall j: Keys128
      ensures |r.Table(j)| == IndexedKeyCount
      ensures forall i :: 0 <= i < IndexedKeyCount && r.Table(j)[i].Some? ==> |r.Table(j)[i].value| == 16
    {
      if j == k {
        forall i | 0 <= i < IndexedKeyCount && t[i].Some? ensures |t[i].value| == 16 {
          if i != index { assert t[i] == s.Table(k)[i]; }
        }
      } else {
        assert r.Table(j) == s.Table(j);
      }
    }
  }

  /** Every update keeps the store well formed. */
  lemma PopulateKeepsWellFormed(s: Snapshot, file: KeyFile, name: string, value: string)
    requires WellFormed(s) && Populate(s, file, name, value).Ok?
    ensures WellFormed(Populate(s, file, name, value).value)
  {
    match file
    case TitleKeys => TitleKeyKeepsWellFormed(s, name, value);
    case ProdKeys => KeyUpdateKeepsWellFormed(s, name, value);
  }

  lemma TitleKeyKeepsWellFormed(s: Snapshot, name: string, value: string)
    requires WellFormed(s) && TitleKeyUpdate(s, name, value).Ok?
    ensures WellFormed(TitleKeyUpdate(s, name, value).value)
  {
    var r := TitleKeyUpdate(s, name, value).value;
    forall j: Keys128 ensures r.Table(j) == s.Table(j) {
    }
  }

  lemma KeyUpdateKeepsWellFormed(s: Snapshot, name: string, value: string)
    requires WellFormed(s) && KeyUpdate(s, name, value).Ok?
    ensures WellFormed(KeyUpdate(s, name, value).value)
  {
    var r := KeyUpdate(s, name, value).value;
    if name == HeaderKeyName {
      forall j: Keys128 ensures r.Table(j) == s.Table(j) {
      }
    } else if MatchingTable(name).Some? {
      var k := MatchingTable(name).value;
      SlotKeepsWellFormed(s, k, ParseIndex(name[|Prefix(k)|..]).value, HexStringToArray(16, value).value);
    }
  }

  /** A name of no table, other than "header_key", changes nothing. */
  lemma UnrecognisedNameIgnored(s: Snapshot, name: string, value: string)
    requires WellFormed(s) && name != HeaderKeyName && forall k: Keys128 :: !NameMatches(name, k)
    ensures KeyUpdate(s, name, value) == Ok(s)
  {
  }

  /** An indexed name is never "header_key", and its table is the one it matches. */
  lemma IndexedNameTable(name: string, k: Keys128)
    requires NameMatches(name, k)
    ensures name != HeaderKeyName && MatchingTable(name) == Some(k)
  {
    assert |name| > |HeaderKeyName|;
    if MatchingTable(name).Some? { AtMostOneTable(name, k, MatchingTable(name).value); }
  }

  /** An indexed key line stores the key at the slot its suffix names and
      nowhere else; a slot past the table is refused. */
  lemma IndexedKeyStored(s: Snapshot, k: Keys128, name: string, value: string)
    requires WellFormed(s) && NameMatches(name, k)
    requires ParseIndex(name[|Prefix(k)|..]).Ok? && HexStringToArray(16, value).Ok?
    ensures var index := ParseIndex(name[|Prefix(k)|..]).value;
            var r := KeyUpdate(s, name, value);
            && (r.Ok? <==> index < IndexedKeyCount)
            && (r.Ok? ==> r.value.Table(k) == s.Table(k)[index := Some(HexStringToArray(16, value).value)])
            && (r.Ok? ==> forall j :: j != k ==> r.value.Table(j) == s.Table(j))
  {
    IndexedNameTable(name, k);
  }

  /** `GetTitleKey`: the stored key of a title, or nothing when it is absent. */
  function GetTitleKey(s: Snapshot, title: seq<u8>): (r: Option<seq<u8>>)
    ensures r.None? <==> title !in s.titleKeys
    ensures r.Some? ==> r.value == s.titleKeys[title]
  {
    if title in s.titleKeys then Some(s.titleKeys[title]) else None
  }

  /** The first title key read for a title is the one returned, whatever follows. */
  lemma FirstTitleKeyKept(s: Snapshot, name: string, value: string, later: string)
    requires HexStringToArray(16, name).Ok? && HexStringToArray(16, value).Ok? && HexStringToArray(16, later).Ok?
    requires HexStringToArray(16, name).value !in s.titleKeys
    ensures var s1 := TitleKeyUpdate(s, name, value).value;
            var s2 := TitleKeyUpdate(s1, name, later).value;
            GetTitleKey(s2, HexStringToArray(16, name).value) == Some(HexStringToArray(16, value).value)
  {
  }

  // ---------------------------------------------------------------------------
  // Line splitting
  // ---------------------------------------------------------------------------

  /** The index of the first `c` in `s`, or |s|. */
  function IndexOf(s: string, c: char): (r: nat)
    ensures r <= |s| && c !in s[..r] && (r < |s| ==> s[r] == c)
  {
    if s == [] then 0
    else if s[0] == c then 0
    else
      var k := IndexOf(s[1..], c);
      assert s[..1 + k] == [s[0]] + s[1..][..k];
      1 + k
  }

  /** The newline-terminated lines of a text, without their newlines; text
      after the last newline is not a line. */
  function Lines(s: string): (r: seq<string>)
    ensures forall i :: 0 <= i < |r| ==> '\n' !in r[i]
    decreases |s|
  {
    var e := IndexOf(s, '\n');
    if e == |s| then [] else [s[..e]] + Lines(s[e + 1..])
  }

  /** The text after the last newline. */
  function Trailing(s: string): (r: string)
    ensures '\n' !in r
    decreases |s|
  {
    var e := IndexOf(s, '\n');
    if e == |s| then s else Trailing(s[e + 1..])
  }

  function JoinLines(lines: seq<string>): string {
    if lines == [] then "" else lines[0] + "\n" + JoinLines(lines[1..])
  }

  /** The lines with their newlines, then the trailing text, make up the text. */
  lemma {:induction false} LinesCoverText(s: string)
    ensures JoinLines(Lines(s)) + Trailing(s) == s
    decreases |s|
  {
    var e := IndexOf(s, '\n');
    if e < |s| {
      var line, rest := s[..e], s[e + 1..];
      LinesCoverText(rest);
      var lines, trailing := Lines(rest), Trailing(rest);
      assert Lines(s) == [line] + lines && Trailing(s) == trailing;
      JoinLinesCons(line, lines);
      JoinRest(s, e, JoinLines(lines), trailing);
    }
  }

  lemma JoinLinesCons(line: string, lines: seq<string>)
    ensures JoinLines([line] + lines) == line + "\n" + JoinLines(lines)
  {
    assert ([line] + lines)[1..] == lines;
  }

  /** Cutting a text at a newline and gluing the two sides back with it. */
  lemma JoinRest(s: string, e: nat, joined: string, trailing: string)
    requires e < |s| && s[e] == '\n' && joined + trailing == s[e + 1..]
    ensures s[..e] + "\n" + joined + trailing == s
  {
    assert s[..e] + "\n" + joined + trailing == s[..e] + "\n" + (joined + trailing);
    assert s == s[..e] + "\n" + s[e + 1..];
  }

  /** A line splits at its first '='; a line without one is invalid. The
      value keeps any later '='. */
  function SplitLine(line: string): (r: Result<(string, string)>)
    ensures r.Ok? <==> '=' in line
    ensures r.Ok? ==> line == r.value.0 + "=" + r.value.1 && '=' !in r.value.0
  {
    var e := IndexOf(line, '=');
    if e == |line| then
      assert line[..e] == line;
      Err("Invalid key file")
    else
      assert line == line[..e] + "=" + line[e + 1..];
      Ok((line[..e], line[e + 1..]))
  }

  /** One line: split at its first '=' and handed to the file's callback;
      a failure leaves the store as it was. */
  function LineStep(s: Snapshot, file: KeyFile, line: string): (r: (Snapshot, Result<()>))
    requires WellFormed(s)
    ensures WellFormed(r.0)
    ensures r.1.Err? ==> r.0 == s
    ensures r.1.Ok? <==> SplitLine(line).Ok? && Populate(s, file, SplitLine(line).value.0, SplitLine(line).value.1).Ok?
  {
    match SplitLine(line)
    case Err(m) => (s, Err(m))
    case Ok(pair) =>
      match Populate(s, file, pair.0, pair.1)
      case Err(m) => (s, Err(m))
      case Ok(s1) =>
        PopulateKeepsWellFormed(s, file, pair.0, pair.1);
        (s1, Ok(()))
  }

  /** The lines in order, stopping at the first one that fails; the store
      keeps every update made before it. */
  function RunLines(s: Snapshot, file: KeyFile, lines: seq<string>): (r: (Snapshot, Result<()>))
    requires WellFormed(s)
    ensures WellFormed(r.0)
    decreases |lines|
  {
    if lines == [] then (s, Ok(()))
    else
      var step := LineStep(s, file, lines[0]);
      if step.1.Err? then step else RunLines(step.0, file, lines[1..])
  }

  /** The text splits into its first line and the lines after it. */
  lemma LinesStep(rest: string)
    ensures IndexOf(rest, '\n') < |rest| ==>
              Lines(rest) == [rest[..IndexOf(rest, '\n')]] + Lines(rest[IndexOf(rest, '\n') + 1..])
    ensures IndexOf(rest, '\n') == |rest| ==> Lines(rest) == []
  {
  }

  /** Running lines is running the first, then, unless it failed, the rest. */
  lemma RunLinesCons(s: Snapshot, file: KeyFile, line: string, lines: seq<string>)
    requires WellFormed(s)
    ensures var step := LineStep(s, file, line);
            RunLines(s, file, [line] + lines) == if step.1.Err? then step else RunLines(step.0, file, lines)
  {
    assert ([line] + lines)[0] == line && ([line] + lines)[1..] == lines;
  }

  /** Running two blocks of lines is running the first, then, unless it
      failed, the second from where the first left the store. */
  lemma {:induction false} RunLinesAppend(s: Snapshot, file: KeyFile, a: seq<string>, b: seq<string>)
    requires WellFormed(s)
    ensures var first := RunLines(s, file, a);
            RunLines(s, file, a + b) == if first.1.Err? then first else RunLines(first.0, file, b)
    decreases |a|
  {
    if a == [] {
      assert a + b == b;
    } else {
      assert (a + b)[0] == a[0] && (a + b)[1..] == a[1..] + b;
      var step := LineStep(s, file, a[0]);
      if step.1.Ok? {
        RunLinesAppend(step.0, file, a[1..], b);
      }
    }
  }

  /** Loading both files: the title keys first, then, unless they failed,
      the product keys; a missing file is skipped. */
  function LoadFiles(s: Snapshot, titleKeysFile: Option<string>, prodKeysFile: Option<string>): (r: (Snapshot, Result<()>))
    requires WellFormed(s)
    ensures WellFormed(r.0)
    ensures titleKeysFile.None? && prodKeysFile.None? ==> r == (s, Ok(()))
  {
    var first := if titleKeysFile.Some? then RunLines(s, TitleKeys, Lines(titleKeysFile.value)) else (s, Ok(()));
    if first.1.Err? || prodKeysFile.None? then first
    else RunLines(first.0, ProdKeys, Lines(prodKeysFile.value))
  }

  /** The store's state as a value. */
  class KeyStore {
    var headerKey: Option<seq<u8>>
    var titleKek: seq<Option<seq<u8>>>
    var areaKeyApplication: seq<Option<seq<u8>>>
    var areaKeyOcean: seq<Option<seq<u8>>>
    var areaKeySystem: seq<Option<seq<u8>>>
    var titleKeys: map<seq<u8>, seq<u8>>

    function State(): Snapshot
      reads this
    {
      Snapshot(headerKey, titleKek, areaKeyApplication, areaKeyOcean, areaKeySystem, titleKeys)
    }

    method SetState(s: Snapshot)
      modifies this
      ensures State() == s
    {
      headerKey, titleKek, areaKeyApplication, areaKeyOcean, areaKeySystem, titleKeys :=
        s.headerKey, s.titleKek, s.areaKeyApplication, s.areaKeyOcean, s.areaKeySystem, s.titleKeys;
    }

    /** An empty store: no header key, 20 empty slots per table, no title keys. */
    constructor ()
      ensures WellFormed(State())
      ensures headerKey.None? && titleKeys == map[]
      ensures forall k: Keys128 :: State().Table(k) == seq(IndexedKeyCount, _ => None)
    {
      headerKey := None;
      titleKek := seq(IndexedKeyCount, _ => None);
      areaKeyApplication := seq(IndexedKeyCount, _ => None);
      areaKeyOcean := seq(IndexedKeyCount, _ => None);
      areaKeySystem := seq(IndexedKeyCount, _ => None);
      titleKeys := map[];
    }

    method PopulateTitleKeys(name: string, value: string) returns (r: Result<()>)
      modifies this
      ensures var u := TitleKeyUpdate(old(State()), name, value);
              && r == (if u.Ok? then Ok(()) else Err(u.message))
              && State() == if u.Ok? then u.value else old(State())
    {
      var key :- HexStringToArray(16, name);
      var valueArray :- HexStringToArray(16, value);
      if key !in titleKeys {
        titleKeys := titleKeys[key := valueArray];
      }
      r := Ok(());
    }

    method PopulateKeys(name: string, value: string) returns (r: Result<()>)
      requires WellFormed(State())
      modifies this
      ensures var u := KeyUpdate(old(State()), name, value);
              && r == (if u.Ok? then Ok(()) else Err(u.message))
              && State() == if u.Ok? then u.value else old(State())
    {
      if name == HeaderKeyName {
        var key :- HexStringToArray(32, value);
        headerKey := Some(key);
        return Ok(());
      }
      var table := MatchingTable(name);
      if table.None? {
        return Ok(());
      }
      var k := table.value;
      var index :- ParseIndex(name[|Prefix(k)|..]);
      var key :- HexStringToArray(16, value);
      if index >= IndexedKeyCount {
        return Err("key index out of range");
      }
      var s := State();
      SetState(s.WithTable(k, s.Table(k)[index := Some(key)]));
      r := Ok(());
    }

    /** `std::find`. */
    static method Find(s: string, c: char) returns (i: nat)
      ensures i == IndexOf(s, c)
    {
      i := 0;
      while i < |s| && s[i] != c
        invariant i <= |s| && c !in s[..i]
      {
        assert s[..i + 1] == s[..i] + [s[i]];
        i := i + 1;
      }
      IndexOfUnique(s, c, i);
    }

    /** One line of a key file. */
    method ProcessLine(line: string, file: KeyFile) returns (r: Result<()>)
      requires WellFormed(State())
      modifies this
      ensures (State(), r) == LineStep(old(State()), file, line)
    {
      var keyEnd := Find(line, '=');
      if keyEnd == |line| {
        return Err("Invalid key file");
      }
      assert SplitLine(line) == Ok((line[..keyEnd], line[keyEnd + 1..]));
      if file.TitleKeys? {
        r := PopulateTitleKeys(line[..keyEnd], line[keyEnd + 1..]);
      } else {
        r := PopulateKeys(line[..keyEnd], line[keyEnd + 1..]);
      }
      if r.Err? {
        return Err(r.message);
      }
    }

    /** Walks the newline-terminated lines of `content`, splitting each at
        its first '=' and handing the two halves to the file's callback. */
    method ReadPairs(content: string, file: KeyFile) returns (r: Result<()>)
      requires WellFormed(State())
      modifies this
      ensures (State(), r) == RunLines(old(State()), file, Lines(content))
    {
      var rest := content;
      while true
        invariant WellFormed(State())
        invariant RunLines(old(State()), file, Lines(content)) == RunLines(State(), file, Lines(rest))
        decreases |rest|
      {
        var lineEnd := Find(rest, '\n');
        LinesStep(rest);
        if lineEnd == |rest| {
          return Ok(());
        }
        ghost var before := State();
        r := ProcessLine(rest[..lineEnd], file);
        RunLinesCons(before, file, rest[..lineEnd], Lines(rest[lineEnd + 1..]));
        if r.Err? {
          return;
        }
        rest := rest[lineEnd + 1..];
      }
    }

    /** The constructor's loading: title keys first, then the product keys,
        each only when its file exists. */
    method Load(titleKeysFile: Option<string>, prodKeysFile: Option<string>) returns (r: Result<()>)
      requires WellFormed(State())
      modifies this
      ensures (State(), r) == LoadFiles(old(State()), titleKeysFile, prodKeysFile)
    {
      ghost var s0 := State();
      r := Ok(());
      if titleKeysFile.Some? {
        r := ReadPairs(titleKeysFile.value, TitleKeys);
      }
      assert (State(), r) == if titleKeysFile.Some? then RunLines(s0, TitleKeys, Lines(titleKeysFile.value)) else (s0, Ok(()));
      if r.Err? || prodKeysFile.None? {
        return;
      }
      r := ReadPairs(prodKeysFile.value, ProdKeys);
    }
  }

  lemma IndexOfUnique(s: string, c: char, i: nat)
    requires i <= |s| && c !in s[..i] && (i < |s| ==> s[i] == c)
    ensures i == IndexOf(s, c)
  {
  }
}
