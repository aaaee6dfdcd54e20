// Loading an NSP (app/src/main/cpp/skyline/loader/nsp.cpp): choosing the
// program and control NCAs among the partition's files, and finding the
// icon in the control RomFS.
//
// Parsing an NCA and listing a RomFS belong to classes that are not part of
// this model: each partition entry carries what constructing an NCA from it
// gives (an error when the constructor throws), and the control RomFS is
// given as its root directory's entries with their contents.

module Nsp {
  import opened Wrappers
  import opened Common

  datatype NcaContentType = Program | Control | OtherContent(raw: nat)

  /** What an NCA offers: its content type and, when present, its RomFS and
      ExeFS (identified by opaque numbers). */
  datatype Nca = Nca(contentType: NcaContentType, romFs: Option<nat>, exeFs: Option<nat>)

  /** A file of the NSP's root directory, with the result of opening it as an NCA. */
  datatype NspEntry = NspEntry(name: string, nca: Result<Nca>)

  /** A file of the control RomFS's root directory. */
  datatype RomEntry = RomEntry(name: string, data: seq<u8>)

  // ---------------------------------------------------------------------------
  // File names
  // ---------------------------------------------------------------------------

  /** `find_last_of`: the position of the last `c` in `s`, if any. */
  function LastIndexOf(s: string, c: char): (r: Option<nat>)
    ensures r.Some? ==> r.value < |s| && s[r.value] == c && forall j :: r.value < j < |s| ==> s[j] != c
    ensures r.None? ==> forall j :: 0 <= j < |s| ==> s[j] != c
  {
    if s == [] then None
    else if s[|s| - 1] == c then Some(|s| - 1)
    else LastIndexOf(s[..|s| - 1], c)
  }

  /** `name.substr(name.find_last_of(".") + 1)`: the text after the last dot;
      without a dot, `npos + 1` wraps to 0 and it is the whole name. */
  function Extension(name: string): string
  {
    match LastIndexOf(name, '.')
    case None => name
    case Some(i) => name[i + 1..]
  }

  /** Only files whose extension is "nca" are considered. */
  predicate IsNcaName(name: string) {
    Extension(name) == "nca"
  }

  /** A name qualifies exactly when it ends in ".nca" or is "nca" itself. */
  lemma IsNcaNameIffSuffix(name: string)
    ensures IsNcaName(name) <==> name == "nca" || (|name| >= 4 && name[|name| - 4..] == ".nca")
  {
    if |name| >= 4 && name[|name| - 4..] == ".nca" {
      DotNcaSuffix(name);
    }
    if IsNcaName(name) {
      NcaExtension(name);
    }
  }

  lemma DotNcaSuffix(name: string)
    requires |name| >= 4 && name[|name| - 4..] == ".nca"
    ensures IsNcaName(name)
  {
    var n := |name|;
    assert name[n - 4] == '.' && name[n - 3] != '.' && name[n - 2] != '.' && name[n - 1] != '.';
    var k := LastIndexOf(name, '.');
    assert k.Some? && k.value == n - 4;
    assert name[n - 3..] == "nca";
  }

  lemma NcaExtension(name: string)
    requires IsNcaName(name)
    ensures name == "nca" || (|name| >= 4 && name[|name| - 4..] == ".nca")
  {
    var k := LastIndexOf(name, '.');
    if k.Some? {
      var i := k.value;
      assert name[i + 1..] == "nca" && |name| == i + 4;
      assert name[|name| - 4..] == [name[i]] + name[i + 1..];
    }
  }

  // ---------------------------------------------------------------------------
  // Choosing the NCAs
  // ---------------------------------------------------------------------------

  datatype Role = ProgramRole | ControlRole

  /** A program NCA needs a RomFS and an ExeFS; a control NCA a RomFS. An
      entry that is not an NCA, or whose NCA fails to open, is never chosen. */
  predicate Qualifies(e: NspEntry, role: Role) {
    && IsNcaName(e.name)
    && e.nca.Ok?
    && match role
       case ProgramRole => e.nca.value.contentType == Program && e.nca.value.romFs.Some? && e.nca.value.exeFs.Some?
       case ControlRole => e.nca.value.contentType == Control && e.nca.value.romFs.Some?
  }

  /** The last element that satisfies `p`. */
  function LastWhere<T>(s: seq<T>, p: T -> bool): (r: Option<nat>)
    ensures r.Some? ==> r.value < |s| && p(s[r.value])
    ensures r.Some? ==> forall j :: r.value < j < |s| ==> !p(s[j])
    ensures r.None? ==> forall j :: 0 <= j < |s| ==> !p(s[j])
  {
    if s == [] then None
    else if p(s[|s| - 1]) then Some(|s| - 1)
    else
      var r := LastWhere(s[..|s| - 1], p);
      assert forall j :: 0 <= j < |s| - 1 ==> s[..|s| - 1][j] == s[j];
      r
  }

  /** The last entry that qualifies for a role: later matches overwrite earlier ones. */
  function LastMatch(entries: seq<NspEntry>, role: Role): (r: Option<nat>)
    ensures r.Some? ==> r.value < |entries| && Qualifies(entries[r.value], role)
    ensures r.Some? ==> forall j :: r.value < j < |entries| ==> !Qualifies(entries[j], role)
    ensures r.None? ==> forall j :: 0 <= j < |entries| ==> !Qualifies(entries[j], role)
  {
    LastWhere(entries, (e: NspEntry) => Qualifies(e, role))
  }

  /** The NCA chosen for a role, if any. */
  function Chosen(entries: seq<NspEntry>, role: Role): Option<Nca>
  {
    match LastMatch(entries, role)
    case None => None
    case Some(i) => Some(entries[i].nca.value)
  }

  /** No entry can be chosen for both roles. */
  lemma RolesAreDisjoint(e: NspEntry)
    ensures !(Qualifies(e, ProgramRole) && Qualifies(e, ControlRole))
  {
  }

  /** One more entry either replaces the choice for a role or leaves it. */
  lemma ChosenStep(entries: seq<NspEntry>, i: nat, role: Role)
    requires i < |entries|
    ensures Chosen(entries[..i + 1], role) ==
              if Qualifies(entries[i], role) then Some(entries[i].nca.value) else Chosen(entries[..i], role)
  {
    assert entries[..i + 1][..i] == entries[..i];
  }

  /** The loop over the root directory: each NCA entry that opens is kept as
      the program or the control NCA when it qualifies, replacing the one
      kept before; everything else is skipped. */
  method SelectNcas(entries: seq<NspEntry>) returns (programNca: Option<Nca>, controlNca: Option<Nca>)
    ensures programNca == Chosen(entries, ProgramRole)
    ensures controlNca == Chosen(entries, ControlRole)
  {
    programNca, controlNca := None, None;
    var i := 0;
    while i < |entries|
      invariant 0 <= i <= |entries|
      invariant programNca == Chosen(entries[..i], ProgramRole)
      invariant controlNca == Chosen(entries[..i], ControlRole)
    {
      var entry := entries[i];
      ChosenStep(entries, i, ProgramRole);
      ChosenStep(entries, i, ControlRole);
      if IsNcaName(entry.name) && entry.nca.Ok? {
        var nca := entry.nca.value;
        if nca.contentType == Program && nca.romFs.Some? && nca.exeFs.Some? {
          programNca := Some(nca);
        } else if nca.contentType == Control && nca.romFs.Some? {
          controlNca := Some(nca);
        }
      }
      i := i + 1;
    }
    assert entries[..i] == entries;
  }

  // ---------------------------------------------------------------------------
  // The icon
  // ---------------------------------------------------------------------------

  /** Whether `pattern` occurs in `s` at position j. */
  predicate OccursAt(s: string, pattern: string, j: nat) {
    j + |pattern| <= |s| && s[j..j + |pattern|] == pattern
  }

  /** `rfind`: the position of the last occurrence of `pattern` in `s`. */
  function RFind(s: string, pattern: string): (r: Option<nat>)
    ensures r.Some? ==> OccursAt(s, pattern, r.value)
    ensures r.Some? ==> forall j: nat :: r.value < j ==> !OccursAt(s, pattern, j)
    ensures r.None? ==> forall j: nat :: !OccursAt(s, pattern, j)
    decreases |s|
  {
    if |s| < |pattern| then None
    else if s[|s| - |pattern|..] == pattern then Some(|s| - |pattern|)
    else
      var r := RFind(s[..|s| - 1], pattern);
      assert s[|s| - |pattern|..|s|] == s[|s| - |pattern|..];
      OccursInInit(s, pattern);
      r
  }

  /** An occurrence in all but the last character is one that ends before it. */
  lemma OccursInInit(s: string, pattern: string)
    requires |s| > 0
    ensures forall j: nat :: OccursAt(s[..|s| - 1], pattern, j) <==> OccursAt(s, pattern, j) && j + |pattern| < |s|
  {
    forall j: nat
      ensures OccursAt(s[..|s| - 1], pattern, j) <==> OccursAt(s, pattern, j) && j + |pattern| < |s|
    {
      OccursInInitAt(s, pattern, j);
    }
  }

  lemma OccursInInitAt(s: string, pattern: string, j: nat)
    requires |s| > 0
    ensures OccursAt(s[..|s| - 1], pattern, j) <==> OccursAt(s, pattern, j) && j + |pattern| < |s|
  {
    var init := s[..|s| - 1];
    if j + |pattern| < |s| {
      assert init[j..j + |pattern|] == s[j..j + |pattern|];
    }
  }

  /** `entry.name.rfind("icon") == 0`: the name's last "icon" is at its start. */
  predicate IsIconName(name: string) {
    RFind(name, "icon") == Some(0)
  }

  /** So a name qualifies exactly when it starts with "icon" and "icon" does
      not occur again later in it. */
  lemma IsIconNameIff(name: string)
    ensures IsIconName(name) <==> OccursAt(name, "icon", 0) && forall j: nat :: 0 < j ==> !OccursAt(name, "icon", j)
  {
  }

  /** The first element that satisfies `p`. */
  function FirstWhere<T>(s: seq<T>, p: T -> bool): (r: Option<nat>)
    ensures r.Some? ==> r.value < |s| && p(s[r.value])
    ensures r.Some? ==> forall j :: 0 <= j < r.value ==> !p(s[j])
    ensures r.None? ==> forall j :: 0 <= j < |s| ==> !p(s[j])
  {
    if s == [] then None
    else if p(s[0]) then Some(0)
    else
      var rest := FirstWhere(s[1..], p);
      assert forall j :: 0 < j < |s| ==> s[j] == s[1..][j - 1];
      if rest.None? then None else Some(rest.value + 1)
  }

  /** The first icon entry of the control RomFS's root directory. */
  function FirstIcon(entries: seq<RomEntry>): (r: Option<nat>)
    ensures r.Some? ==> r.value < |entries| && IsIconName(entries[r.value].name)
    ensures r.Some? ==> forall j :: 0 <= j < r.value ==> !IsIconName(entries[j].name)
    ensures r.None? ==> forall j :: 0 <= j < |entries| ==> !IsIconName(entries[j].name)
  {
    FirstWhere(entries, (e: RomEntry) => IsIconName(e.name))
  }

  /** The search loop: the first element that satisfies `p`, if any. */
  method FindFirst<T>(s: seq<T>, p: T -> bool) returns (found: Option<nat>)
    ensures found == FirstWhere(s, p)
  {
    var i := 0;
    while i < |s|
      invariant 0 <= i <= |s|
      invariant forall j :: 0 <= j < i ==> !p(s[j])
    {
      if p(s[i]) {
        FirstWhereIs(s, p, i);
        return Some(i);
      }
      i := i + 1;
    }
    return None;
  }

  /** An element that satisfies `p` with none before it is the first. */
  lemma FirstWhereIs<T>(s: seq<T>, p: T -> bool, i: nat)
    requires i < |s| && p(s[i])
    requires forall j :: 0 <= j < i ==> !p(s[j])
    ensures FirstWhere(s, p) == Some(i)
  {
  }

  /** The icon's bytes: those of the first icon entry, or nothing. */
  function IconData(entries: seq<RomEntry>): seq<u8>
  {
    match FirstIcon(entries)
    case None => []
    case Some(i) => entries[i].data
  }

  /** An NSP loader with its chosen NCAs and the program's RomFS. */
  class NspLoader {
    const programNca: Nca
    const controlNca: Nca
    var romFs: Option<nat>

    /** The loader keeps the chosen NCAs and takes the program NCA's RomFS. */
    constructor (programNca: Nca, controlNca: Nca)
      ensures this.programNca == programNca && this.controlNca == controlNca && romFs == programNca.romFs
    {
      this.programNca := programNca;
      this.controlNca := controlNca;
      romFs := programNca.romFs;
    }

    /** `GetIcon`: nothing without a RomFS; otherwise the first entry of the
        control RomFS whose name starts with its only "icon" is read whole,
        and nothing is returned when there is none. */
    method GetIcon(controlEntries: seq<RomEntry>) returns (icon: seq<u8>)
      ensures icon == if romFs.None? then [] else IconData(controlEntries)
    {
      if romFs.None? {
        return [];
      }
      var found := FindFirst(controlEntries, (e: RomEntry) => IsIconName(e.name));
      if found.None? {
        return [];
      }
      icon := controlEntries[found.value].data;
    }
  }

  /** The constructor: the NCAs are chosen; unless both a program and a
      control NCA were found it throws "Incomplete NSP file". */
  method OpenNsp(entries: seq<NspEntry>) returns (r: Result<NspLoader>)
    ensures r.Ok? <==> Chosen(entries, ProgramRole).Some? && Chosen(entries, ControlRole).Some?
    ensures r.Ok? ==> fresh(r.value) && r.value.programNca == Chosen(entries, ProgramRole).value
                      && r.value.controlNca == Chosen(entries, ControlRole).value
                      && r.value.romFs.Some?
  {
    var programNca, controlNca := SelectNcas(entries);
    if programNca.None? || controlNca.None? {
      return Err("Incomplete NSP file");
    }
    var loader := new NspLoader(programNca.value, controlNca.value);
    r := Ok(loader);
  }
}
