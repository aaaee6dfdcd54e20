// The emulator's host paths (app/src/main/cpp/skyline/filesystem/vfs.cpp and
// constants.h): the root under the app's data directory, the rewriting of
// the console's mount-point literals, the directory a path names, and the
// conversion of a "mount:file" path into a host path.
//
// The host file system is a map from paths to what is there. `stat` looks a
// path up; `mkdir` adds a directory where nothing is. Parent directories
// and permissions are not modelled.

module VfsPaths {
  import opened Wrappers

  const DataDirectory: string := "/data/data/skyline.emu/"
  const BasePath: string := "vfs"
  const Nand: string := "sky-nand"
  const SdCard: string := "sky-sdcard"
  const System: string := "sky-system"
  const SystemNand: string := "sky-nand/system"
  const UserNand: string := "sky-nand/user"

  const SdLiteral: string := "@Sdcard"
  const UserLiteral: string := "@User"
  const SystemLiteral: string := "@System"
  const SdContentLiteral: string := "@SdCardContent"
  const UserContentLiteral: string := "@UserContent"
  const SystemContentLiteral: string := "@SystemContent"

  /** The root every host path starts with. */
  const Root: string := DataDirectory + BasePath + "/"

  /** `GetFullPath`: the root, the base path, a slash and the file name. */
  function GetFullPath(basePath: string, filename: string): (r: string)
    ensures |r| == |Root| + |basePath| + 1 + |filename|
    ensures r[..|Root|] == Root && r[|Root|..|Root| + |basePath|] == basePath
    ensures r[|Root| + |basePath|] == '/' && r[|Root| + |basePath| + 1..] == filename
  {
    var r := DataDirectory + BasePath + "/" + basePath + "/" + filename;
    assert r == Root + basePath + "/" + filename;
    r
  }

  /** The base path and the file name can be read back from a full path
      when the file name has no slash. */
  lemma GetFullPathSplits(basePath: string, filename: string, other: string, otherFile: string)
    requires '/' !in filename && '/' !in otherFile
    requires GetFullPath(basePath, filename) == GetFullPath(other, otherFile)
    ensures basePath == other && filename == otherFile
  {
  }

  /** The mount-point literals and what they stand for; any other path
      stands for itself. */
  function Rewrite(path: string): (r: string)
    ensures path == "@SdCard" || path == SdLiteral ==> r == SdCard
    ensures path == UserLiteral ==> r == UserNand
    ensures path == SystemLiteral ==> r == SystemNand
    ensures path == SdContentLiteral ==> r == SdCard + "/Nintendo/Contents"
    ensures path == UserContentLiteral ==> r == UserNand + "/Contents"
    ensures path == SystemContentLiteral ==> r == SystemNand + "/Contents"
    ensures !IsLiteral(path) ==> r == path
  {
    if path == "@SdCard" || path == SdLiteral then SdCard
    else if path == UserLiteral then UserNand
    else if path == SystemLiteral then SystemNand
    else if path == SdContentLiteral then SdCard + "/Nintendo/Contents"
    else if path == UserContentLiteral then UserNand + "/Contents"
    else if path == SystemContentLiteral then SystemNand + "/Contents"
    else path
  }

  predicate IsLiteral(path: string) {
    path in {"@SdCard", SdLiteral, UserLiteral, SystemLiteral, SdContentLiteral, UserContentLiteral, SystemContentLiteral}
  }

  /** No rewritten path is itself a literal, so rewriting twice changes nothing. */
  lemma RewriteIsIdempotent(path: string)
    ensures !IsLiteral(Rewrite(path))
    ensures Rewrite(Rewrite(path)) == Rewrite(path)
  {
    if IsLiteral(path) {
      assert Rewrite(path)[0] != '@';
    } else if |path| > 0 && path[0] == '@' {
      assert Rewrite(path) == path;
    }
  }

  /** The directory a path names: the rewritten path under the root, with a trailing slash. */
  function FullPathOf(path: string): (r: string)
    ensures r == GetFullPath(Rewrite(path), "")
    ensures r[..|Root|] == Root && |r| > 0 && r[|r| - 1] == '/'
  {
    GetFullPath(Rewrite(path), "")
  }

  // ---------------------------------------------------------------------------
  // Splitting on ':'
  // ---------------------------------------------------------------------------

  /** The pieces between the colons of a string: one more than there are colons. */
  function Split(s: string): (r: seq<string>)
    ensures |r| > 0
    ensures forall i :: 0 <= i < |r| ==> ':' !in r[i]
    decreases |s|
  {
    if s == [] then [[]]
    else
      var init := Split(s[..|s| - 1]);
      if s[|s| - 1] == ':' then init + [[]]
      else init[..|init| - 1] + [init[|init| - 1] + [s[|s| - 1]]]
  }

  /** The pieces joined with ':' between them. */
  function Join(pieces: seq<string>): string
    requires |pieces| > 0
    decreases |pieces|
  {
    if |pieces| == 1 then pieces[0] else Join(pieces[..|pieces| - 1]) + [':'] + pieces[|pieces| - 1]
  }

  /** Splitting loses nothing: joining the pieces gives the string back. */
  lemma {:induction false} JoinSplit(s: string)
    ensures Join(Split(s)) == s
    decreases |s|
  {
    if s != [] {
      var init := Split(s[..|s| - 1]);
      JoinSplit(s[..|s| - 1]);
      var r := Split(s);
      if s[|s| - 1] != ':' {
        if |init| == 1 {
        } else {
          assert r[..|r| - 1] == init[..|init| - 1];
        }
      } else {
        assert r[..|r| - 1] == init;
      }
    }
  }

  /** What the `getline(stream, token, ':')` loop collects: the pieces, but a
      last piece that is empty (a trailing colon, or an empty string) is not
      read. */
  function Tokens(s: string): (r: seq<string>)
    ensures forall i :: 0 <= i < |r| ==> ':' !in r[i]
  {
    var pieces := Split(s);
    if pieces[|pieces| - 1] == [] then pieces[..|pieces| - 1] else pieces
  }

  /** The tokenising loop reads one character at a time: a colon ends the
      token, anything else extends it; a last token is kept if not empty. */
  method Tokenize(s: string) returns (tokens: seq<string>)
    ensures tokens == Tokens(s)
  {
    tokens := [];
    var token: string := [];
    var i := 0;
    while i < |s|
      invariant 0 <= i <= |s|
      invariant Split(s[..i]) == tokens + [token]
    {
      assert s[..i + 1][..i] == s[..i];
      if s[i] == ':' {
        tokens := tokens + [token];
        token := [];
      } else {
        token := token + [s[i]];
      }
      i := i + 1;
    }
    assert s[..i] == s;
    if token != [] {
      tokens := tokens + [token];
    }
  }

  /** A path with exactly one colon and text after it has exactly two tokens. */
  lemma TwoTokens(mount: string, file: string)
    requires ':' !in mount && ':' !in file && file != []
    ensures Tokens(mount + [':'] + file) == [mount, file]
  {
    var s := mount + [':'] + file;
    JoinSplit(s);
    SplitNoColon(mount);
    SplitNoColon(file);
    SplitAppend(mount, file);
  }

  /** A string without colons is a single piece. */
  lemma {:induction false} SplitNoColon(s: string)
    requires ':' !in s
    ensures Split(s) == [s]
    decreases |s|
  {
    if s != [] {
      SplitNoColon(s[..|s| - 1]);
      assert s[..|s| - 1] + [s[|s| - 1]] == s;
    }
  }

  /** Splitting `a:b` with b free of colons: the pieces of a, then b. */
  lemma {:induction false} SplitAppend(a: string, b: string)
    requires ':' !in b
    ensures Split(a + [':'] + b) == Split(a) + [b]
    decreases |b|
  {
    if b == [] {
      assert (a + [':'] + b)[..|a + [':'] + b| - 1] == a;
    } else {
      var s := a + [':'] + b;
      var c := b[|b| - 1];
      assert s[..|s| - 1] == a + [':'] + b[..|b| - 1];
      SplitAppend(a, b[..|b| - 1]);
      assert b[..|b| - 1] + [c] == b;
    }
  }

  // ---------------------------------------------------------------------------
  // Switch paths to host paths
  // ---------------------------------------------------------------------------

  /** `SwitchPathToSystemPath` as written: for two tokens, the directory of
      the first, made full, is passed to GetFullPath again, which puts the
      root in front a second time; otherwise a null pointer is turned into a
      string, which fails. */
  function SwitchPathAsWritten(switchPath: string): (r: Result<string>)
    ensures r.Ok? <==> |Tokens(switchPath)| == 2
  {
    var tokens := Tokens(switchPath);
    if |tokens| == 2 then Ok(GetFullPath(FullPathOf(tokens[0]), tokens[1])) else Err("null string")
  }

  /** The conversion as intended: the first token's directory with the second token appended. */
  function SwitchPath(switchPath: string): (r: Result<string>)
    ensures r.Ok? <==> |Tokens(switchPath)| == 2
    ensures r.Ok? ==> r.value == GetFullPath(Rewrite(Tokens(switchPath)[0]), Tokens(switchPath)[1])
  {
    var tokens := Tokens(switchPath);
    if |tokens| == 2 then
      var r := FullPathOf(tokens[0]) + tokens[1];
      assert r == GetFullPath(Rewrite(tokens[0]), tokens[1]);
      Ok(r)
    else Err("null string")
  }

  /** As written, the root appears twice, and the result is never the host
      path of the file: that one starts with the root once. */
  lemma SwitchPathAsWrittenDoublesRoot(mount: string, file: string)
    requires ':' !in mount && ':' !in file && file != [] && '/' !in file
    ensures var w := SwitchPathAsWritten(mount + [':'] + file);
            && w.Ok? && |w.value| >= 2 * |Root|
            && w.value[..|Root|] == Root && w.value[|Root|..2 * |Root|] == Root
    ensures SwitchPath(mount + [':'] + file) == Ok(GetFullPath(Rewrite(mount), file))
    ensures SwitchPathAsWritten(mount + [':'] + file) != SwitchPath(mount + [':'] + file)
  {
    TwoTokens(mount, file);
    var full := FullPathOf(mount);
    assert SwitchPathAsWritten(mount + [':'] + file) == Ok(GetFullPath(full, file));
    RootTwice(full, file);
    FullPathIsNotHostPath(mount, file);
  }

  /** A full path given as the base path keeps its own root after GetFullPath's. */
  lemma RootTwice(full: string, file: string)
    requires |full| >= |Root| && full[..|Root|] == Root
    ensures var w := GetFullPath(full, file);
            |w| >= 2 * |Root| && w[..|Root|] == Root && w[|Root|..2 * |Root|] == Root
  {
    var w := GetFullPath(full, file);
    assert w[|Root|..|Root| + |full|] == full;
    assert w[|Root|..2 * |Root|] == full[..|Root|];
  }

  /** The file under the full path of a mount point is not the file under its directory. */
  lemma FullPathIsNotHostPath(mount: string, file: string)
    requires '/' !in file
    ensures GetFullPath(FullPathOf(mount), file) != GetFullPath(Rewrite(mount), file)
  {
    if GetFullPath(FullPathOf(mount), file) == GetFullPath(Rewrite(mount), file) {
      GetFullPathSplits(FullPathOf(mount), file, Rewrite(mount), file);
    }
  }

  // ---------------------------------------------------------------------------
  // The host file system
  // ---------------------------------------------------------------------------

  datatype NodeKind = File | Directory

  class Vfs {
    var nodes: map<string, NodeKind>

    constructor (nodes: map<string, NodeKind>)
      ensures this.nodes == nodes
    {
      this.nodes := nodes;
    }

    /** `mkdir`: creates a directory where nothing is; fails otherwise. */
    method Mkdir(path: string) returns (ok: bool)
      modifies this
      ensures ok <==> path !in old(nodes)
      ensures nodes == if ok then old(nodes)[path := Directory] else old(nodes)
    {
      if path in nodes {
        return false;
      }
      nodes := nodes[path := Directory];
      ok := true;
    }

    /** `MakeFullPath` as written: the directory is created only when `stat`
        finds something there that is not a directory, where `mkdir` fails;
        a missing directory is never created. */
    method MakeFullPathAsWritten(path: string, isDir: bool) returns (r: string)
      modifies this
      ensures r == FullPathOf(path)
      ensures nodes == old(nodes)
    {
      var rewritten := Rewrite(path);
      r := GetFullPath(rewritten, "");
      if isDir && r in nodes && nodes[r] != Directory {
        var _ := Mkdir(r);
      }
    }

    /** `MakeFullPath` as intended: when a directory is asked for and
        nothing is at the path, it is created. */
    method MakeFullPath(path: string, isDir: bool) returns (r: string)
      modifies this
      ensures r == FullPathOf(path)
      ensures nodes == if isDir && r !in old(nodes) then old(nodes)[r := Directory] else old(nodes)
    {
      var rewritten := Rewrite(path);
      r := GetFullPath(rewritten, "");
      if isDir && r !in nodes {
        var _ := Mkdir(r);
      }
    }

    /** `SwitchPathToSystemPath` with the intended path and directory
        creation: the mount's directory is made, and the file is named in it. */
    method SwitchPathToSystemPath(switchPath: string) returns (r: Result<string>)
      modifies this
      ensures r == SwitchPath(switchPath)
      ensures var tokens := Tokens(switchPath);
              nodes == if |tokens| == 2 && FullPathOf(tokens[0]) !in old(nodes)
                       then old(nodes)[FullPathOf(tokens[0]) := Directory] else old(nodes)
    {
      var tokens := Tokenize(switchPath);
      if |tokens| != 2 {
        return Err("null string");
      }
      var directory := MakeFullPath(tokens[0], true);
      r := Ok(directory + tokens[1]);
    }
  }
}
