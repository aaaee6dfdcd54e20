// The application functions of the applet manager
// (app/src/main/cpp/skyline/services/am/controller/IApplicationFunctions.cpp):
// the launch parameter storage handed to a starting application, and the
// fixed replies of the other commands.
//
// A reply is the bytes pushed to the response's data; the values are
// written in the host's (little-endian) byte order.

module AppletFunctions {
  import opened Wrappers
  import opened Common
  import opened AppletStorage

  /** An account's user ID, stored upper half first. */
  datatype UserId = UserId(upper: u64, lower: u64)

  /** The user every application runs as. */
  const DefaultUserId: UserId := UserId(1, 0)

  /** The 16 bytes of a user ID as the struct lays them out. */
  function UserIdBytes(u: UserId): (r: seq<u8>)
    ensures |r| == 16
  {
    LeBytes(u.upper, 8) + LeBytes(u.lower, 8)
  }

  /** Marks the storage as holding application launch parameters. */
  const LaunchParameterMagic: u32 := 0xc79497ca

  /** The size of the launch parameter storage. */
  const LaunchParameterSize: nat := 0x88

  /** The content of the launch parameter storage: the magic, the kind 1
      and the default user, then zeros to the end. */
  function LaunchParameter(): (r: seq<u8>)
    ensures |r| == LaunchParameterSize
  {
    var head := LeBytes(LaunchParameterMagic, 4) + LeBytes(1, 4) + UserIdBytes(DefaultUserId);
    head + seq(LaunchParameterSize - |head|, _ => 0)
  }

  /** Reading the launch parameter field by field gives back the magic, the
      kind, the user's two halves, and zeros after them. */
  lemma LaunchParameterLayout()
    ensures LittleEndian(LaunchParameter()[0..4]) == LaunchParameterMagic
    ensures LittleEndian(LaunchParameter()[4..8]) == 1
    ensures LittleEndian(LaunchParameter()[8..16]) == DefaultUserId.upper
    ensures LittleEndian(LaunchParameter()[16..24]) == DefaultUserId.lower
    ensures forall i :: 24 <= i < LaunchParameterSize ==> LaunchParameter()[i] == 0
  {
    Pow2Value32();
    Pow2Value64();
    LeBytesRoundTrip(LaunchParameterMagic, 4);
    LeBytesRoundTrip(1, 4);
    LeBytesRoundTrip(DefaultUserId.upper, 8);
    LeBytesRoundTrip(DefaultUserId.lower, 8);
    Fields(LeBytes(LaunchParameterMagic, 4), LeBytes(1, 4), LeBytes(DefaultUserId.upper, 8),
           LeBytes(DefaultUserId.lower, 8), LaunchParameter());
  }

  /** The four fields of a record laid out back to back, then zeros. */
  lemma Fields(a: seq<u8>, b: seq<u8>, u: seq<u8>, l: seq<u8>, p: seq<u8>)
    requires |a| == 4 && |b| == 4 && |u| == 8 && |l| == 8
    requires |p| >= 24 && p == a + b + (u + l) + seq(|p| - 24, _ => 0)
    ensures p[0..4] == a && p[4..8] == b && p[8..16] == u && p[16..24] == l
    ensures forall i :: 24 <= i < |p| ==> p[i] == 0
  {
  }

  /** `PopLaunchParameter`: a new storage of the launch parameter size,
      filled by three pushes (the magic, the kind, the default user), all of
      which fit. */
  method PopLaunchParameter() returns (storage: Storage)
    ensures fresh(storage) && storage.Valid()
    ensures storage.content == LaunchParameter()
    ensures storage.offset == 24
  {
    storage := new Storage(LaunchParameterSize);
    var zeros := storage.content;
    var r1 := storage.Push(LeBytes(LaunchParameterMagic, 4));
    var r2 := storage.Push(LeBytes(1, 4));
    var r3 := storage.Push(UserIdBytes(DefaultUserId));
    PushesConcatenate(zeros, 0, LeBytes(LaunchParameterMagic, 4), LeBytes(1, 4));
    PushesConcatenate(zeros, 0, LeBytes(LaunchParameterMagic, 4) + LeBytes(1, 4), UserIdBytes(DefaultUserId));
  }

  /** The commands whose reply does not depend on any state. */
  datatype ConstantCommand = EnsureSaveData | GetDesiredLanguage | NotifyRunning | GetPseudoDeviceId

  /** The bytes each of them pushes: save data never needs creating (a u8
      0), the language is the language code "en-US" in a u64, running is
      acknowledged with a u8 1, and the pseudo device ID is two zero u64s. */
  function ConstantReply(c: ConstantCommand): (r: seq<u8>)
    ensures c == EnsureSaveData ==> r == [0]
    ensures c == GetDesiredLanguage ==> r == Ascii("en-US") + [0, 0, 0]
    ensures c == NotifyRunning ==> r == [1]
    ensures c == GetPseudoDeviceId ==> |r| == 16 && forall i :: 0 <= i < 16 ==> r[i] == 0
  {
    match c
    case EnsureSaveData => LeBytes(0, 1)
    case GetDesiredLanguage =>
      DesiredLanguageBytes();
      LeBytes(MakeMagic(Ascii("en-US")), 8)
    case NotifyRunning => LeBytes(1, 1)
    case GetPseudoDeviceId =>
      ZeroBytes(16);
      LeBytes(0, 8) + LeBytes(0, 8)
  }

  /** All bytes of zero are zero. */
  lemma {:induction false} ZeroBytes(n: nat)
    ensures forall i :: 0 <= i < n ==> LeBytes(0, n)[i] == 0
  {
    if n > 0 { ZeroBytes(n - 1); }
  }

  /** The u64 magic of "en-US" is the five characters followed by three NULs. */
  lemma DesiredLanguageBytes()
    ensures LeBytes(MakeMagic(Ascii("en-US")), 8) == Ascii("en-US") + [0, 0, 0]
  {
    MagicBytes(Ascii("en-US"), 8);
    assert seq(3, _ => 0) == [0, 0, 0];
  }
}
