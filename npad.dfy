// The Npad section of HID shared memory (app/src/main/cpp/skyline/input/sections/Npad.h):
// the enumerations a controller's state is written with, the bit fields of
// its button and connection words, and the fixed layout of the section.
//
// A bit field is read with the AArch64 allocation the code relies on: the
// first declared field in bit 0. Sizes follow the C layout rules: every
// field at a multiple of its alignment, the whole padded to the largest.

module Npad {
  import opened Wrappers
  import opened Common

  // ---------------------------------------------------------------------------
  // Enumerations
  // ---------------------------------------------------------------------------

  datatype ControllerType = NoController | ProController | Handheld | JoyconDual | JoyconLeft | JoyconRight

  /** `NpadControllerType`: one bit per controller type, none for `None`. */
  function ControllerTypeValue(t: ControllerType): (v: u32)
    ensures t.NoController? <==> v == 0
    ensures !t.NoController? ==> exists k :: 0 <= k < 5 && v == Pow2(k)
  {
    match t
    case NoController => 0
    case ProController => assert Pow2(0) == 1; 1
    case Handheld => assert Pow2(1) == 2; 2
    case JoyconDual => assert Pow2(2) == 4; 4
    case JoyconLeft => assert Pow2(3) == 8; 8
    case JoyconRight => assert Pow2(4) == 16; 16
  }

  datatype JoyAssignment = Dual | Single

  function JoyAssignmentValue(a: JoyAssignment): (v: u32)
    ensures v < 2 && (v == 0 <==> a == Dual)
  {
    match a case Dual => 0 case Single => 1
  }

  datatype ColorReadStatus = Success | Invalid | Disconnected

  function ColorReadStatusValue(s: ColorReadStatus): (v: u32)
    ensures v < 3
  {
    match s case Success => 0 case Invalid => 1 case Disconnected => 2
  }

  function ColorReadStatusOf(v: u32): (s: Option<ColorReadStatus>)
    ensures s.Some? <==> v < 3
    ensures s.Some? ==> ColorReadStatusValue(s.value) == v
  {
    if v == 0 then Some(Success) else if v == 1 then Some(Invalid) else if v == 2 then Some(Disconnected) else None
  }

  lemma ColorReadStatusRoundTrip(s: ColorReadStatus)
    ensures ColorReadStatusOf(ColorReadStatusValue(s)) == Some(s)
  {
  }

  datatype BatteryLevel = Empty | Low | Medium | High | Full

  /** `NpadBatteryLevel`: Empty is 0, Full is 4, in order. */
  function BatteryLevelValue(b: BatteryLevel): (v: u32)
    ensures v <= 4 && (v == 0 <==> b == Empty) && (v == 4 <==> b == Full)
  {
    match b case Empty => 0 case Low => 1 case Medium => 2 case High => 3 case Full => 4
  }

  function BatteryLevelOf(v: u32): (b: Option<BatteryLevel>)
    ensures b.Some? <==> v <= 4
    ensures b.Some? ==> BatteryLevelValue(b.value) == v
  {
    if v == 0 then Some(Empty) else if v == 1 then Some(Low) else if v == 2 then Some(Medium)
    else if v == 3 then Some(High) else if v == 4 then Some(Full) else None
  }

  lemma BatteryLevelRoundTrip(b: BatteryLevel)
    ensures BatteryLevelOf(BatteryLevelValue(b)) == Some(b)
  {
  }

  datatype Color = Color(bodyColor: u32, buttonColor: u32)

  datatype NpadHeader = NpadHeader(
    controllerType: ControllerType, assignment: JoyAssignment,
    singleColorStatus: ColorReadStatus, singleColor: Color,
    dualColorStatus: ColorReadStatus, rightColor: Color, leftColor: Color)

  /** A header as it is first made: both color reads report a disconnected controller. */
  function InitialHeader(controllerType: ControllerType, assignment: JoyAssignment, singleColor: Color, rightColor: Color, leftColor: Color): (h: NpadHeader)
    ensures h.singleColorStatus == Disconnected && h.dualColorStatus == Disconnected
    ensures h.controllerType == controllerType && h.assignment == assignment
    ensures h.singleColor == singleColor && h.rightColor == rightColor && h.leftColor == leftColor
  {
    NpadHeader(controllerType, assignment, Disconnected, singleColor, Disconnected, rightColor, leftColor)
  }

  // ---------------------------------------------------------------------------
  // Bit fields
  // ---------------------------------------------------------------------------

  /** The low n bits of a word, bit 0 first. */
  function Flags(raw: nat, n: nat): (f: seq<bool>)
    ensures |f| == n
  {
    if n == 0 then [] else [raw % 2 == 1] + Flags(raw / 2, n - 1)
  }

  /** The word whose low bits are the flags, bit 0 first. */
  function FlagsValue(f: seq<bool>): (v: nat)
    ensures v < Pow2(|f|)
  {
    if f == [] then 0 else (if f[0] then 1 else 0) + 2 * FlagsValue(f[1..])
  }

  /** Flag k is bit k of the word. */
  lemma {:induction false} FlagIsBit(raw: nat, n: nat, k: nat)
    requires k < n
    ensures Flags(raw, n)[k] <==> (raw / Pow2(k)) % 2 == 1
  {
    if k > 0 {
      FlagIsBit(raw / 2, n - 1, k - 1);
      var p := Pow2(k - 1);
      assert Pow2(k) == 2 * p;
      DivDiv(raw, 2, p);
      assert Flags(raw, n)[k] == Flags(raw / 2, n - 1)[k - 1];
    }
  }

  /** Storing flags and reading them back gives the flags. */
  lemma {:induction false} FlagsOfValue(f: seq<bool>)
    ensures Flags(FlagsValue(f), |f|) == f
  {
    if f != [] {
      FlagsOfValue(f[1..]);
      var v := FlagsValue(f);
      assert v / 2 == FlagsValue(f[1..]);
    }
  }

  /** Reading n flags and storing them keeps the low n bits of the word. */
  lemma {:induction false} ValueOfFlags(raw: nat, n: nat)
    ensures FlagsValue(Flags(raw, n)) == raw % Pow2(n)
  {
    if n > 0 {
      ValueOfFlags(raw / 2, n - 1);
      var f := Flags(raw, n);
      assert f[1..] == Flags(raw / 2, n - 1);
      ModSplitTwo(raw, Pow2(n - 1));
    }
  }

  /** x mod 2m is x's low bit plus twice (x / 2) mod m. */
  lemma ModSplitTwo(x: nat, m: nat)
    requires m > 0
    ensures x % (2 * m) == x % 2 + 2 * ((x / 2) % m)
  {
    var q := (x / 2) / m;
    var r := (x / 2) % m;
    assert x / 2 == q * m + r;
    assert x == (2 * m) * q + (x % 2 + 2 * r);
    ModUnique(x, 2 * m, q, x % 2 + 2 * r);
  }

  /** The buttons in the order of their bits, `a` in bit 0. */
  datatype Button =
    | A | B | X | Y | LeftStick | RightStick | L | R | ZL | ZR | Plus | Minus
    | DpadLeft | DpadUp | DpadRight | DpadDown
    | LeftStickLeft | LeftStickUp | LeftStickRight | LeftStickDown
    | RightStickLeft | RightStickUp | RightStickRight | RightStickDown
    | LeftSl | LeftSr | RightSl | RightSr

  const ButtonCount: nat := 28

  const Buttons: seq<Button> := [
    A, B, X, Y, LeftStick, RightStick, L, R, ZL, ZR, Plus, Minus,
    DpadLeft, DpadUp, DpadRight, DpadDown,
    LeftStickLeft, LeftStickUp, LeftStickRight, LeftStickDown,
    RightStickLeft, RightStickUp, RightStickRight, RightStickDown,
    LeftSl, LeftSr, RightSl, RightSr]

  /** The bit a button is stored in. */
  function ButtonBit(b: Button): (k: nat)
    ensures k < ButtonCount && Buttons[k] == b
  {
    match b
    case A => 0 case B => 1 case X => 2 case Y => 3 case LeftStick => 4 case RightStick => 5
    case L => 6 case R => 7 case ZL => 8 case ZR => 9 case Plus => 10 case Minus => 11
    case DpadLeft => 12 case DpadUp => 13 case DpadRight => 14 case DpadDown => 15
    case LeftStickLeft => 16 case LeftStickUp => 17 case LeftStickRight => 18 case LeftStickDown => 19
    case RightStickLeft => 20 case RightStickUp => 21 case RightStickRight => 22 case RightStickDown => 23
    case LeftSl => 24 case LeftSr => 25 case RightSl => 26 case RightSr => 27
  }

  /** Every bit of 0-27 belongs to exactly one button. */
  lemma ButtonBitsAreDistinct(b: Button, c: Button)
    ensures ButtonBit(b) == ButtonBit(c) <==> b == c
  {
  }

  /** The button field of an `NpadButton` word. */
  predicate Pressed(raw: u64, b: Button) {
    Flags(raw, ButtonCount)[ButtonBit(b)]
  }

  /** A button is pressed exactly when its bit of the word is set. */
  lemma PressedIsBit(raw: u64, b: Button)
    ensures Pressed(raw, b) <==> (raw / Pow2(ButtonBit(b))) % 2 == 1
  {
    FlagIsBit(raw, ButtonCount, ButtonBit(b));
  }

  /** The word with exactly the given buttons pressed. */
  function ButtonsWord(pressed: set<Button>): (raw: u64)
  {
    assert |Buttons| == ButtonCount;
    var f := seq(ButtonCount, k requires 0 <= k < ButtonCount => Buttons[k] in pressed);
    FlagsFitInWord(f);
    FlagsValue(f)
  }

  /** The buttons' flags fit in a u64. */
  lemma FlagsFitInWord(f: seq<bool>)
    requires |f| == ButtonCount
    ensures FlagsValue(f) < U64_MODULUS
  {
    Pow2Monotone(ButtonCount, 64);
    Pow2Value64();
  }

  /** The word reads back as the buttons it was made from. */
  lemma ButtonsWordRoundTrip(pressed: set<Button>, b: Button)
    ensures Pressed(ButtonsWord(pressed), b) <==> b in pressed
  {
    var f := seq(ButtonCount, k requires 0 <= k < ButtonCount => Buttons[k] in pressed);
    FlagsOfValue(f);
  }

  /** `NpadConnectionState`: six flags in bits 0-5. */
  datatype ConnectionState = ConnectionState(
    connected: bool, handheld: bool,
    leftJoyconConnected: bool, leftJoyconHandheld: bool,
    rightJoyconConnected: bool, rightJoyconHandheld: bool)

  function DecodeConnectionState(raw: u64): (s: ConnectionState)
    ensures s.connected <==> raw % 2 == 1
  {
    var f := Flags(raw, 6);
    ConnectionState(f[0], f[1], f[2], f[3], f[4], f[5])
  }

  function EncodeConnectionState(s: ConnectionState): (raw: u64)
    ensures raw < 0x40
  {
    assert Pow2(6) == 0x40;
    FlagsValue([s.connected, s.handheld, s.leftJoyconConnected, s.leftJoyconHandheld, s.rightJoyconConnected, s.rightJoyconHandheld])
  }

  lemma DecodeEncodeConnectionState(s: ConnectionState)
    ensures DecodeConnectionState(EncodeConnectionState(s)) == s
  {
    FlagsOfValue([s.connected, s.handheld, s.leftJoyconConnected, s.leftJoyconHandheld, s.rightJoyconConnected, s.rightJoyconHandheld]);
  }

  /** Encoding a decoded state keeps bits 0-5 and clears the rest. */
  lemma EncodeDecodeConnectionState(raw: u64)
    ensures EncodeConnectionState(DecodeConnectionState(raw)) == raw % 0x40
  {
    var f := Flags(raw, 6);
    assert [f[0], f[1], f[2], f[3], f[4], f[5]] == f;
    ValueOfFlags(raw, 6);
    assert Pow2(6) == 0x40;
  }

  /** Each flag is its bit: the left Joy-Con's handheld flag is bit 3, say. */
  lemma ConnectionFlagBits(raw: u64)
    ensures DecodeConnectionState(raw).handheld <==> (raw / 2) % 2 == 1
    ensures DecodeConnectionState(raw).leftJoyconConnected <==> (raw / 4) % 2 == 1
    ensures DecodeConnectionState(raw).leftJoyconHandheld <==> (raw / 8) % 2 == 1
    ensures DecodeConnectionState(raw).rightJoyconConnected <==> (raw / 16) % 2 == 1
    ensures DecodeConnectionState(raw).rightJoyconHandheld <==> (raw / 32) % 2 == 1
  {
    FlagIsBit(raw, 6, 1);
    FlagIsBit(raw, 6, 2);
    FlagIsBit(raw, 6, 3);
    FlagIsBit(raw, 6, 4);
    FlagIsBit(raw, 6, 5);
    assert Pow2(1) == 2 && Pow2(2) == 4 && Pow2(3) == 8 && Pow2(4) == 16 && Pow2(5) == 32;
  }

  // ---------------------------------------------------------------------------
  // Layout
  // ---------------------------------------------------------------------------

  type Alignment = a: nat | a > 0 witness 1

  /** A field of a structure: its size and alignment in bytes. */
  datatype Field = Field(size: nat, align: Alignment)

  function AlignUp(offset: nat, align: Alignment): (r: nat)
    ensures offset <= r < offset + align && r % align == 0
  {
    var q := offset / align;
    if offset % align == 0 then offset
    else
      ModUnique(align * (q + 1), align, q + 1, 0);
      align * (q + 1)
  }

  /** The end of the first n fields, each placed at the next multiple of its alignment. */
  function EndOf(fields: seq<Field>, n: nat): (r: nat)
    requires n <= |fields|
  {
    if n == 0 then 0 else AlignUp(EndOf(fields, n - 1), fields[n - 1].align) + fields[n - 1].size
  }

  /** Where field i starts. */
  function OffsetOf(fields: seq<Field>, i: nat): (r: nat)
    requires i < |fields|
    ensures r % fields[i].align == 0 && EndOf(fields, i) <= r
    ensures r + fields[i].size == EndOf(fields, i + 1)
  {
    AlignUp(EndOf(fields, i), fields[i].align)
  }

  /** Fields are laid out in order and do not overlap. */
  lemma {:induction false} FieldsAreDisjoint(fields: seq<Field>, i: nat, j: nat)
    requires i < j < |fields|
    ensures OffsetOf(fields, i) + fields[i].size <= OffsetOf(fields, j)
    decreases j - i
  {
    if i + 1 < j {
      FieldsAreDisjoint(fields, i + 1, j);
    }
  }

  /** The largest alignment among the first n fields (1 for none). */
  function MaxAlign(fields: seq<Field>, n: nat): (a: nat)
    requires n <= |fields|
    ensures a > 0
    ensures forall i :: 0 <= i < n ==> fields[i].align <= a
  {
    if n == 0 then 1 else
      var rest := MaxAlign(fields, n - 1);
      if fields[n - 1].align > rest then fields[n - 1].align else rest
  }

  /** `sizeof` a structure: the end of its fields, rounded up to its alignment. */
  function SizeOf(fields: seq<Field>): (s: nat)
    ensures EndOf(fields, |fields|) <= s && s % MaxAlign(fields, |fields|) == 0
  {
    AlignUp(EndOf(fields, |fields|), MaxAlign(fields, |fields|))
  }

  function Scalar(size: Alignment): Field
  {
    Field(size, size)
  }

  /** An array of n elements of a structure. */
  function ArrayOf(element: seq<Field>, n: nat): Field
  {
    Field(SizeOf(element) * n, MaxAlign(element, |element|))
  }

  /** `NpadControllerState`: two timestamps, the buttons, four stick axes and the connection state. */
  const ControllerStateFields: seq<Field> := [Scalar(8), Scalar(8), Scalar(8), Scalar(4), Scalar(4), Scalar(4), Scalar(4), Scalar(8)]

  lemma ControllerStateSize()
    ensures SizeOf(ControllerStateFields) == 0x30
    ensures MaxAlign(ControllerStateFields, 8) == 8
  {
    var f := ControllerStateFields;
    assert EndOf(f, 1) == 0x8;
    assert EndOf(f, 2) == 0x10;
    assert EndOf(f, 3) == 0x18;
    assert EndOf(f, 4) == 0x1C;
    assert EndOf(f, 5) == 0x20;
    assert EndOf(f, 6) == 0x24;
    assert EndOf(f, 7) == 0x28;
    assert EndOf(f, 8) == 0x30;
    assert MaxAlign(f, 1) == 8;
    assert MaxAlign(f, 4) == 8 by { assert MaxAlign(f, 2) == 8 && MaxAlign(f, 3) == 8; }
    assert MaxAlign(f, 7) == 8 by { assert MaxAlign(f, 5) == 8 && MaxAlign(f, 6) == 8; }
    assert MaxAlign(f, 8) == 8;
  }

  /** The `CommonHeader` and `HidEntryCount` of the HID sections are defined
      elsewhere; these are the only values the size assertions of the two
      entry tables allow. */
  const CommonHeaderSize: nat := 0x20
  const HidEntryCount: nat := 17

  lemma EntryTableSizesFixCount(header: nat, count: nat)
    requires header + 0x30 * count == 0x350 && header + 0x68 * count == 0x708
    ensures header == CommonHeaderSize && count == HidEntryCount
  {
  }

  const CommonHeaderField: Field := Field(CommonHeaderSize, 8)

  /** `NpadControllerInfo`: the common header and the controller-state entries. */
  function ControllerInfoFields(): (f: seq<Field>)
  {
    ControllerStateSize();
    [CommonHeaderField, ArrayOf(ControllerStateFields, HidEntryCount)]
  }

  lemma ControllerInfoSize()
    ensures SizeOf(ControllerInfoFields()) == 0x350 && MaxAlign(ControllerInfoFields(), 2) == 8
  {
    ControllerStateSize();
    var f := ControllerInfoFields();
    assert f == [CommonHeaderField, Field(0x330, 8)];
    HeaderAndArraySize(f, 0x330);
  }

  /** A common header followed by an 8-aligned array of s bytes. */
  lemma HeaderAndArraySize(f: seq<Field>, s: nat)
    requires f == [CommonHeaderField, Field(s, 8)] && s % 8 == 0
    ensures SizeOf(f) == CommonHeaderSize + s && MaxAlign(f, 2) == 8
  {
    assert EndOf(f, 1) == 0x20;
    assert EndOf(f, 2) == 0x20 + s;
    assert MaxAlign(f, 1) == 8;
  }

  /** `SixaxisVector`: three floats. */
  const VectorFields: seq<Field> := [Scalar(4), Scalar(4), Scalar(4)]

  lemma VectorSize()
    ensures SizeOf(VectorFields) == 0xC && MaxAlign(VectorFields, 3) == 4
  {
    var f := VectorFields;
    assert EndOf(f, 1) == 4 && EndOf(f, 2) == 8 && EndOf(f, 3) == 0xC;
    assert MaxAlign(f, 1) == 4 && MaxAlign(f, 2) == 4;
  }

  /** `NpadSixaxisState`: three timestamps, three vectors, a 3-vector matrix and a word. */
  function SixaxisStateFields(): (f: seq<Field>)
  {
    VectorSize();
    var v := ArrayOf(VectorFields, 1);
    [Scalar(8), Scalar(8), Scalar(8), v, v, v, ArrayOf(VectorFields, 3), Scalar(8)]
  }

  lemma SixaxisStateSize()
    ensures SizeOf(SixaxisStateFields()) == 0x68 && MaxAlign(SixaxisStateFields(), 8) == 8
  {
    VectorSize();
    var f := SixaxisStateFields();
    assert f[3] == Field(0xC, 4) && f[6] == Field(0x24, 4);
    assert EndOf(f, 1) == 0x8;
    assert EndOf(f, 2) == 0x10;
    assert EndOf(f, 3) == 0x18;
    assert EndOf(f, 4) == 0x24;
    assert EndOf(f, 5) == 0x30;
    assert EndOf(f, 6) == 0x3C;
    assert EndOf(f, 7) == 0x60;
    assert EndOf(f, 8) == 0x68;
    assert MaxAlign(f, 1) == 8;
    assert MaxAlign(f, 4) == 8 by { assert MaxAlign(f, 2) == 8 && MaxAlign(f, 3) == 8; }
    assert MaxAlign(f, 7) == 8 by { assert MaxAlign(f, 5) == 8 && MaxAlign(f, 6) == 8; }
  }

  /** `NpadSixaxisInfo`: the common header and the sixaxis entries. */
  function SixaxisInfoFields(): (f: seq<Field>)
  {
    SixaxisStateSize();
    [CommonHeaderField, ArrayOf(SixaxisStateFields(), HidEntryCount)]
  }

  lemma SixaxisInfoSize()
    ensures SizeOf(SixaxisInfoFields()) == 0x708 && MaxAlign(SixaxisInfoFields(), 2) == 8
  {
    SixaxisStateSize();
    var f := SixaxisInfoFields();
    assert f == [CommonHeaderField, Field(0x6E8, 8)];
    HeaderAndArraySize(f, 0x6E8);
  }

  /** `NpadHeader`: type, assignment, then each color status before its colors. */
  const HeaderFields: seq<Field> := [Scalar(4), Scalar(4), Scalar(4), Field(8, 4), Scalar(4), Field(8, 4), Field(8, 4)]

  lemma HeaderSize()
    ensures SizeOf(HeaderFields) == 0x28 && MaxAlign(HeaderFields, 7) == 4
  {
    var f := HeaderFields;
    assert EndOf(f, 1) == 4 && EndOf(f, 2) == 8 && EndOf(f, 3) == 0xC && EndOf(f, 4) == 0x14;
    assert EndOf(f, 5) == 0x18 && EndOf(f, 6) == 0x20 && EndOf(f, 7) == 0x28;
    assert MaxAlign(f, 1) == 4 && MaxAlign(f, 2) == 4 && MaxAlign(f, 3) == 4;
    assert MaxAlign(f, 4) == 4 && MaxAlign(f, 5) == 4 && MaxAlign(f, 6) == 4;
  }

  /** `NpadSection`: the header, seven controller tables, six sixaxis tables,
      the device type, a padding word, the system properties, the system
      button properties, three battery levels and 0x395 padding words. */
  const SectionFields: seq<Field> := [
    HeaderField,
    ControllerInfoField, ControllerInfoField, ControllerInfoField, ControllerInfoField,
    ControllerInfoField, ControllerInfoField, ControllerInfoField,
    SixaxisInfoField, SixaxisInfoField, SixaxisInfoField,
    SixaxisInfoField, SixaxisInfoField, SixaxisInfoField,
    Scalar(4), Scalar(4), Scalar(8), Scalar(4), Scalar(4), Scalar(4), Scalar(4),
    Field(4 * 0x395, 4)]

  /** The header, a controller table and a sixaxis table as fields of the section. */
  const HeaderField: Field := Field(0x28, 4)
  const ControllerInfoField: Field := Field(0x350, 8)
  const SixaxisInfoField: Field := Field(0x708, 8)

  /** Each is its structure's size and alignment. */
  lemma SectionMembersAreTheStructures()
    ensures HeaderField == ArrayOf(HeaderFields, 1)
    ensures ControllerInfoField == ArrayOf(ControllerInfoFields(), 1)
    ensures SixaxisInfoField == ArrayOf(SixaxisInfoFields(), 1)
  {
    HeaderSize();
    ControllerInfoSize();
    SixaxisInfoSize();
  }

  /** The end of the fields, in three stretches: the header and the
      controller tables, the sixaxis tables, and the trailing words. */
  lemma SectionControllersEnd()
    ensures EndOf(SectionFields, 8) == 0x1758
  {
    var f := SectionFields;
    assert f[0] == Field(0x28, 4) && AlignUp(0x0, 4) == 0x0;
    EndStep(f, 0, 0x0, 0x28);
    assert f[1] == Field(0x350, 8) && AlignUp(0x28, 8) == 0x28;
    EndStep(f, 1, 0x28, 0x378);
    assert f[2] == Field(0x350, 8) && AlignUp(0x378, 8) == 0x378;
    EndStep(f, 2, 0x378, 0x6C8);
    assert f[3] == Field(0x350, 8) && AlignUp(0x6C8, 8) == 0x6C8;
    EndStep(f, 3, 0x6C8, 0xA18);
    assert f[4] == Field(0x350, 8) && AlignUp(0xA18, 8) == 0xA18;
    EndStep(f, 4, 0xA18, 0xD68);
    assert f[5] == Field(0x350, 8) && AlignUp(0xD68, 8) == 0xD68;
    EndStep(f, 5, 0xD68, 0x10B8);
    assert f[6] == Field(0x350, 8) && AlignUp(0x10B8, 8) == 0x10B8;
    EndStep(f, 6, 0x10B8, 0x1408);
    assert f[7] == Field(0x350, 8) && AlignUp(0x1408, 8) == 0x1408;
    EndStep(f, 7, 0x1408, 0x1758);
  }

  lemma SectionSixaxisEnd()
    ensures EndOf(SectionFields, 14) == 0x4188
  {
    SectionControllersEnd();
    var f := SectionFields;
    assert f[8] == Field(0x708, 8) && AlignUp(0x1758, 8) == 0x1758;
    EndStep(f, 8, 0x1758, 0x1E60);
    assert f[9] == Field(0x708, 8) && AlignUp(0x1E60, 8) == 0x1E60;
    EndStep(f, 9, 0x1E60, 0x2568);
    assert f[10] == Field(0x708, 8) && AlignUp(0x2568, 8) == 0x2568;
    EndStep(f, 10, 0x2568, 0x2C70);
    assert f[11] == Field(0x708, 8) && AlignUp(0x2C70, 8) == 0x2C70;
    EndStep(f, 11, 0x2C70, 0x3378);
    assert f[12] == Field(0x708, 8) && AlignUp(0x3378, 8) == 0x3378;
    EndStep(f, 12, 0x3378, 0x3A80);
    assert f[13] == Field(0x708, 8) && AlignUp(0x3A80, 8) == 0x3A80;
    EndStep(f, 13, 0x3A80, 0x4188);
  }

  lemma SectionFieldsEnd()
    ensures EndOf(SectionFields, 22) == 0x4FFC
    ensures EndOf(SectionFields, 18) == 0x419C && EndOf(SectionFields, 20) == 0x41A4
  {
    SectionSixaxisEnd();
    var f := SectionFields;
    assert f[14] == Field(0x4, 4) && AlignUp(0x4188, 4) == 0x4188;
    EndStep(f, 14, 0x4188, 0x418C);
    assert f[15] == Field(0x4, 4) && AlignUp(0x418C, 4) == 0x418C;
    EndStep(f, 15, 0x418C, 0x4190);
    assert f[16] == Field(0x8, 8) && AlignUp(0x4190, 8) == 0x4190;
    EndStep(f, 16, 0x4190, 0x4198);
    assert f[17] == Field(0x4, 4) && AlignUp(0x4198, 4) == 0x4198;
    EndStep(f, 17, 0x4198, 0x419C);
    assert f[18] == Field(0x4, 4) && AlignUp(0x419C, 4) == 0x419C;
    EndStep(f, 18, 0x419C, 0x41A0);
    assert f[19] == Field(0x4, 4) && AlignUp(0x41A0, 4) == 0x41A0;
    EndStep(f, 19, 0x41A0, 0x41A4);
    assert f[20] == Field(0x4, 4) && AlignUp(0x41A4, 4) == 0x41A4;
    EndStep(f, 20, 0x41A4, 0x41A8);
    assert f[21] == Field(0xE54, 4) && AlignUp(0x41A8, 4) == 0x41A8;
    EndStep(f, 21, 0x41A8, 0x4FFC);
  }

  /** The section is 0x5000 bytes, four of them trailing padding; the battery
      levels are the words at 0x419C, 0x41A0 and 0x41A4. */
  lemma SectionSize()
    ensures SizeOf(SectionFields) == 0x5000
    ensures EndOf(SectionFields, 22) == 0x4FFC
    ensures OffsetOf(SectionFields, 18) == 0x419C && OffsetOf(SectionFields, 20) == 0x41A4
  {
    SectionFieldsEnd();
    var f := SectionFields;
    assert AlignUp(0x419C, 4) == 0x419C && AlignUp(0x41A4, 4) == 0x41A4;
    assert MaxAlign(f, 2) == 8 by { assert MaxAlign(f, 1) == 4; }
    MaxAlignStays(f, 2, 22);
    assert AlignUp(0x4FFC, 8) == 0x5000;
  }

  /** Laying out one more field. */
  lemma EndStep(f: seq<Field>, n: nat, end: nat, next: nat)
    requires n < |f| && EndOf(f, n) == end && next == AlignUp(end, f[n].align) + f[n].size
    ensures EndOf(f, n + 1) == next
  {
  }

  /** Once the alignment is 8, fields of alignment at most 8 keep it. */
  lemma {:induction false} MaxAlignStays(f: seq<Field>, m: nat, n: nat)
    requires m <= n <= |f| && MaxAlign(f, m) == 8
    requires forall i :: m <= i < n ==> f[i].align <= 8
    ensures MaxAlign(f, n) == 8
    decreases n - m
  {
    if m < n {
      MaxAlignStays(f, m + 1, n);
    }
  }
}
