/** The arithmetic and encoding helpers of `skyline/common.h`: the HOS result
    code, alignment, magic packing, hex decoding, the tick-to-nanosecond
    conversion and the checked span views.

    Bitwise `&`, `|` and `~` are modelled on unbounded naturals by `BitAnd`,
    `BitOr` and `Not64`; the lemmas below connect them with ordinary modular
    arithmetic, which is what the alignment contracts are stated in. */
module Common {
  import opened Wrappers

  const U8_MODULUS: nat := 0x100
  const U16_MODULUS: nat := 0x1_0000
  const U32_MODULUS: nat := 0x1_0000_0000
  const U64_MODULUS: nat := 0x1_0000_0000_0000_0000

  type u8 = x: int | 0 <= x < 0x100
  type u16 = x: int | 0 <= x < 0x1_0000
  type u32 = x: int | 0 <= x < 0x1_0000_0000
  type u64 = x: int | 0 <= x < 0x1_0000_0000_0000_0000
  type i8 = x: int | -0x80 <= x < 0x80
  type i32 = x: int | -0x8000_0000 <= x < 0x8000_0000
  type i64 = x: int | -0x8000_0000_0000_0000 <= x < 0x8000_0000_0000_0000

  /** Constants of the `constant` namespace. */
  const BaseAddress: u64 := 0x8000000
  const DefStackSize: u64 := 0x1E8480
  const HandheldResolutionW: u16 := 1280
  const HandheldResolutionH: u16 := 720
  const DockedResolutionW: u16 := 1920
  const DockedResolutionH: u16 := 1080
  const NsInSecond: u64 := 1000000000

  /** Unsigned 64-bit wrap-around of a mathematical integer. */
  function Wrap64(x: int): u64 { x % U64_MODULUS }

  /** Unsigned 32-bit wrap-around, as a conversion to `u32` or a `u32` subtraction does. */
  function Wrap32(x: int): u32 { x % U32_MODULUS }

  /** Unsigned 16-bit truncation. */
  function Wrap16(x: int): u16 { x % U16_MODULUS }

  /** Two's-complement reinterpretation of a 64-bit pattern as a signed value. */
  function ToSigned64(x: u64): i64 { if x < 0x8000_0000_0000_0000 then x else x - U64_MODULUS }

  // ---------------------------------------------------------------------------
  // Bitwise operations on naturals
  // ---------------------------------------------------------------------------

  function Pow2(k: nat): (r: nat)
    ensures r >= 1
  {
    if k == 0 then 1 else 2 * Pow2(k - 1)
  }

  /** `a & b` */
  function BitAnd(a: nat, b: nat): (r: nat)
    ensures r <= a && r <= b
    decreases a
  {
    if a == 0 || b == 0 then 0
    else 2 * BitAnd(a / 2, b / 2) + (if a % 2 == 1 && b % 2 == 1 then 1 else 0)
  }

  /** `a | b` */
  function BitOr(a: nat, b: nat): nat
    decreases a + b
  {
    if a == 0 then b
    else if b == 0 then a
    else 2 * BitOr(a / 2, b / 2) + (if a % 2 == 1 || b % 2 == 1 then 1 else 0)
  }

  /** `a ^ b` */
  function BitXor(a: nat, b: nat): nat
    decreases a + b
  {
    if a == 0 then b
    else if b == 0 then a
    else 2 * BitXor(a / 2, b / 2) + (a % 2 + b % 2) % 2
  }

  /** Xor-ing twice with the same key gives the value back. */
  lemma {:induction false} BitXorTwice(a: nat, b: nat)
    ensures BitXor(BitXor(a, b), b) == a
    decreases a + b
  {
    if a + b > 0 {
      var x := BitXor(a, b);
      BitXorHalves(a, b);
      BitXorHalves(x, b);
      BitXorTwice(a / 2, b / 2);
      var y := BitXor(x, b);
      assert y == 2 * (y / 2) + y % 2;
    }
  }

  /** The low bit of a xor is the xor of the low bits; the rest is the xor of the rest. */
  lemma BitXorHalves(a: nat, b: nat)
    ensures BitXor(a, b) % 2 == (a % 2 + b % 2) % 2
    ensures BitXor(a, b) / 2 == BitXor(a / 2, b / 2)
  {
    if a != 0 && b != 0 {
      ModUnique(BitXor(a, b), 2, BitXor(a / 2, b / 2), (a % 2 + b % 2) % 2);
    }
  }

  lemma {:induction false} BitXorSelf(a: nat)
    ensures BitXor(a, a) == 0
    decreases a
  {
    if a != 0 { BitXorSelf(a / 2); }
  }

  lemma {:induction false} BitXorZero(a: nat, b: nat)
    requires BitXor(a, b) == 0
    ensures a == b
    decreases a + b
  {
    if a != 0 && b != 0 { BitXorZero(a / 2, b / 2); }
  }

  /** The xor of two n-bit values has n bits. */
  lemma {:induction false} BitXorBound(a: nat, b: nat, n: nat)
    requires a < Pow2(n) && b < Pow2(n)
    ensures BitXor(a, b) < Pow2(n)
    decreases a + b
  {
    if a != 0 && b != 0 {
      BitXorBound(a / 2, b / 2, n - 1);
    }
  }

  /** `~x` on 64 bits. */
  function Not64(x: u64): u64 { U64_MODULUS - 1 - x }

  /** `x - 1` on 64 bits: zero wraps to all ones. */
  function Dec64(x: u64): u64 { Wrap64(x - 1) }

  /** True of the positive powers of two. */
  predicate IsPow2(m: nat)
    decreases m
  {
    m == 1 || (m > 1 && m % 2 == 0 && IsPow2(m / 2))
  }

  function Log2(m: nat): (k: nat)
    requires IsPow2(m)
    ensures Pow2(k) == m
    decreases m
  {
    if m == 1 then 0 else 1 + Log2(m / 2)
  }

  lemma Pow2Positive(k: nat)
    ensures IsPow2(Pow2(k))
  {
    if k > 0 { Pow2Positive(k - 1); }
  }

  lemma Pow2Monotone(j: nat, k: nat)
    requires j <= k
    ensures Pow2(j) <= Pow2(k)
  {
    if j < k { Pow2Monotone(j, k - 1); }
  }

  lemma Pow2Add(j: nat, k: nat)
    ensures Pow2(j + k) == Pow2(j) * Pow2(k)
  {
    if k > 0 {
      Pow2Add(j, k - 1);
      assert Pow2(j + k) == 2 * Pow2(j + k - 1);
    }
  }

  lemma MulAtLeast(d: int, k: int)
    requires d > 0 && k >= 1
    ensures d * k >= d
    decreases k
  {
    if k > 1 {
      MulAtLeast(d, k - 1);
      assert d * k == d * (k - 1) + d;
    }
  }

  /** Quotient and remainder are determined by `v == d*q + r, 0 <= r < d`. */
  lemma ModUnique(v: int, d: int, q: int, r: int)
    requires d > 0 && v == d * q + r && 0 <= r < d
    ensures v % d == r && v / d == q
  {
    var q0, r0 := v / d, v % d;
    assert d * (q - q0) == r0 - r;
    if q > q0 {
      MulAtLeast(d, q - q0);
    } else if q < q0 {
      MulAtLeast(d, q0 - q);
    }
  }

  /** Splitting off the lowest bit commutes with reduction modulo a power of two. */
  lemma ModDouble(v: nat, p: nat)
    requires p > 0
    ensures v % (2 * p) == 2 * ((v / 2) % p) + v % 2
  {
    var q, b := v / 2, v % 2;
    var s, t := q / p, q % p;
    assert v == (2 * p) * s + (2 * t + b);
    ModUnique(v, 2 * p, s, 2 * t + b);
  }

  lemma BitAndSelf(a: nat)
    ensures BitAnd(a, a) == a
  {
    if a > 0 { BitAndSelf(a / 2); }
  }

  /** `v & (2^k - 1)` keeps the low k bits. */
  lemma {:induction false} BitAndLowMask(v: nat, k: nat)
    ensures BitAnd(v, Pow2(k) - 1) == v % Pow2(k)
  {
    if k == 0 {
      ModUnique(v, 1, v, 0);
    } else if v == 0 {
      ModUnique(0, Pow2(k), 0, 0);
    } else {
      var p := Pow2(k - 1);
      assert Pow2(k) == 2 * p && p > 0;
      BitAndLowMask(v / 2, k - 1);
      LowMaskStep(v, p);
    }
  }

  lemma LowMaskStep(v: nat, p: nat)
    requires p > 0 && v > 0 && BitAnd(v / 2, p - 1) == (v / 2) % p
    ensures BitAnd(v, 2 * p - 1) == v % (2 * p)
  {
    ModUnique(2 * p - 1, 2, p - 1, 1);
    assert BitAnd(v, 2 * p - 1) == 2 * BitAnd(v / 2, p - 1) + v % 2;
    ModDouble(v, p);
  }

  /** The w-bit mask with bits k..w-1 set. */
  function HighMask(w: nat, k: nat): nat
    requires k <= w
  {
    Pow2Monotone(k, w);
    Pow2(w) - Pow2(k)
  }

  /** `v & (2^w - 2^k)` clears the low k bits of a w-bit value. */
  lemma {:induction false} BitAndHighMask(v: nat, k: nat, w: nat)
    requires k <= w && v < Pow2(w)
    ensures BitAnd(v, HighMask(w, k)) == v - v % Pow2(k)
  {
    if k == 0 {
      BitAndLowMask(v, w);
      ModUnique(v, Pow2(w), 0, v);
    } else if k == w {
      ModUnique(v, Pow2(w), 0, v);
    } else if v == 0 {
      ModUnique(0, Pow2(k), 0, 0);
    } else {
      var p := Pow2(k - 1);
      Pow2Monotone(k, w - 1);
      var half := HighMask(w - 1, k - 1);
      assert HighMask(w, k) == 2 * half && half > 0;
      assert Pow2(k) == 2 * p;
      assert v / 2 < Pow2(w - 1);
      BitAndHighMask(v / 2, k - 1, w - 1);
      HighMaskStep(v, half, p);
    }
  }

  lemma HighMaskStep(v: nat, half: nat, p: nat)
    requires v > 0 && half > 0 && p > 0 && BitAnd(v / 2, half) == v / 2 - (v / 2) % p
    ensures BitAnd(v, 2 * half) == v - v % (2 * p)
  {
    ModUnique(2 * half, 2, half, 0);
    assert BitAnd(v, 2 * half) == 2 * BitAnd(v / 2, half);
    ModDouble(v, p);
    assert v == 2 * (v / 2) + v % 2;
  }

  /** The single-bit test `(m & (m - 1)) == 0` recognises the powers of two. */
  lemma {:induction false} PowerOfTwoTest(m: nat)
    requires m > 0
    ensures BitAnd(m, m - 1) == 0 <==> IsPow2(m)
    decreases m
  {
    if m % 2 == 1 {
      if m > 1 { BitAndSelf(m / 2); }
    } else {
      assert (m - 1) / 2 == m / 2 - 1;
      PowerOfTwoTest(m / 2);
    }
  }

  /** Or-ing a value below 2^n with a multiple of 2^n adds them. */
  lemma {:induction false} BitOrDisjoint(a: nat, b: nat, n: nat)
    requires a < Pow2(n)
    ensures BitOr(a, b * Pow2(n)) == a + b * Pow2(n)
  {
    if n == 0 || a == 0 || b == 0 {
    } else {
      assert b * Pow2(n) == 2 * (b * Pow2(n - 1));
      BitOrDisjoint(a / 2, b, n - 1);
    }
  }

  lemma BitOrCommutes(a: nat, b: nat)
    ensures BitOr(a, b) == BitOr(b, a)
    decreases a + b
  {
    if a != 0 && b != 0 { BitOrCommutes(a / 2, b / 2); }
  }

  // ---------------------------------------------------------------------------
  // Result (common.h:35-55)
  // ---------------------------------------------------------------------------

  /** The packed HOS result code: `module` in bits 0-8, `id` in bits 9-20.
      A default-constructed result has raw value 0. */
  datatype HosResult = HosResult(raw: u32)

  const Success: HosResult := HosResult(0)

  /** `Result(module, id)`: both fields are truncated to their bit widths. */
  function MakeResult(moduleId: u16, id: u16): (r: HosResult)
    ensures ResultModule(r) == moduleId % 0x200 && ResultId(r) == id % 0x1000
    ensures r == Success <==> moduleId % 0x200 == 0 && id % 0x1000 == 0
  {
    var m, i := moduleId % 0x200, id % 0x1000;
    ModUnique(m + i * 0x200, 0x200, i, m);
    HosResult(m + i * 0x200)
  }

  function ResultModule(r: HosResult): nat { r.raw % 0x200 }

  function ResultId(r: HosResult): nat { (r.raw / 0x200) % 0x1000 }

  // ---------------------------------------------------------------------------
  // GetTimeNs (common.h:88-95)
  // ---------------------------------------------------------------------------

  /** The conversion of GetTimeNs, evaluated in u64 arithmetic: whole seconds
      scaled first, the remainder rounded half up. */
  function TicksToNs(ticks: u64, frequency: u64): u64
    requires frequency > 0
  {
    Wrap64(Wrap64((ticks / frequency) * NsInSecond)
      + Wrap64(Wrap64((ticks % frequency) * NsInSecond) + frequency / 2) / frequency)
  }

  lemma WrapSmall(x: int)
    requires 0 <= x < U64_MODULUS
    ensures Wrap64(x) == x
  {
    ModUnique(x, U64_MODULUS, 0, x);
  }

  lemma MulMonotone(a: nat, b: nat, c: nat)
    requires a <= b
    ensures a * c <= b * c
    decreases c
  {
    if c > 0 {
      MulMonotone(a, b, c - 1);
      assert a * c == a * (c - 1) + a && b * c == b * (c - 1) + b;
    }
  }

  /** `(a*f + b) / f == a + b / f` */
  lemma DivAddMultiple(a: nat, b: nat, f: nat)
    requires f > 0
    ensures (a * f + b) / f == a + b / f
  {
    assert b == f * (b / f) + b % f;
    assert a * f + b == f * (a + b / f) + b % f;
    ModUnique(a * f + b, f, a + b / f, b % f);
  }

  /** Splitting ticks into whole periods and a remainder loses nothing. */
  lemma SplitConversion(t: nat, f: nat, n: nat)
    requires f > 0
    ensures (t / f) * n + ((t % f) * n + f / 2) / f == (t * n + f / 2) / f
  {
    var q, r := t / f, t % f;
    assert t == q * f + r;
    assert t * n + f / 2 == (q * n) * f + (r * n + f / 2);
    DivAddMultiple(q * n, r * n + f / 2, f);
  }

  /** As long as the whole seconds scaled to nanoseconds fit in 64 bits (and
      the frequency is below about 1.8*10^10 Hz, so that the remainder scaled
      by 10^9 does too), the conversion is ticks*10^9/f rounded half up. The
      product ticks*10^9 itself may exceed 64 bits: splitting the ticks into
      whole seconds and a remainder is what keeps the result exact. */
  lemma TicksToNsRoundsHalfUp(ticks: u64, frequency: u64)
    requires frequency > 0
    requires (ticks / frequency + 1) * NsInSecond < U64_MODULUS
    requires frequency * (NsInSecond + 1) < U64_MODULUS
    ensures TicksToNs(ticks, frequency) == (ticks * NsInSecond + frequency / 2) / frequency
    ensures TicksToNs(ticks, frequency) * frequency <= ticks * NsInSecond + frequency / 2
            < (TicksToNs(ticks, frequency) + 1) * frequency
  {
    var f, n: nat := frequency, NsInSecond;
    var q, r := ticks / f, ticks % f;
    NoWrapInConversion(q, r, f, n);
    SplitConversion(ticks, f, n);
    DivBracket(ticks * n + f / 2, f);
  }

  /** No step of the conversion wraps around. */
  lemma NoWrapInConversion(q: nat, r: nat, f: nat, n: nat)
    requires 0 < f && r < f
    requires (q + 1) * n < U64_MODULUS && f * (n + 1) < U64_MODULUS
    ensures Wrap64(Wrap64(q * n) + Wrap64(Wrap64(r * n) + f / 2) / f) == q * n + (r * n + f / 2) / f
  {
    MulSucc(q, n);
    MulSucc(n, f);
    MulMonotone(r, f, n);
    RemainderBelow(r, f, n);
    NoWrapSteps(q * n, r * n, f);
  }

  lemma MulSucc(a: nat, b: nat)
    ensures (a + 1) * b == a * b + b && b * (a + 1) == a * b + b
  {
  }

  lemma NoWrapSteps(a: nat, b: nat, f: nat)
    requires 0 < f && b + f / 2 < U64_MODULUS && a + (b + f / 2) / f < U64_MODULUS
    ensures Wrap64(Wrap64(a) + Wrap64(Wrap64(b) + f / 2) / f) == a + (b + f / 2) / f
  {
    WrapSmall(a);
    WrapSmall(b);
    WrapSmall(b + f / 2);
    WrapSmall(a + (b + f / 2) / f);
  }

  /** The rounded remainder is at most one second's worth of nanoseconds. */
  lemma RemainderBelow(r: nat, f: nat, n: nat)
    requires r < f
    ensures (r * n + f / 2) / f <= n
  {
    var x := r * n + f / 2;
    MulMonotone(r, f, n);
    assert x < f * (n + 1);
    if x / f > n {
      DivBracket(x, f);
      MulMonotone(n + 1, x / f, f);
    }
  }

  lemma MulSwap(a: int, b: int, c: int)
    ensures a * (b * c) == b * (a * c)
  {
  }

  lemma DivBracket(x: nat, f: nat)
    requires f > 0
    ensures (x / f) * f <= x < (x / f + 1) * f
  {
    assert x == f * (x / f) + x % f;
  }

  lemma DivModBounds(x: nat, f: nat)
    requires f > 0
    ensures x / f <= x && x % f <= x
  {
    MulAtLeastOne(x / f, f);
    assert x == f * (x / f) + x % f;
  }

  lemma MulAtLeastOne(a: nat, f: nat)
    requires f > 0
    ensures a <= a * f
  {
    if a > 0 { MulAtLeast(a, f); }
  }

  // ---------------------------------------------------------------------------
  // Alignment (common.h:111-149)
  // ---------------------------------------------------------------------------

  /** `(value + (multiple - 1)) & ~(multiple - 1)` in u64. */
  function AlignUp(value: u64, multiple: u64): u64 {
    BitAnd(Wrap64(value + Dec64(multiple)), Not64(Dec64(multiple)))
  }

  /** `value & ~(multiple - 1)` in u64. */
  function AlignDown(value: u64, multiple: u64): u64 {
    BitAnd(value, Not64(Dec64(multiple)))
  }

  /** The mask test when `multiple` passes the single-bit test, the remainder otherwise. */
  function IsAligned(value: u64, multiple: u64): bool {
    if BitAnd(multiple, Dec64(multiple)) == 0 then BitAnd(value, Dec64(multiple)) == 0
    else value % multiple == 0
  }

  /** `IsAligned(value, PAGE_SIZE)`; the page size is a parameter of the model. */
  function PageAligned(value: u64, pageSize: u64): bool { IsAligned(value, pageSize) }

  /** `IsAligned(value, WORD_BIT / 8)`. */
  function WordAligned(value: u64, wordBit: u64): bool { IsAligned(value, wordBit / 8) }

  /** For a power-of-two multiple below 2^64, `~(multiple - 1)` is the mask
      of the bits at and above log2(multiple). */
  lemma ComplementMask(multiple: u64)
    requires IsPow2(multiple)
    ensures Log2(multiple) < 64
    ensures Not64(Dec64(multiple)) == HighMask(64, Log2(multiple))
  {
    var k := Log2(multiple);
    Pow2Value64();
    if k >= 64 { Pow2Monotone(64, k); }
  }

  lemma AlignDownIsFloor(value: u64, multiple: u64)
    requires IsPow2(multiple)
    ensures AlignDown(value, multiple) % multiple == 0
    ensures AlignDown(value, multiple) <= value < AlignDown(value, multiple) + multiple
  {
    ComplementMask(multiple);
    Pow2Value64();
    BitAndHighMask(value, Log2(multiple), 64);
    ModOfDifference(value, multiple);
  }

  lemma AlignUpIsCeiling(value: u64, multiple: u64)
    requires IsPow2(multiple) && value + multiple - 1 < U64_MODULUS
    ensures AlignUp(value, multiple) % multiple == 0
    ensures value <= AlignUp(value, multiple) < value + multiple
  {
    var x := value + multiple - 1;
    ModUnique(multiple - 1, U64_MODULUS, 0, multiple - 1);
    assert Dec64(multiple) == multiple - 1;
    ModUnique(x, U64_MODULUS, 0, x);
    assert Wrap64(value + Dec64(multiple)) == x;
    ComplementMask(multiple);
    Pow2Value64();
    BitAndHighMask(x, Log2(multiple), 64);
    assert AlignUp(value, multiple) == x - x % multiple;
    ModOfDifference(x, multiple);
  }

  lemma Pow2Value64()
    ensures Pow2(64) == U64_MODULUS
  {
    Pow2Value32();
    Pow2Add(32, 32);
  }

  lemma Pow2Value32()
    ensures Pow2(32) == U32_MODULUS
  {
    assert Pow2(8) == 0x100;
    Pow2Add(8, 8);
    Pow2Add(16, 16);
  }

  lemma ModOfDifference(x: nat, m: nat)
    requires m > 0
    ensures (x - x % m) % m == 0
  {
    ModUnique(x - x % m, m, x / m, 0);
  }

  /** Both branches of IsAligned agree: a value is aligned exactly when the
      multiple divides it; the multiple 0 only aligns the value 0. */
  lemma IsAlignedIsDivisibility(value: u64, multiple: u64)
    ensures multiple > 0 ==> (IsAligned(value, multiple) <==> value % multiple == 0)
    ensures multiple == 0 ==> (IsAligned(value, multiple) <==> value == 0)
  {
    if multiple == 0 {
      AlignedToZero(value);
    } else {
      AlignedToPositive(value, multiple);
    }
  }

  /** `0 - 1` wraps to the all-ones mask, which keeps every bit of the value. */
  lemma AlignedToZero(value: u64)
    ensures IsAligned(value, 0) <==> value == 0
  {
    Pow2Value64();
    ModUnique(U64_MODULUS - 1, U64_MODULUS, 0, U64_MODULUS - 1);
    assert Dec64(0) == Pow2(64) - 1;
    BitAndLowMask(value, 64);
    ModUnique(value, U64_MODULUS, 0, value);
  }

  lemma AlignedToPositive(value: u64, multiple: u64)
    requires multiple > 0
    ensures IsAligned(value, multiple) <==> value % multiple == 0
  {
    ModUnique(multiple - 1, U64_MODULUS, 0, multiple - 1);
    assert Dec64(multiple) == multiple - 1;
    PowerOfTwoTest(multiple);
    if BitAnd(multiple, multiple - 1) == 0 {
      var k := Log2(multiple);
      BitAndLowMask(value, k);
    }
  }

  // ---------------------------------------------------------------------------
  // MakeMagic (common.h:155-166)
  // ---------------------------------------------------------------------------

  /** The bytes of an ASCII literal. */
  function Ascii(s: string): (r: seq<u8>)
    requires forall i :: 0 <= i < |s| ==> s[i] as int < 0x100
    ensures |r| == |s| && forall i :: 0 <= i < |s| ==> r[i] == s[i] as int
  {
    if s == [] then [] else [s[0] as int] + Ascii(s[1..])
  }

  /** The loop of MakeMagic: character i is or-ed in at bit offset 8*i. */
  function MakeMagic(s: seq<u8>): nat
  {
    if s == [] then 0
    else BitOr(MakeMagic(s[..|s| - 1]), s[|s| - 1] * Pow2(8 * (|s| - 1)))
  }

  /** The little-endian value of a byte string. */
  function LittleEndian(s: seq<u8>): nat
  {
    if s == [] then 0 else s[0] + 0x100 * LittleEndian(s[1..])
  }

  /** The magic of a string is its little-endian reading, so it fits in |s| bytes. */
  lemma {:induction false} MakeMagicIsLittleEndian(s: seq<u8>)
    ensures MakeMagic(s) == LittleEndian(s)
    ensures MakeMagic(s) < Pow2(8 * |s|)
    decreases |s|
  {
    if s != [] {
      var init, last := s[..|s| - 1], s[|s| - 1];
      assert init + [last] == s;
      MakeMagicIsLittleEndian(init);
      MakeMagicStep(s);
      LittleEndianSnoc(init, last);
      SnocBound(LittleEndian(init), last, 8 * |init|);
    }
  }

  lemma MakeMagicStep(s: seq<u8>)
    requires s != [] && MakeMagic(s[..|s| - 1]) < Pow2(8 * (|s| - 1))
    ensures MakeMagic(s) == MakeMagic(s[..|s| - 1]) + s[|s| - 1] * Pow2(8 * (|s| - 1))
  {
    BitOrDisjoint(MakeMagic(s[..|s| - 1]), s[|s| - 1], 8 * (|s| - 1));
  }

  lemma SnocBound(a: nat, b: u8, n: nat)
    requires a < Pow2(n)
    ensures a + b * Pow2(n) < Pow2(n + 8)
  {
    Pow2Add(n, 8);
    assert Pow2(8) == 0x100;
    MulMonotone(b + 1, 0x100, Pow2(n));
  }

  lemma {:induction false} LittleEndianSnoc(s: seq<u8>, b: u8)
    ensures LittleEndian(s + [b]) == LittleEndian(s) + b * Pow2(8 * |s|)
    ensures LittleEndian(s) < Pow2(8 * |s|)
    decreases |s|
  {
    if s == [] {
      assert [b][1..] == [];
    } else {
      var t := s[1..];
      var p := Pow2(8 * |t|);
      assert (s + [b])[1..] == t + [b];
      LittleEndianSnoc(t, b);
      Pow2Add(8, 8 * |t|);
      assert Pow2(8) == 0x100;
      assert Pow2(8 * |s|) == 0x100 * p;
      var lt := LittleEndian(t);
      assert LittleEndian(s + [b]) == s[0] + 0x100 * (lt + b * p);
      MulSwap(0x100, b, p);
      assert LittleEndian(s) == s[0] + 0x100 * lt;
      assert lt + 1 <= p;
      assert 0x100 * (lt + 1) <= 0x100 * p;
    }
  }

  /** Byte i of a magic is character i of its string. */
  lemma {:induction false} MakeMagicByte(s: seq<u8>, i: nat)
    requires i < |s|
    ensures (MakeMagic(s) / Pow2(8 * i)) % 0x100 == s[i]
    decreases i
  {
    MakeMagicIsLittleEndian(s);
    LittleEndianByte(s, i);
  }

  lemma {:induction false} LittleEndianByte(s: seq<u8>, i: nat)
    requires i < |s|
    ensures (LittleEndian(s) / Pow2(8 * i)) % 0x100 == s[i]
    decreases i
  {
    var rest := LittleEndian(s[1..]);
    if i == 0 {
      ModUnique(LittleEndian(s), 0x100, rest, s[0]);
    } else {
      LittleEndianByte(s[1..], i - 1);
      Pow2Add(8, 8 * (i - 1));
      assert Pow2(8) == 0x100;
      var p := Pow2(8 * (i - 1));
      ModUnique(LittleEndian(s), 0x100, rest, s[0]);
      DivDiv(LittleEndian(s), 0x100, p);
    }
  }

  lemma DivDiv(x: nat, a: nat, b: nat)
    requires a > 0 && b > 0
    ensures x / (a * b) == (x / a) / b
  {
    var q := (x / a) / b;
    var r := (x / a) % b;
    var s := x % a;
    assert x == a * (x / a) + s;
    assert x / a == b * q + r;
    assert x == (a * b) * q + (a * r + s);
    assert a * r + s < a * b by {
      assert a * r <= a * (b - 1);
    }
    ModUnique(x, a * b, q, a * r + s);
  }

  /** The `n` bytes a value of an `n`-byte integer type occupies in guest
      memory, least significant first (the host is little-endian). */
  function LeBytes(v: nat, n: nat): (r: seq<u8>)
    ensures |r| == n
  {
    if n == 0 then [] else [v % 0x100] + LeBytes(v / 0x100, n - 1)
  }

  /** A slice of a slice is a slice of the whole. */
  lemma SliceOfSlice<T>(s: seq<T>, a: nat, b: nat, c: nat, d: nat)
    requires a <= b <= |s| && c <= d <= b - a
    ensures s[a..b][c..d] == s[a + c..a + d]
  {
    forall k | 0 <= k < d - c ensures s[a..b][c..d][k] == s[a + c..a + d][k] {
      assert s[a..b][c..d][k] == s[a + c + k];
    }
  }

  /** The middle part of a concatenation, and the regrouping that exposes it. */
  lemma Middle<T>(a: seq<T>, b: seq<T>, c: seq<T>)
    ensures (a + b + c)[|a|..|a| + |b|] == b && a + b + c == a + (b + c)
  {
  }

  /** Reading back the bytes of a value that fits in `n` bytes gives the value. */
  lemma {:induction false} LeBytesRoundTrip(v: nat, n: nat)
    requires v < Pow2(8 * n)
    ensures LittleEndian(LeBytes(v, n)) == v
  {
    if n > 0 {
      Pow2Add(8, 8 * (n - 1));
      assert Pow2(8) == 0x100;
      assert v / 0x100 < Pow2(8 * (n - 1));
      LeBytesRoundTrip(v / 0x100, n - 1);
    }
  }

  /** Writing out the value of a byte string in as many bytes gives the string back. */
  lemma {:induction false} LittleEndianRoundTrip(s: seq<u8>)
    ensures LeBytes(LittleEndian(s), |s|) == s
  {
    if s != [] {
      var rest := LittleEndian(s[1..]);
      ModUnique(LittleEndian(s), 0x100, rest, s[0]);
      LittleEndianRoundTrip(s[1..]);
    }
  }

  /** Trailing zero bytes do not change a little-endian value. */
  lemma {:induction false} LittleEndianZeroPad(s: seq<u8>, k: nat)
    ensures LittleEndian(s + seq(k, _ => 0)) == LittleEndian(s)
    decreases |s|, k
  {
    if s == [] {
      if k > 0 {
        assert ([] + seq(k, _ => 0))[1..] == [] + seq(k - 1, _ => 0);
        LittleEndianZeroPad([], k - 1);
      }
    } else {
      assert (s + seq(k, _ => 0))[1..] == s[1..] + seq(k, _ => 0);
      LittleEndianZeroPad(s[1..], k);
    }
  }

  /** The `n` bytes of the magic of a string of at most `n` characters are the
      string, padded with NULs. */
  lemma MagicBytes(s: seq<u8>, n: nat)
    requires |s| <= n
    ensures LeBytes(MakeMagic(s), n) == s + seq(n - |s|, _ => 0)
  {
    var padded := s + seq(n - |s|, _ => 0);
    MakeMagicIsLittleEndian(s);
    LittleEndianZeroPad(s, n - |s|);
    LittleEndianRoundTrip(padded);
  }

  // ---------------------------------------------------------------------------
  // Hex decoding (common.h:168-188)
  // ---------------------------------------------------------------------------

  predicate IsHexDigit(c: char) {
    ('0' <= c <= '9') || ('a' <= c <= 'f') || ('A' <= c <= 'F')
  }

  /** HexDigitToByte: the value of a hex digit; any other character throws. */
  function HexDigitToByte(c: char): (r: Result<u8>)
    ensures r.Ok? <==> IsHexDigit(c)
    ensures r.Ok? ==> r.value < 16
  {
    if '0' <= c <= '9' then Ok(c as int - '0' as int)
    else if 'a' <= c <= 'f' then Ok(c as int - 'a' as int + 10)
    else if 'A' <= c <= 'F' then Ok(c as int - 'A' as int + 10)
    else Err("Invalid hex char")
  }

  /** The lower-case digit of a nibble, the inverse of HexDigitToByte. */
  function HexDigit(n: nat): (c: char)
    requires n < 16
    ensures IsHexDigit(c)
  {
    if n < 10 then ('0' as int + n) as char else ('a' as int + n - 10) as char
  }

  lemma HexDigitRoundTrip(n: nat)
    requires n < 16
    ensures HexDigitToByte(HexDigit(n)) == Ok(n)
  {
  }

  /** HexStringToArray<size>: pairs of digits, high nibble first; a string of
      any other length than 2*size, or any non-digit, throws. */
  function HexStringToArray(size: nat, s: string): (r: Result<seq<u8>>)
    ensures r.Ok? <==> |s| == 2 * size && forall i :: 0 <= i < |s| ==> IsHexDigit(s[i])
    ensures r.Ok? ==> |r.value| == size && forall i :: 0 <= i < size ==>
              r.value[i] == 16 * HexDigitToByte(s[2 * i]).value + HexDigitToByte(s[2 * i + 1]).value
  {
    if |s| != size * 2 then Err("Invalid size") else HexPairs(s)
  }

  predicate AllHex(s: string) {
    forall i :: 0 <= i < |s| ==> IsHexDigit(s[i])
  }

  /** Byte i of `bytes` is the value of digits 2i and 2i + 1 of `s`. */
  predicate PairsOf(s: string, bytes: seq<u8>)
    requires AllHex(s)
  {
    |bytes| == |s| / 2 && forall i :: 0 <= i < |s| / 2 ==>
      bytes[i] == 16 * HexDigitToByte(s[2 * i]).value + HexDigitToByte(s[2 * i + 1]).value
  }

  lemma AllHexCons(s: string)
    requires |s| >= 2
    ensures AllHex(s) <==> IsHexDigit(s[0]) && IsHexDigit(s[1]) && AllHex(s[2..])
  {
    if IsHexDigit(s[0]) && IsHexDigit(s[1]) && AllHex(s[2..]) {
      forall i | 2 <= i < |s| ensures IsHexDigit(s[i]) {
        assert s[i] == s[2..][i - 2];
      }
    }
  }

  lemma PairsCons(s: string, b: u8, rest: seq<u8>)
    requires |s| >= 2 && |s| % 2 == 0 && AllHex(s)
    requires b == 16 * HexDigitToByte(s[0]).value + HexDigitToByte(s[1]).value
    requires PairsOf(s[2..], rest)
    ensures PairsOf(s, [b] + rest)
  {
    var bytes := [b] + rest;
    forall i | 1 <= i < |s| / 2
      ensures bytes[i] == 16 * HexDigitToByte(s[2 * i]).value + HexDigitToByte(s[2 * i + 1]).value
    {
      assert s[2 * i] == s[2..][2 * (i - 1)] && s[2 * i + 1] == s[2..][2 * (i - 1) + 1];
    }
  }

  /** The loop of HexStringToArray: each byte is `hi << 4 | lo`. */
  function HexPairs(s: string): (r: Result<seq<u8>>)
    requires |s| % 2 == 0
    ensures r.Ok? <==> AllHex(s)
    ensures r.Ok? ==> PairsOf(s, r.value)
    decreases |s|
  {
    if s == [] then Ok([])
    else
      AllHexCons(s);
      var hi :- HexDigitToByte(s[0]);
      var lo :- HexDigitToByte(s[1]);
      var rest :- HexPairs(s[2..]);
      var b := BitOr(hi * Pow2(4), lo);
      NibblesOr(hi, lo);
      PairsCons(s, b, rest);
      Ok([b] + rest)
  }

  /** `hi << 4 | lo` of two nibbles is the byte 16 * hi + lo. */
  lemma NibblesOr(hi: nat, lo: nat)
    requires hi < 16 && lo < 16
    ensures BitOr(hi * Pow2(4), lo) == 16 * hi + lo < 0x100
  {
    BitOrDisjoint(lo, hi, 4);
    BitOrCommutes(lo, hi * Pow2(4));
    assert Pow2(4) == 16;
  }

  /** Lower-case hex text of a byte string, two digits per byte. */
  function ToHex(bytes: seq<u8>): (s: string)
    ensures |s| == 2 * |bytes|
  {
    if bytes == [] then [] else [HexDigit(bytes[0] / 16), HexDigit(bytes[0] % 16)] + ToHex(bytes[1..])
  }

  /** Decoding the hex text of any byte string gives the bytes back. */
  lemma {:induction false} HexRoundTrip(bytes: seq<u8>)
    ensures HexStringToArray(|bytes|, ToHex(bytes)) == Ok(bytes)
  {
    var s := ToHex(bytes);
    ToHexDigits(bytes);
    var r := HexStringToArray(|bytes|, s);
    forall i | 0 <= i < |bytes| ensures r.value[i] == bytes[i] {
      HexRoundTripAt(bytes, i);
    }
    assert r.value == bytes;
  }

  /** The two digits of byte i decode to it. */
  lemma HexRoundTripAt(bytes: seq<u8>, i: nat)
    requires i < |bytes|
    ensures IsHexDigit(ToHex(bytes)[2 * i]) && IsHexDigit(ToHex(bytes)[2 * i + 1])
    ensures 16 * HexDigitToByte(ToHex(bytes)[2 * i]).value + HexDigitToByte(ToHex(bytes)[2 * i + 1]).value == bytes[i]
  {
    ToHexAt(bytes, i);
    HexDigitRoundTrip(bytes[i] / 16);
    HexDigitRoundTrip(bytes[i] % 16);
  }

  lemma {:induction false} ToHexDigits(bytes: seq<u8>)
    ensures forall i :: 0 <= i < |ToHex(bytes)| ==> IsHexDigit(ToHex(bytes)[i])
  {
    if bytes != [] { ToHexDigits(bytes[1..]); }
  }

  lemma {:induction false} ToHexAt(bytes: seq<u8>, i: nat)
    requires i < |bytes|
    ensures ToHex(bytes)[2 * i] == HexDigit(bytes[i] / 16)
    ensures ToHex(bytes)[2 * i + 1] == HexDigit(bytes[i] % 16)
  {
    if i > 0 { ToHexAt(bytes[1..], i - 1); }
  }

  // ---------------------------------------------------------------------------
  // span helpers (common.h:219-250)
  // ---------------------------------------------------------------------------

  /** `as<Out>`: a view of the first sizeof(Out) bytes; a shorter span throws. */
  function SpanAs(bytes: seq<u8>, outSize: nat): (r: Result<seq<u8>>)
    ensures r.Ok? <==> |bytes| >= outSize
    ensures r.Ok? ==> r.value == bytes[..outSize]
  {
    if |bytes| >= outSize then Ok(bytes[..outSize]) else Err("Span size is less than Out type size")
  }

  /** Viewing a span as an object of its first bytes' size gives back those
      bytes, whatever follows them. */
  lemma SpanAsReadsPrefix(head: seq<u8>, rest: seq<u8>)
    ensures SpanAs(head + rest, |head|) == Ok(head)
  {
    assert (head + rest)[..|head|] == head;
  }

  /** `as_string`: the whole span, or the part before its first NUL. */
  function SpanAsString(bytes: seq<u8>, nullTerminated: bool): (r: seq<u8>)
    ensures r <= bytes
    ensures !nullTerminated ==> r == bytes
    ensures nullTerminated ==> 0 !in r && (|r| < |bytes| ==> bytes[|r|] == 0)
  {
    if nullTerminated then UntilNul(bytes) else bytes
  }

  /** The prefix of a byte string before its first NUL. */
  function UntilNul(bytes: seq<u8>): (r: seq<u8>)
    ensures r <= bytes && 0 !in r && (|r| < |bytes| ==> bytes[|r|] == 0)
  {
    if bytes == [] || bytes[0] == 0 then [] else [bytes[0]] + UntilNul(bytes[1..])
  }

  /** A NUL-free string padded with NULs reads back up to its first NUL. */
  lemma {:induction false} UntilNulPadded(s: seq<u8>, k: nat)
    requires 0 !in s
    ensures UntilNul(s + seq(k, _ => 0)) == s
  {
    if s == [] {
      if k > 0 { assert ([] + seq(k, _ => 0))[0] == 0; }
    } else {
      assert (s + seq(k, _ => 0))[1..] == s[1..] + seq(k, _ => 0);
      UntilNulPadded(s[1..], k);
    }
  }

  /** `cast<Out>`: the span re-read as whole elements of sizeof(Out) bytes;
      a byte size that is not a multiple throws. */
  function SpanCast(bytes: seq<u8>, outSize: nat): (r: Result<seq<seq<u8>>>)
    requires outSize > 0
    ensures r.Ok? <==> |bytes| % outSize == 0
    ensures r.Ok? ==> |r.value| == |bytes| / outSize
  {
    IsAlignedIsDivisibility(|bytes| % U64_MODULUS, outSize % U64_MODULUS);
    if |bytes| % outSize == 0 then Ok(Chunks(bytes, outSize))
    else Err("Span size not aligned with Out type size")
  }

  function Chunks(bytes: seq<u8>, size: nat): (r: seq<seq<u8>>)
    requires size > 0 && |bytes| % size == 0
    ensures |r| == |bytes| / size
    decreases |bytes|
  {
    if bytes == [] then []
    else
      assert |bytes[size..]| == |bytes| - size;
      ModUnique(|bytes| - size, size, |bytes| / size - 1, 0);
      [bytes[..size]] + Chunks(bytes[size..], size)
  }

  function Flatten(chunks: seq<seq<u8>>): seq<u8>
  {
    if chunks == [] then [] else chunks[0] + Flatten(chunks[1..])
  }

  /** Element i of a cast view is bytes [i*size, (i+1)*size), and the
      elements laid end to end are the original span. */
  lemma {:induction false} SpanCastRoundTrip(bytes: seq<u8>, outSize: nat)
    requires outSize > 0 && |bytes| % outSize == 0
    ensures SpanCast(bytes, outSize).Ok?
    ensures Flatten(SpanCast(bytes, outSize).value) == bytes
    ensures forall i :: 0 <= i < |bytes| / outSize ==> |SpanCast(bytes, outSize).value[i]| == outSize
    decreases |bytes|
  {
    ChunksFlatten(bytes, outSize);
  }

  lemma {:induction false} ChunksFlatten(bytes: seq<u8>, size: nat)
    requires size > 0 && |bytes| % size == 0
    ensures Flatten(Chunks(bytes, size)) == bytes
    ensures forall i :: 0 <= i < |bytes| / size ==> |Chunks(bytes, size)[i]| == size
    decreases |bytes|
  {
    if bytes != [] {
      assert |bytes[size..]| == |bytes| - size;
      ModUnique(|bytes| - size, size, |bytes| / size - 1, 0);
      ChunksFlatten(bytes[size..], size);
      assert bytes[..size] + bytes[size..] == bytes;
    }
  }

  /** The byte count `copy_from` moves: `amount` elements of `inSize` bytes, or
      the whole source span when `amount` is 0. */
  function CopySize(srcBytes: nat, inSize: nat, amount: nat): nat
  {
    if amount != 0 then amount * inSize else srcBytes
  }

  /** `copy_from`: throws when the destination is smaller than the byte count,
      otherwise moves that many source bytes to the front of the destination. */
  method CopyFrom(dest: array<u8>, src: seq<u8>, inSize: nat, amount: nat) returns (r: Result<()>)
    requires CopySize(|src|, inSize, amount) <= |src|
    modifies dest
    ensures r.Ok? <==> CopySize(|src|, inSize, amount) <= dest.Length
    ensures r.Ok? ==> dest[..] == src[..CopySize(|src|, inSize, amount)]
                                  + old(dest[..])[CopySize(|src|, inSize, amount)..]
    ensures r.Err? ==> dest[..] == old(dest[..])
  {
    var size := CopySize(|src|, inSize, amount);
    if dest.Length < size {
      return Err("Data being copied is larger than this span");
    }
    forall i | 0 <= i < size {
      dest[i] := src[i];
    }
    r := Ok(());
  }
}
