// The seed primitives every protection module builds on: the build-time seed,
// the global seed cell, seed mixing, and the opaque predicates.
module Primitives {
  import opened W = Word
  import Bits

  // ---------------------------------------------------------------------
  // compile_time_seed and global_seed
  // ---------------------------------------------------------------------

  predicate IsDigit(c: char)
  {
    '0' <= c <= '9'
  }

  function DigitValue(c: char): int
  {
    c as int - '0' as int
  }

  /** A `__TIME__` text: "hh:mm:ss" with a valid clock time. */
  predicate IsClock(time: string)
  {
    |time| == 8 && time[2] == ':' && time[5] == ':'
    && IsDigit(time[0]) && IsDigit(time[1]) && IsDigit(time[3])
    && IsDigit(time[4]) && IsDigit(time[6]) && IsDigit(time[7])
    && Hours(time) < 24 && Minutes(time) < 60 && Seconds(time) < 60
  }

  function Hours(time: string): int requires |time| == 8
  {
    10 * DigitValue(time[0]) + DigitValue(time[1])
  }

  function Minutes(time: string): int requires |time| == 8
  {
    10 * DigitValue(time[3]) + DigitValue(time[4])
  }

  function Seconds(time: string): int requires |time| == 8
  {
    10 * DigitValue(time[6]) + DigitValue(time[7])
  }

  /**
   * compile_time_seed(): the six digit characters of the build time weighted
   * 36000, 3600, 600, 60, 10 and 1 and summed, as a uint32_t. For a clock time
   * this is the number of seconds since midnight.
   */
  function CompileTimeSeed(time: string): (r: Word)
    requires |time| == 8
    ensures IsClock(time) ==> r == 3600 * Hours(time) + 60 * Minutes(time) + Seconds(time)
  {
    Wrap(DigitValue(time[0]) * 36000 + DigitValue(time[1]) * 3600
         + DigitValue(time[3]) * 600 + DigitValue(time[4]) * 60
         + DigitValue(time[6]) * 10 + DigitValue(time[7]))
  }

  lemma CompileTimeSeedBound(time: string)
    requires IsClock(time)
    ensures CompileTimeSeed(time) <= 86399
  {
  }

  /**
   * The initial value of global_seed: compile_time_seed() converted to int.
   * The cell holds the 32-bit pattern; for a clock time the int is the seed itself.
   */
  function InitialGlobalSeed(time: string): (r: Word)
    requires |time| == 8
    ensures IsClock(time) ==> ToInt32(r) == r <= 86399
  {
    CompileTimeSeed(time)
  }

  /** The global seed: one mutable int, held as its 32-bit pattern. */
  class SeedCell {
    var value: Word

    constructor (initial: Word)
      ensures value == initial
    {
      value := initial;
    }
  }

  // ---------------------------------------------------------------------
  // mix_seed and volatile_seed_update
  // ---------------------------------------------------------------------

  /** mix_seed(a, b): (a ^ b) * 0x9e3779b9 in 32 bits. */
  function MixSeed(a: Word, b: Word): Word
  {
    Mul(BitXor(a, b), 0x9e3779b9)
  }

  lemma MixSeedSymmetric(a: Word, b: Word)
    ensures MixSeed(a, b) == MixSeed(b, a)
  {
    BitXorComm(a, b);
  }

  lemma MixSeedSelf(a: Word)
    ensures MixSeed(a, a) == 0
  {
    BitXorSelf(a);
  }

  /** Multiplying by 0x9e3779b9 in 32 bits is one-to-one: the constant is odd. */
  lemma GoldenMulInjective(u: Word, v: Word)
    ensures Mul(u, 0x9e3779b9) == Mul(v, 0x9e3779b9) ==> u == v
  {
    if Mul(u, 0x9e3779b9) == Mul(v, 0x9e3779b9) {
      var d := u - v;
      var q := u * 0x9e3779b9 / 0x1_0000_0000 - v * 0x9e3779b9 / 0x1_0000_0000;
      assert d * 0x9e3779b9 == 0x1_0000_0000 * q;
      assert 0x9e3779b9 * 340573321 == 1 + 210485888 * 0x1_0000_0000;
      assert d * (0x9e3779b9 * 340573321) == (d * 0x9e3779b9) * 340573321;
      assert d + d * 210485888 * 0x1_0000_0000 == 0x1_0000_0000 * q * 340573321;
      assert d == 0x1_0000_0000 * (q * 340573321 - d * 210485888);
    }
  }

  /** With one operand fixed, mix_seed determines the other. */
  lemma MixSeedInjective(a: Word, b: Word, c: Word)
    ensures MixSeed(a, b) == MixSeed(a, c) ==> b == c
  {
    GoldenMulInjective(BitXor(a, b), BitXor(a, c));
    BitXorInjective(a, b, c);
  }

  /** The seed after one volatile_seed_update: its pattern xor 0xDEADBEEF. */
  function SeedToggle(seed: Word): Word
  {
    BitXor(seed, 0xDEAD_BEEF)
  }

  lemma SeedToggleInvolution(seed: Word)
    ensures SeedToggle(SeedToggle(seed)) == seed
  {
    BitXorCancel(seed, 0xDEAD_BEEF);
  }

  /** volatile_seed_update(seed): toggles the referenced seed. */
  method VolatileSeedUpdate(seed: SeedCell)
    modifies seed
    ensures seed.value == SeedToggle(old(seed.value))
  {
    seed.value := SeedToggle(seed.value);
  }

  /** Two updates in a row leave the seed as it was. */
  method VolatileSeedUpdateTwice(seed: SeedCell)
    modifies seed
    ensures seed.value == old(seed.value)
  {
    VolatileSeedUpdate(seed);
    VolatileSeedUpdate(seed);
    SeedToggleInvolution(old(seed.value));
  }

  // ---------------------------------------------------------------------
  // opaque_true and opaque_false on integral values
  // ---------------------------------------------------------------------

  type Int64 = x: int | -0x8000_0000_0000_0000 <= x < 0x8000_0000_0000_0000

  /** The 64-bit two's-complement pattern of `x`. */
  function Wrap64(x: int): (r: nat)
    ensures r < 0x1_0000_0000_0000_0000
  {
    x % 0x1_0000_0000_0000_0000
  }

  /** The int64_t whose pattern is `p`. */
  function ToInt64(p: nat): Int64
    requires p < 0x1_0000_0000_0000_0000
  {
    if p < 0x8000_0000_0000_0000 then p else p - 0x1_0000_0000_0000_0000
  }

  /** static_cast<int64_t>(value) ^ seed, with the int seed sign-extended. */
  function Mixed(value: Int64, seed: Int32): Int64
  {
    Bits.Pow2Of64();
    Bits.XorBound(Wrap64(value), Wrap64(seed), 64);
    ToInt64(Bits.Xor(Wrap64(value), Wrap64(seed), 64))
  }

  /**
   * opaque_true as written: mixed * mixed >= 0 with the product taken in
   * int64_t. A square of 2^63 or more overflows, which C++ leaves undefined;
   * the model takes it modulo 2^64, as a wrapping build computes it.
   */
  function OpaqueTrue(value: Int64, seed: Int32): bool
  {
    var m := Mixed(value, seed);
    ToInt64(Wrap64(m * m)) >= 0
  }

  /** opaque_false as written: mixed * mixed < 0 in int64_t. */
  function OpaqueFalse(value: Int64, seed: Int32): (r: bool)
    ensures r == !OpaqueTrue(value, seed)
  {
    var m := Mixed(value, seed);
    ToInt64(Wrap64(m * m)) < 0
  }

  /** opaque_true with the square taken exactly: a predicate that always holds. */
  function OpaqueTrueCorrected(value: Int64, seed: Int32): (r: bool)
    ensures r
  {
    var m := Mixed(value, seed);
    m * m >= 0
  }

  /** opaque_false with the square taken exactly: a predicate that never holds. */
  function OpaqueFalseCorrected(value: Int64, seed: Int32): (r: bool)
    ensures !r
  {
    var m := Mixed(value, seed);
    m * m < 0
  }

  /** A 64-bit-wide value 0xFFFFFFFF with seed 0 overflows the int64 square; wrapped, it is negative. */
  lemma OpaqueTrueOverflow(value: Int64, seed: Int32)
    requires value == 0xFFFF_FFFF && seed == 0
    ensures Mixed(value, seed) == 0xFFFF_FFFF
    ensures !OpaqueTrue(value, seed) && OpaqueFalse(value, seed)
  {
    Bits.Pow2Of64();
    Bits.XorZero(0xFFFF_FFFF, 64);
    SquareOfWordMax(Mixed(value, seed));
  }

  lemma SquareOfWordMax(m: Int64)
    requires m == 0xFFFF_FFFF
    ensures ToInt64(Wrap64(m * m)) < 0
  {
    assert m * m == 0xFFFF_FFFE_0000_0001;
  }

  /** With operands that fit in int, the mixed value is the int xor of the two. */
  lemma MixedInt32(value: Int32, seed: Int32)
    ensures Mixed(value, seed) == ToInt32(BitXor(FromInt32(value), FromInt32(seed)))
  {
    var x := BitXor(FromInt32(value), FromInt32(seed));
    PatternOfMixed(value, seed);
    FromInt32Value(value);
    FromInt32Value(seed);
    XorSignBit(FromInt32(value), FromInt32(seed));
    JoinSigned(x, SignDiff(value, seed));
    MixedOfPattern(value, seed, x + 0x1_0000_0000 * SignDiff(value, seed));
  }

  /** The high word of the mixed pattern: all ones when the signs differ. */
  function SignDiff(x: Int32, y: Int32): Word
  {
    if (x < 0) == (y < 0) then 0 else 0xFFFF_FFFF
  }

  lemma PatternOfMixed(value: Int32, seed: Int32)
    ensures Bits.Xor(Wrap64(value), Wrap64(seed), 64)
         == BitXor(FromInt32(value), FromInt32(seed)) + 0x1_0000_0000 * SignDiff(value, seed)
  {
    var x := BitXor(FromInt32(value), FromInt32(seed));
    XorOfExtended(value, seed);
    SignFillXor(value, seed);
    ConcatWord(x, SignDiff(value, seed));
  }

  lemma MixedOfPattern(value: Int64, seed: Int32, p: nat)
    requires p < 0x1_0000_0000_0000_0000
    requires Bits.Xor(Wrap64(value), Wrap64(seed), 64) == p
    ensures Mixed(value, seed) == ToInt64(p)
  {
  }

  lemma ConcatWord(x: Word, h: nat)
    ensures Bits.Concat(x, h, 32) == x + 0x1_0000_0000 * h
  {
    Bits.Pow2Of32();
    Bits.ConcatValue(x, h, 32);
  }

  /** Xor of two sign-extended ints, split into its low and high words. */
  lemma XorOfExtended(value: Int32, seed: Int32)
    ensures Bits.Xor(Wrap64(value), Wrap64(seed), 64)
         == Bits.Concat(BitXor(FromInt32(value), FromInt32(seed)), Bits.Xor(SignFill(value), SignFill(seed), 32), 32)
  {
    var a, b := FromInt32(value), FromInt32(seed);
    SignExtend(value);
    SignExtend(seed);
    Bits.ConcatParts(a, SignFill(value), 32);
    Bits.ConcatParts(b, SignFill(seed), 32);
    Bits.XorConcat(Wrap64(value), Wrap64(seed), 32, 32, 64);
  }

  /** The high 32 bits of a sign-extended int: all ones for a negative value. */
  function SignFill(x: Int32): Word
  {
    if x < 0 then 0xFFFF_FFFF else 0
  }

  lemma SignExtend(x: Int32)
    ensures Bits.Pow2(32) == 0x1_0000_0000
    ensures Wrap64(x) == Bits.Concat(FromInt32(x), SignFill(x), 32)
  {
    Bits.Pow2Of32();
    ConcatWord(FromInt32(x), SignFill(x));
    FromInt32Value(x);
    Wrap64Value(x);
  }

  lemma Wrap64Value(x: Int32)
    ensures Wrap64(x) == if x < 0 then x + 0x1_0000_0000_0000_0000 else x
  {
    if x < 0 {
      Wrap64Shift(x, x + 0x1_0000_0000_0000_0000);
    }
  }

  lemma Wrap64Shift(x: int, y: nat)
    requires y == x + 0x1_0000_0000_0000_0000 && y < 0x1_0000_0000_0000_0000
    ensures Wrap64(x) == y
  {
  }

  lemma SignFillXor(x: Int32, y: Int32)
    ensures Bits.Xor(SignFill(x), SignFill(y), 32) == SignDiff(x, y)
  {
    Bits.Pow2Of32();
    Bits.XorSelf(SignFill(x), 32);
    Bits.XorZero(SignFill(x), 32);
    Bits.XorComm(SignFill(x), SignFill(y), 32);
    Bits.XorZero(SignFill(y), 32);
  }

  /** The top bit of a 32-bit xor is the xor of the top bits. */
  lemma XorSignBit(a: Word, b: Word)
    ensures (BitXor(a, b) >= 0x8000_0000) == ((a >= 0x8000_0000) != (b >= 0x8000_0000))
  {
    TopBit(a);
    TopBit(b);
    XorSplitTop(a, b);
    TopXor(Bits.HighPart(a, 31), Bits.HighPart(b, 31));
  }

  lemma XorSplitTop(a: Word, b: Word)
    ensures var low := Bits.Xor(Bits.LowPart(a, 31), Bits.LowPart(b, 31), 31);
      low < 0x8000_0000 &&
      BitXor(a, b) == low + 0x8000_0000 * Bits.Xor(Bits.HighPart(a, 31), Bits.HighPart(b, 31), 1)
  {
    Bits.Pow2Of64();
    var low := Bits.Xor(Bits.LowPart(a, 31), Bits.LowPart(b, 31), 31);
    var top := Bits.Xor(Bits.HighPart(a, 31), Bits.HighPart(b, 31), 1);
    Bits.XorConcat(a, b, 31, 1, 32);
    Bits.XorBound(Bits.LowPart(a, 31), Bits.LowPart(b, 31), 31);
    Bits.ConcatValue(low, top, 31);
  }

  lemma TopXor(h1: nat, h2: nat)
    requires h1 < 2 && h2 < 2
    ensures Bits.Xor(h1, h2, 1) == Bits.Bit(h1 != h2)
  {
  }

  lemma TopBit(a: Word)
    ensures Bits.Pow2(31) == 0x8000_0000
    ensures Bits.HighPart(a, 31) < 2
    ensures Bits.HighPart(a, 31) == 1 <==> a >= 0x8000_0000
  {
    Bits.Pow2Of64();
    Bits.LowHigh(a, 31);
    Bits.ConcatValue(Bits.LowPart(a, 31), Bits.HighPart(a, 31), 31);
  }

  lemma JoinSigned(x: Word, h: nat)
    requires h == 0 || h == 0xFFFF_FFFF
    requires h == 0xFFFF_FFFF <==> x >= 0x8000_0000
    ensures x + 0x1_0000_0000 * h < 0x1_0000_0000_0000_0000
    ensures ToInt64(x + 0x1_0000_0000 * h) == ToInt32(x)
  {
  }

  /** The square of an int-sized value stays below 2^62 and does not wrap. */
  lemma SquareFits(m: int)
    requires -0x8000_0000 <= m < 0x8000_0000
    ensures ToInt64(Wrap64(m * m)) == m * m
  {
    var n := if m < 0 then -m else m;
    var q := m * m;
    assert q == n * n;
    MulBound(n, n, 0x8000_0000);
    assert 0 <= q <= 0x4000_0000_0000_0000;
    assert Wrap64(q) == q;
  }

  lemma MulBound(x: nat, y: nat, c: nat)
    requires x <= c && y <= c
    ensures x * y <= c * c
  {
    assert x * y <= c * y;
    assert c * y <= c * c;
  }

  /**
   * For values and seeds that fit in int, opaque_true holds and opaque_false
   * fails: on those inputs the code as written agrees with the corrected form.
   */
  lemma OpaqueOnInt32(value: Int32, seed: Int32)
    ensures OpaqueTrue(value, seed) == OpaqueTrueCorrected(value, seed) == true
    ensures OpaqueFalse(value, seed) == OpaqueFalseCorrected(value, seed) == false
  {
    MixedInt32(value, seed);
    SquareFits(Mixed(value, seed));
  }

  /** A value mixed with itself is zero. */
  lemma MixedSelf(x: Int32)
    ensures Mixed(x, x) == 0
  {
    Bits.XorSelf(Wrap64(x), 64);
  }
}
