// C++ fixed-width integers. A `uint32_t` is an integer in [0, 2^32) and every
// unsigned operation reduces its result modulo 2^32; an `int` is an integer in
// the signed 32-bit range, converted to and from its 32-bit pattern in two's
// complement, as C++20 defines those conversions.
module Word {
  import Bits


  type Word = x: int | 0 <= x < 0x1_0000_0000
  type Int32 = x: int | -0x8000_0000 <= x < 0x8000_0000
  type Byte = x: int | 0 <= x < 0x100

  /** Reduction modulo 2^32, the wrap-around of unsigned arithmetic. */
  function Wrap(x: int): Word
  {
    x % 0x1_0000_0000
  }

  function Add(a: Word, b: Word): Word { Wrap(a + b) }
  function Sub(a: Word, b: Word): Word { Wrap(a - b) }
  function Mul(a: Word, b: Word): Word { Wrap(a * b) }
  function Neg(a: Word): Word { Wrap(-(a as int)) }

  function BitXor(a: Word, b: Word): Word
  {
    Bits.Pow2Of32();
    Bits.XorBound(a, b, 32);
    Bits.Xor(a, b, 32)
  }

  function BitAnd(a: Word, b: Word): Word
  {
    Bits.Pow2Of32();
    Bits.AndBound(a, b, 32);
    Bits.And(a, b, 32)
  }

  function BitOr(a: Word, b: Word): Word
  {
    Bits.Pow2Of32();
    Bits.OrBound(a, b, 32);
    Bits.Or(a, b, 32)
  }

  function BitNot(a: Word): Word
  {
    Bits.Pow2Of32();
    Bits.NotBound(a, 32);
    Bits.Not(a, 32)
  }

  /** `a << k` for a shift count below the width. */
  function Shl(a: Word, k: nat): Word
    requires k < 32
  {
    Wrap(a * Bits.Pow2(k))
  }

  /** `a >> k` for a shift count below the width. */
  function Shr(a: Word, k: nat): Word
    requires k < 32
  {
    DivShrinks(a, Bits.Pow2(k));
    a / Bits.Pow2(k)
  }

  lemma DivShrinks(a: nat, p: nat)
    requires p >= 1
    ensures a / p <= a
  {
  }

  /** The 32-bit pattern of an `int` (static_cast<uint32_t>). */
  function FromInt32(x: Int32): Word
  {
    Wrap(x)
  }

  /** The `int` whose pattern is `a` (static_cast<int32_t>). */
  function ToInt32(a: Word): Int32
  {
    if a < 0x8000_0000 then a else a - 0x1_0000_0000
  }

  /** C++ `%` on signed operands: the remainder takes the sign of the dividend. */
  function CRem(a: int, m: int): (r: int)
    requires m > 0
    ensures a >= 0 ==> 0 <= r < m
    ensures a < 0 ==> -m < r <= 0
  {
    if a >= 0 then a % m else -((-a) % m)
  }

  lemma FromInt32Value(x: Int32)
    ensures FromInt32(x) == if x < 0 then x + 0x1_0000_0000 else x
  {
    if x < 0 {
      WrapShift(x, x + 0x1_0000_0000, -1);
    }
  }

  lemma FromToInt32(a: Word)
    ensures FromInt32(ToInt32(a)) == a
  {
  }

  lemma ToFromInt32(x: Int32)
    ensures ToInt32(FromInt32(x)) == x
  {
  }

  lemma BitNotValue(a: Word)
    ensures BitNot(a) == 0xFFFF_FFFF - a
  {
    Bits.Pow2Of32();
    Bits.NotValue(a, 32);
  }

  lemma BitXorComm(a: Word, b: Word)
    ensures BitXor(a, b) == BitXor(b, a)
  {
    Bits.XorComm(a, b, 32);
  }

  lemma BitXorCancel(a: Word, b: Word)
    ensures BitXor(BitXor(a, b), b) == a
  {
    Bits.Pow2Of32();
    Bits.XorCancel(a, b, 32);
  }

  lemma BitXorSelf(a: Word)
    ensures BitXor(a, a) == 0
  {
    Bits.XorSelf(a, 32);
  }

  lemma BitXorZero(a: Word)
    ensures BitXor(a, 0) == a
  {
    Bits.Pow2Of32();
    Bits.XorZero(a, 32);
  }

  /** Exclusive or with a fixed word is one-to-one. */
  lemma BitXorInjective(a: Word, b: Word, c: Word)
    ensures BitXor(a, b) == BitXor(a, c) ==> b == c
  {
    BitXorComm(a, b);
    BitXorComm(a, c);
    BitXorCancel(b, a);
    BitXorCancel(c, a);
  }

  /** Exclusive or keeps a value below 2^31 when both operands are. */
  lemma BitXorBelow31(a: Word, b: Word)
    requires a < 0x8000_0000 && b < 0x8000_0000
    ensures BitXor(a, b) < 0x8000_0000
  {
    Bits.Pow2Of32();
    Bits.Pow2Of64();
    Bits.XorConcat(a, b, 31, 1, 32);
    Bits.LowPartOfSmall(a, 31);
    Bits.LowPartOfSmall(b, 31);
    assert Bits.Xor(0, 0, 1) == 0;
    Bits.XorBound(a, b, 31);
    Bits.ConcatValue(Bits.Xor(a, b, 31), 0, 31);
  }

  /** Or-ing a zero-filled word with a value is the value itself. */
  lemma BitOrZero(a: Word)
    ensures BitOr(0, a) == a
  {
    Bits.Pow2Of32();
    Bits.AndZero(a, 32);
    Bits.AndComm(a, 0, 32);
    Bits.OrDisjoint(0, a, 32);
  }

  /** Or of a value below 2^k and a multiple of 2^k is their sum. */
  lemma BitOrDisjoint(low: Word, high: Word, c: nat, k: nat)
    requires low < Bits.Pow2(k) && high == c * Bits.Pow2(k)
    ensures BitOr(low, high) == low + high
  {
    Bits.Pow2Of32();
    Bits.AndLowHigh(low, c, k, 32);
    Bits.OrDisjoint(low, high, 32);
  }

  /** Masking with 2^31 - 1 keeps the remainder modulo 2^31. */
  lemma BitAndLow31(a: Word)
    ensures BitAnd(a, 0x7FFF_FFFF) == a % 0x8000_0000
  {
    Bits.Pow2Of32();
    assert Bits.Pow2(31) == 0x8000_0000;
    var lo, hi := Bits.LowPart(a, 31), Bits.HighPart(a, 31);
    Bits.AndLowMask(a, 31, 32);
    assert Bits.LowMask(31) == 0x7FFF_FFFF;
    Bits.LowHigh(a, 31);
    Bits.ConcatValue(lo, hi, 31);
    ModSplit31(a, lo, hi);
  }

  lemma ModSplit31(a: Word, lo: nat, hi: nat)
    requires lo < 0x8000_0000 && a == lo + 0x8000_0000 * hi
    ensures a % 0x8000_0000 == lo
  {
    assert hi == 0 || hi == 1;
  }

  /** Masking with 3 keeps the remainder modulo 4. */
  lemma BitAndLow2(a: Word)
    ensures BitAnd(a, 3) == a % 4
  {
    Bits.AndLowMask(a, 2, 32);
    assert Bits.LowMask(2) == 3;
    assert Bits.LowPart(a, 2) == a % 2 + 2 * ((a / 2) % 2);
    Mod4(a);
  }

  lemma Mod4(a: nat)
    ensures a % 4 == a % 2 + 2 * ((a / 2) % 2)
  {
    var h, b := a / 2, a % 2;
    var g, c := h / 2, h % 2;
    assert a == 2 * h + b && h == 2 * g + c;
    assert a == 4 * g + (2 * c + b) && 0 <= 2 * c + b < 4;
    DivModUnique(a, g, 2 * c + b);
  }

  lemma DivModUnique(a: nat, q: nat, r: nat)
    requires a == 4 * q + r && r < 4
    ensures a % 4 == r
  {
  }

  lemma BitAndOne(a: Word)
    ensures BitAnd(a, 1) == a % 2
  {
    Bits.AndOne(a, 32);
  }

  // Congruence modulo 2^32. Each step lemma states that a wrapped expression
  // equals a given value once the exact values are related, so that callers
  // need no reasoning about `%` with bitwise terms in scope.

  /** Values that differ by a multiple of 2^32 wrap to the same word. */
  lemma WrapShift(x: int, y: int, k: int)
    requires x == y + 0x1_0000_0000 * k
    ensures Wrap(x) == Wrap(y)
  {
  }

  lemma WrapWord(x: Word)
    ensures Wrap(x) == x
  {
  }

  lemma WrapAddLeft(x: int, y: int)
    ensures Wrap(Wrap(x) + y) == Wrap(x + y)
  {
    WrapShift(Wrap(x) + y, x + y, -(x / 0x1_0000_0000));
  }

  lemma WrapAddRight(x: int, y: int)
    ensures Wrap(x + Wrap(y)) == Wrap(x + y)
  {
    WrapShift(x + Wrap(y), x + y, -(y / 0x1_0000_0000));
  }

  lemma WrapSubLeft(x: int, y: int)
    ensures Wrap(Wrap(x) - y) == Wrap(x - y)
  {
    WrapShift(Wrap(x) - y, x - y, -(x / 0x1_0000_0000));
  }

  lemma WrapSubRight(x: int, y: int)
    ensures Wrap(x - Wrap(y)) == Wrap(x - y)
  {
    WrapShift(x - Wrap(y), x - y, y / 0x1_0000_0000);
  }

  /** An exact value that is already a word wraps to itself. */
  lemma WrapExact(x: int, r: Word)
    requires x == r
    ensures Wrap(x) == r
  {
  }

  lemma AddSubCancel(a: Word, b: Word)
    ensures Sub(Add(a, b), b) == a
  {
    WrapSubLeft(a + b, b);
  }

  lemma AddDouble(x: Word, n: Word, a: Word, b: Word)
    requires a + b == x + 2 * n
    ensures Add(x, Mul(2, n)) == Add(a, b) && Add(x, Shl(n, 1)) == Add(a, b)
  {
    assert Bits.Pow2(1) == 2;
    WrapAddRight(x, 2 * n);
    WrapShift(x + 2 * n, a + b, 0);
  }

  lemma SubDouble(x: Word, n: Word, a: Word, b: Word)
    requires a - b == x - 2 * n
    ensures Sub(x, Mul(2, n)) == Sub(a, b) && Sub(x, Shl(n, 1)) == Sub(a, b)
  {
    assert Bits.Pow2(1) == 2;
    WrapSubRight(x, 2 * n);
    WrapShift(x - 2 * n, a - b, 0);
  }

  lemma DoubleSubSum(o: Word, x: Word, a: Word, b: Word)
    requires a + b == 2 * o - x
    ensures Sub(Mul(2, o), x) == Add(a, b)
  {
    WrapSubLeft(2 * o, x);
    WrapShift(2 * o - x, a + b, 0);
  }

  lemma DoubleSubDiff(o: Word, x: Word, a: Word, b: Word)
    requires a - b == 2 * o - x
    ensures Sub(Mul(2, o), x) == Sub(a, b)
  {
    WrapSubLeft(2 * o, x);
    WrapShift(2 * o - x, a - b, 0);
  }

  lemma SameSum(o: Word, n: Word, a: Word, b: Word)
    requires o + n == a + b
    ensures Add(o, n) == Add(a, b)
  {
    WrapShift(o + n, a + b, 0);
  }

  lemma SameDiff(p: Word, q: Word, a: Word, b: Word)
    requires p - q == a - b
    ensures Sub(p, q) == Sub(a, b)
  {
    WrapShift(p - q, a - b, 0);
  }

  lemma SubExact(o: Word, n: Word, x: Word)
    requires o == x + n
    ensures Sub(o, n) == x
  {
    WrapExact(o - n, x);
  }

  lemma AddExact(x: Word, n: Word, o: Word)
    requires x + n == o
    ensures Add(x, n) == o && Add(n, x) == o
  {
    WrapExact(x + n, o);
    WrapExact(n + x, o);
  }

  lemma SumSub(a: Word, b: Word, y: Word, d: int)
    requires d == a + b - y
    ensures Sub(Add(a, b), y) == Wrap(d)
  {
    WrapSubLeft(a + b, y);
    WrapShift(a + b - y, d, 0);
  }

  lemma SumSubExact(a: Word, b: Word, y: Word, r: Word)
    requires a + b - y == r
    ensures Sub(Add(a, b), y) == r
  {
    WrapSubLeft(a + b, y);
    WrapExact(a + b - y, r);
  }

  lemma SumSubDouble(a: Word, b: Word, n: Word, r: Word)
    requires a + b - 2 * n == r
    ensures Sub(Add(a, b), Mul(2, n)) == r
  {
    WrapSubLeft(a + b, Mul(2, n));
    WrapSubRight(a + b, 2 * n);
    WrapExact(a + b - 2 * n, r);
  }

  lemma SumSubSub(a: Word, b: Word, x: Word, n: Word, r: Word)
    requires a + b - x - n == r
    ensures Sub(Sub(Add(a, b), x), n) == r
  {
    WrapSubLeft(a + b, x);
    WrapSubLeft(a + b - x, n);
    WrapExact(a + b - x - n, r);
  }

  lemma DiffAddDouble(a: Word, b: Word, q: Word, r: Word)
    requires a - b + 2 * q == r
    ensures Add(Sub(a, b), Mul(2, q)) == r
  {
    WrapAddLeft(a - b, Mul(2, q));
    WrapAddRight(a - b, 2 * q);
    WrapExact(a - b + 2 * q, r);
  }

  /** a + b == x + 2n wraps to x + n exactly when n is 0. */
  lemma SumEqualsHalf(a: Word, b: Word, x: Word, n: Word, o: Word)
    requires a + b == x + 2 * n && o == x + n
    ensures Add(a, b) == o <==> n == 0
  {
    if a + b >= 0x1_0000_0000 {
      WrapShift(a + b, a + b - 0x1_0000_0000, 1);
      WrapWord(a + b - 0x1_0000_0000);
    } else {
      WrapWord(a + b);
    }
  }

  /** 2n wraps back to n only for n == 0. */
  lemma DoubleEqualsSelf(n: Word)
    ensures Wrap(2 * n) == n <==> n == 0
  {
    if n >= 0x8000_0000 {
      WrapShift(2 * n, 2 * n - 0x1_0000_0000, 1);
      WrapWord(2 * n - 0x1_0000_0000);
    } else {
      WrapWord(2 * n);
    }
  }

  /** a - ~b - 1 is a + b and a + ~b + 1 is a - b. */
  lemma ComplementSteps(a: Word, nb: Word, b: Word)
    requires nb == 0xFFFF_FFFF - b
    ensures Sub(Sub(a, nb), 1) == Add(a, b)
    ensures Add(Add(a, nb), 1) == Sub(a, b)
  {
    WrapSubLeft(a - nb, 1);
    WrapShift(a - nb - 1, a + b, -1);
    WrapAddLeft(a + nb, 1);
    WrapShift(a + nb + 1, a - b, 1);
  }

  /** The three arithmetic forms of ~a: -a - 1, -(a + 1) and 0 - a - 1. */
  lemma ComplementForms(a: Word)
    ensures Sub(Neg(a), 1) == 0xFFFF_FFFF - a
    ensures Neg(Add(a, 1)) == 0xFFFF_FFFF - a
    ensures Sub(Sub(0, a), 1) == 0xFFFF_FFFF - a
  {
    MinusOneWraps(a);
    WrapSubLeft(-(a as int), 1);
    WrapSubRight(0, a + 1);
    assert Sub(0, a) == Neg(a);
  }

  /** -a - 1 wraps to 2^32 - 1 - a. */
  lemma MinusOneWraps(a: Word)
    ensures Wrap(-(a as int) - 1) == 0xFFFF_FFFF - a
  {
    WrapShift(-(a as int) - 1, 0xFFFF_FFFF - a, -1);
    WrapWord(0xFFFF_FFFF - a);
  }

  lemma BitAddDecomp(a: Word, b: Word)
    ensures a + b == BitXor(a, b) + 2 * BitAnd(a, b)
  {
    Bits.Pow2Of32();
    Bits.AddDecomp(a, b, 32);
  }

  lemma BitOrDecomp(a: Word, b: Word)
    ensures BitOr(a, b) == BitXor(a, b) + BitAnd(a, b)
  {
    Bits.Pow2Of32();
    Bits.OrDecomp(a, b, 32);
  }

  /** a ^ b is the sum of a & ~b and ~a & b. */
  lemma BitXorSplit(a: Word, b: Word)
    ensures BitXor(a, b) == BitAnd(a, BitNot(b)) + BitAnd(BitNot(a), b)
  {
    Bits.XorSplit(a, b, 32);
  }

  /** a is the sum of a & ~b and a & b. */
  lemma BitAndNotSplit(a: Word, b: Word)
    ensures BitAnd(a, BitNot(b)) + BitAnd(a, b) == a
  {
    Bits.Pow2Of32();
    Bits.AndNotSplit(a, b, 32);
  }

  lemma BitDeMorgan(a: Word, b: Word)
    ensures BitNot(BitOr(BitNot(a), BitNot(b))) == BitAnd(a, b)
  {
    Bits.DeMorgan(a, b, 32);
  }

  lemma BitDeMorganOr(a: Word, b: Word)
    ensures BitNot(BitAnd(BitNot(a), BitNot(b))) == BitOr(a, b)
  {
    Bits.DeMorganOr(a, b, 32);
  }

  lemma BitXorByAndNot(a: Word, b: Word)
    ensures BitOr(BitAnd(BitNot(a), b), BitAnd(a, BitNot(b))) == BitXor(a, b)
  {
    Bits.XorByAndNot(a, b, 32);
  }

  lemma BitXorByOrAndNot(a: Word, b: Word)
    ensures BitAnd(BitOr(a, b), BitNot(BitAnd(a, b))) == BitXor(a, b)
  {
    Bits.XorByOrAndNot(a, b, 32);
  }

  lemma BitXorOnes(a: Word)
    ensures BitXor(a, 0xFFFF_FFFF) == BitNot(a)
  {
    Bits.Pow2Of32();
    Bits.XorOnes(a, 32);
  }

  /** A word XORed with its complement has every bit set. */
  lemma BitXorNot(a: Word)
    ensures BitXor(a, BitNot(a)) == 0xFFFF_FFFF
  {
    BitXorOnes(a);
    BitXorComm(a, BitNot(a));
    BitXorComm(a, 0xFFFF_FFFF);
    BitXorCancel(0xFFFF_FFFF, a);
  }

  /** The parts of `a` inside and outside a mask are disjoint and add up to `a`. */
  lemma BitMaskParts(a: Word, m: Word)
    ensures BitAnd(BitAnd(a, m), BitAnd(a, BitNot(m))) == 0
    ensures BitOr(BitAnd(a, m), BitAnd(a, BitNot(m))) == a
  {
    Bits.Pow2Of32();
    var p, q := BitAnd(a, m), BitAnd(a, BitNot(m));
    Bits.AndParts(a, m, 32);
    BitAndNotSplit(a, m);
    Bits.OrDisjoint(p, q, 32);
  }

  lemma BitAndComm(a: Word, b: Word)
    ensures BitAnd(a, b) == BitAnd(b, a)
  {
    Bits.AndComm(a, b, 32);
  }

  lemma BitAndSelf(a: Word)
    ensures BitAnd(a, a) == a
  {
    Bits.Pow2Of32();
    Bits.AndSelf(a, 32);
  }

  lemma BitOrComm(a: Word, b: Word)
    ensures BitOr(a, b) == BitOr(b, a)
  {
    Bits.OrComm(a, b, 32);
  }

  /** The last step of each insert_bitwise round leaves x ^ y in z. */
  lemma BitOrAndXorOr(a: Word, b: Word)
    ensures BitOr(BitAnd(BitOr(a, b), BitXor(a, b)), BitAnd(BitNot(a), b)) == BitXor(a, b)
  {
    Bits.OrAndXorOr(a, b, 32);
  }
}
