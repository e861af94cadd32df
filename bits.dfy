// Bitwise operators on non-negative integers, defined one bit at a time over a
// fixed width. The C++ sources compute on `uint32_t`; the model represents such a
// value as an integer in [0, 2^32) (module Word) and uses the operators below,
// so that identities mixing arithmetic and bitwise operators can be proved by
// induction on the width.
module Bits {

  function Pow2(n: nat): (r: nat)
    ensures r >= 1
  {
    if n == 0 then 1 else 2 * Pow2(n - 1)
  }

  /** 1 when `c` holds, 0 otherwise: the value of one bit. */
  function Bit(c: bool): (r: nat)
    ensures r < 2 && (r == 1 <==> c)
  {
    if c then 1 else 0
  }

  /** Bitwise exclusive or of the low `n` bits of `a` and `b`. */
  function Xor(a: nat, b: nat, n: nat): nat
  {
    if n == 0 then 0 else Bit(a % 2 != b % 2) + 2 * Xor(a / 2, b / 2, n - 1)
  }

  /** Bitwise and of the low `n` bits of `a` and `b`. */
  function And(a: nat, b: nat, n: nat): nat
  {
    if n == 0 then 0 else Bit(a % 2 == 1 && b % 2 == 1) + 2 * And(a / 2, b / 2, n - 1)
  }

  /** Bitwise inclusive or of the low `n` bits of `a` and `b`. */
  function Or(a: nat, b: nat, n: nat): nat
  {
    if n == 0 then 0 else Bit(a % 2 == 1 || b % 2 == 1) + 2 * Or(a / 2, b / 2, n - 1)
  }

  /** Bitwise complement of the low `n` bits of `a`. */
  function Not(a: nat, n: nat): nat
  {
    if n == 0 then 0 else Bit(a % 2 == 0) + 2 * Not(a / 2, n - 1)
  }

  // The bounds are lemmas rather than postconditions: a postcondition on these
  // functions would be instantiated at every occurrence of a bitwise term.

  lemma {:induction false} XorBound(a: nat, b: nat, n: nat)
    ensures Xor(a, b, n) < Pow2(n)
  {
    if n > 0 { XorBound(a / 2, b / 2, n - 1); }
  }

  lemma {:induction false} AndBound(a: nat, b: nat, n: nat)
    ensures And(a, b, n) < Pow2(n)
  {
    if n > 0 { AndBound(a / 2, b / 2, n - 1); }
  }

  lemma {:induction false} OrBound(a: nat, b: nat, n: nat)
    ensures Or(a, b, n) < Pow2(n)
  {
    if n > 0 { OrBound(a / 2, b / 2, n - 1); }
  }

  lemma {:induction false} NotBound(a: nat, n: nat)
    ensures Not(a, n) < Pow2(n)
  {
    if n > 0 { NotBound(a / 2, n - 1); }
  }

  lemma {:induction false} Pow2Add(a: nat, b: nat)
    ensures Pow2(a + b) == Pow2(a) * Pow2(b)
  {
    if a > 0 {
      Pow2Add(a - 1, b);
    }
  }

  lemma Pow2Of32()
    ensures Pow2(8) == 256 && Pow2(16) == 0x1_0000 && Pow2(32) == 0x1_0000_0000
  {
    assert Pow2(4) == 16 by {
      assert Pow2(1) == 2;
      assert Pow2(2) == 4;
      assert Pow2(3) == 8;
    }
    Pow2Add(4, 4);
    Pow2Add(8, 8);
    Pow2Add(16, 16);
  }

  lemma Pow2Of64()
    ensures Pow2(31) == 0x8000_0000 && Pow2(64) == 0x1_0000_0000_0000_0000
  {
    Pow2Of32();
    Pow2Add(1, 31);
    Pow2Add(32, 32);
  }

  lemma {:induction false} XorComm(a: nat, b: nat, n: nat)
    ensures Xor(a, b, n) == Xor(b, a, n)
  {
    if n > 0 { XorComm(a / 2, b / 2, n - 1); }
  }

  lemma {:induction false} AndComm(a: nat, b: nat, n: nat)
    ensures And(a, b, n) == And(b, a, n)
  {
    if n > 0 { AndComm(a / 2, b / 2, n - 1); }
  }

  lemma {:induction false} OrComm(a: nat, b: nat, n: nat)
    ensures Or(a, b, n) == Or(b, a, n)
  {
    if n > 0 { OrComm(a / 2, b / 2, n - 1); }
  }

  lemma {:induction false} XorSelf(a: nat, n: nat)
    ensures Xor(a, a, n) == 0
  {
    if n > 0 { XorSelf(a / 2, n - 1); }
  }

  lemma {:induction false} XorZero(a: nat, n: nat)
    requires a < Pow2(n)
    ensures Xor(a, 0, n) == a
  {
    if n > 0 { XorZero(a / 2, n - 1); }
  }

  /** Exclusive or with the same operand twice gives the operand back. */
  lemma {:induction false} XorCancel(a: nat, b: nat, n: nat)
    requires a < Pow2(n)
    ensures Xor(Xor(a, b, n), b, n) == a
  {
    if n > 0 {
      XorCancel(a / 2, b / 2, n - 1);
    }
  }

  lemma {:induction false} AndSelf(a: nat, n: nat)
    requires a < Pow2(n)
    ensures And(a, a, n) == a
  {
    if n > 0 { AndSelf(a / 2, n - 1); }
  }

  lemma {:induction false} AndZero(a: nat, n: nat)
    ensures And(a, 0, n) == 0
  {
    if n > 0 { AndZero(a / 2, n - 1); }
  }

  lemma {:induction false} AndOne(a: nat, n: nat)
    requires n > 0
    ensures And(a, 1, n) == a % 2
  {
    AndZero(a / 2, n - 1);
  }

  /** Addition splits into the carry-free sum and the carries. */
  lemma {:induction false} AddDecomp(a: nat, b: nat, n: nat)
    requires a < Pow2(n) && b < Pow2(n)
    ensures a + b == Xor(a, b, n) + 2 * And(a, b, n)
  {
    if n > 0 { AddDecomp(a / 2, b / 2, n - 1); }
  }

  /** Inclusive or is the exclusive or plus the common bits. */
  lemma {:induction false} OrDecomp(a: nat, b: nat, n: nat)
    requires a < Pow2(n) && b < Pow2(n)
    ensures Or(a, b, n) == Xor(a, b, n) + And(a, b, n)
  {
    if n > 0 { OrDecomp(a / 2, b / 2, n - 1); }
  }

  /** The complement of `a` is the largest `n`-bit value minus `a`. */
  lemma {:induction false} NotValue(a: nat, n: nat)
    requires a < Pow2(n)
    ensures Not(a, n) == Pow2(n) - 1 - a
  {
    if n > 0 { NotValue(a / 2, n - 1); }
  }

  /** Operands without common bits add without carries. */
  lemma OrDisjoint(a: nat, b: nat, n: nat)
    requires a < Pow2(n) && b < Pow2(n)
    requires And(a, b, n) == 0
    ensures Or(a, b, n) == a + b && Xor(a, b, n) == a + b
  {
    AddDecomp(a, b, n);
    OrDecomp(a, b, n);
  }

  /** The low bit and the remaining bits of each operator's result. */
  lemma XorStep(a: nat, b: nat, n: nat)
    requires n > 0
    ensures Xor(a, b, n) % 2 == Bit(a % 2 != b % 2) && Xor(a, b, n) / 2 == Xor(a / 2, b / 2, n - 1)
  {
    HalfOf(Bit(a % 2 != b % 2), Xor(a / 2, b / 2, n - 1));
  }

  lemma AndStep(a: nat, b: nat, n: nat)
    requires n > 0
    ensures And(a, b, n) % 2 == Bit(a % 2 == 1 && b % 2 == 1) && And(a, b, n) / 2 == And(a / 2, b / 2, n - 1)
  {
    HalfOf(Bit(a % 2 == 1 && b % 2 == 1), And(a / 2, b / 2, n - 1));
  }

  lemma OrStep(a: nat, b: nat, n: nat)
    requires n > 0
    ensures Or(a, b, n) % 2 == Bit(a % 2 == 1 || b % 2 == 1) && Or(a, b, n) / 2 == Or(a / 2, b / 2, n - 1)
  {
    HalfOf(Bit(a % 2 == 1 || b % 2 == 1), Or(a / 2, b / 2, n - 1));
  }

  lemma NotStep(a: nat, n: nat)
    requires n > 0
    ensures Not(a, n) % 2 == Bit(a % 2 == 0) && Not(a, n) / 2 == Not(a / 2, n - 1)
  {
    HalfOf(Bit(a % 2 == 0), Not(a / 2, n - 1));
  }

  lemma {:induction false} DeMorgan(a: nat, b: nat, n: nat)
    ensures Not(Or(Not(a, n), Not(b, n), n), n) == And(a, b, n)
  {
    if n > 0 {
      var na, nb := Not(a, n), Not(b, n);
      NotStep(a, n);
      NotStep(b, n);
      OrStep(na, nb, n);
      DeMorgan(a / 2, b / 2, n - 1);
    }
  }

  lemma {:induction false} XorByAndNot(a: nat, b: nat, n: nat)
    ensures Or(And(Not(a, n), b, n), And(a, Not(b, n), n), n) == Xor(a, b, n)
  {
    if n > 0 {
      var na, nb := Not(a, n), Not(b, n);
      NotStep(a, n);
      NotStep(b, n);
      AndStep(na, b, n);
      AndStep(a, nb, n);
      XorByAndNot(a / 2, b / 2, n - 1);
    }
  }

  lemma {:induction false} XorByOrAndNot(a: nat, b: nat, n: nat)
    ensures And(Or(a, b, n), Not(And(a, b, n), n), n) == Xor(a, b, n)
  {
    if n > 0 {
      var o, c := Or(a, b, n), And(a, b, n);
      OrStep(a, b, n);
      AndStep(a, b, n);
      NotStep(c, n);
      XorByOrAndNot(a / 2, b / 2, n - 1);
    }
  }

  /** ((a | b) & (a ^ b)) | (~a & b) is just a ^ b: both parts lie inside a ^ b. */
  lemma {:induction false} OrAndXorOr(a: nat, b: nat, n: nat)
    ensures Or(And(Or(a, b, n), Xor(a, b, n), n), And(Not(a, n), b, n), n) == Xor(a, b, n)
  {
    if n > 0 {
      var o, x, na := Or(a, b, n), Xor(a, b, n), Not(a, n);
      var l, r := And(o, x, n), And(na, b, n);
      OrStep(a, b, n);
      XorStep(a, b, n);
      NotStep(a, n);
      AndStep(o, x, n);
      AndStep(na, b, n);
      OrStep(l, r, n);
      OrAndXorOr(a / 2, b / 2, n - 1);
    }
  }

  /** The bits of `a` outside `b` and those inside `b` make up `a`. */
  lemma {:induction false} AndNotSplit(a: nat, b: nat, n: nat)
    requires a < Pow2(n)
    ensures And(a, Not(b, n), n) + And(a, b, n) == a
  {
    if n > 0 { AndNotSplit(a / 2, b / 2, n - 1); }
  }

  /** Exclusive or is the sum of the bits only in `a` and the bits only in `b`. */
  lemma {:induction false} XorSplit(a: nat, b: nat, n: nat)
    ensures Xor(a, b, n) == And(a, Not(b, n), n) + And(Not(a, n), b, n)
  {
    if n > 0 {
      var na, nb := Not(a, n), Not(b, n);
      NotStep(a, n);
      NotStep(b, n);
      AndStep(a, nb, n);
      AndStep(na, b, n);
      XorSplit(a / 2, b / 2, n - 1);
    }
  }

  lemma {:induction false} DeMorganOr(a: nat, b: nat, n: nat)
    ensures Not(And(Not(a, n), Not(b, n), n), n) == Or(a, b, n)
  {
    if n > 0 {
      var na, nb := Not(a, n), Not(b, n);
      NotStep(a, n);
      NotStep(b, n);
      AndStep(na, nb, n);
      DeMorganOr(a / 2, b / 2, n - 1);
    }
  }

  /** Exclusive or with all ones is the complement. */
  lemma {:induction false} XorOnes(a: nat, n: nat)
    ensures Xor(a, LowMask(n), n) == Not(a, n)
  {
    if n > 0 { XorOnes(a / 2, n - 1); }
  }

  /** The bits of `a` inside `m` and those outside `m` have none in common. */
  lemma {:induction false} AndParts(a: nat, m: nat, n: nat)
    ensures And(And(a, m, n), And(a, Not(m, n), n), n) == 0
  {
    if n > 0 {
      var p, q := And(a, m, n), And(a, Not(m, n), n);
      NotStep(m, n);
      AndStep(a, m, n);
      AndStep(a, Not(m, n), n);
      AndParts(a / 2, m / 2, n - 1);
    }
  }

  /** A value below 2^k has no bit in common with a multiple of 2^k. */
  lemma {:induction false} AndLowHigh(a: nat, c: nat, k: nat, n: nat)
    requires a < Pow2(k)
    ensures And(a, c * Pow2(k), n) == 0
  {
    if n > 0 && k > 0 {
      var h := c * Pow2(k - 1);
      assert c * Pow2(k) == 2 * h;
      AndStep(a, 2 * h, n);
      AndLowHigh(a / 2, c, k - 1, n - 1);
    } else if n > 0 {
      AndComm(a, c * Pow2(k), n);
      AndZero(c * Pow2(k), n);
    }
  }

  /** The low `k` bits of `a`, as a number. */
  function LowPart(a: nat, k: nat): (r: nat)
    ensures r < Pow2(k)
  {
    if k == 0 then 0 else a % 2 + 2 * LowPart(a / 2, k - 1)
  }

  /** `a` without its low `k` bits, shifted down. */
  function HighPart(a: nat, k: nat): nat
  {
    if k == 0 then a else HighPart(a / 2, k - 1)
  }

  /** The mask of the low `k` bits, 2^k - 1. */
  function LowMask(k: nat): (r: nat)
    ensures r == Pow2(k) - 1
  {
    if k == 0 then 0 else 1 + 2 * LowMask(k - 1)
  }

  /** `high` placed above the low `k` bits of `low`: low + 2^k * high. */
  function Concat(low: nat, high: nat, k: nat): nat
  {
    if k == 0 then high else low % 2 + 2 * Concat(low / 2, high, k - 1)
  }

  lemma {:induction false} ConcatValue(low: nat, high: nat, k: nat)
    requires low < Pow2(k)
    ensures Concat(low, high, k) == low + Pow2(k) * high
  {
    if k > 0 {
      ConcatValue(low / 2, high, k - 1);
      ShiftSum(low % 2, low / 2, Pow2(k - 1), high);
    }
  }

  /** The low and high parts of a concatenation are the parts it was made from. */
  lemma {:induction false} ConcatParts(low: nat, high: nat, k: nat)
    requires low < Pow2(k)
    ensures LowPart(Concat(low, high, k), k) == low
    ensures HighPart(Concat(low, high, k), k) == high
  {
    if k > 0 {
      ConcatParts(low / 2, high, k - 1);
    }
  }

  lemma ShiftSum(bit: nat, low: nat, p: nat, x: nat)
    ensures bit + 2 * (low + p * x) == (bit + 2 * low) + (2 * p) * x
  {
  }

  lemma {:induction false} LowHigh(a: nat, k: nat)
    ensures Concat(LowPart(a, k), HighPart(a, k), k) == a
  {
    if k > 0 { LowHigh(a / 2, k - 1); }
  }

  lemma {:induction false} LowPartOfSmall(a: nat, k: nat)
    requires a < Pow2(k)
    ensures LowPart(a, k) == a && HighPart(a, k) == 0
  {
    if k > 0 { LowPartOfSmall(a / 2, k - 1); }
  }

  /** A mask of the low `k` bits keeps the low `k` bits. */
  lemma {:induction false} AndLowMask(a: nat, k: nat, n: nat)
    requires k <= n
    ensures And(a, LowMask(k), n) == LowPart(a, k)
  {
    if k > 0 {
      AndStep(a, LowMask(k), n);
      AndLowMask(a / 2, k - 1, n - 1);
    } else {
      AndZero(a, n);
    }
  }

  /** Bitwise exclusive or works independently on the low `k` bits and the rest. */
  lemma {:induction false} XorConcat(a: nat, b: nat, k: nat, m: nat, w: nat)
    requires w == k + m
    ensures Xor(a, b, w)
         == Concat(Xor(LowPart(a, k), LowPart(b, k), k), Xor(HighPart(a, k), HighPart(b, k), m), k)
  {
    if k > 0 {
      XorConcat(a / 2, b / 2, k - 1, m, w - 1);
      var bit := Bit(a % 2 != b % 2);
      var x' := Xor(LowPart(a / 2, k - 1), LowPart(b / 2, k - 1), k - 1);
      var h := Xor(HighPart(a, k), HighPart(b, k), m);
      HighPartStep(a, k);
      HighPartStep(b, k);
      XorUnfold(a, b, w);
      XorOfLowParts(a, b, k);
      ConcatStep(bit + 2 * x', h, k);
      HalfOf(bit, x');
    }
  }

  lemma HighPartStep(a: nat, k: nat)
    requires k > 0
    ensures HighPart(a, k) == HighPart(a / 2, k - 1)
  {
  }

  lemma XorUnfold(a: nat, b: nat, n: nat)
    requires n > 0
    ensures Xor(a, b, n) == Bit(a % 2 != b % 2) + 2 * Xor(a / 2, b / 2, n - 1)
  {
  }

  lemma XorOfLowParts(a: nat, b: nat, k: nat)
    requires k > 0
    ensures Xor(LowPart(a, k), LowPart(b, k), k)
         == Bit(a % 2 != b % 2) + 2 * Xor(LowPart(a / 2, k - 1), LowPart(b / 2, k - 1), k - 1)
  {
    HalfOf(a % 2, LowPart(a / 2, k - 1));
    HalfOf(b % 2, LowPart(b / 2, k - 1));
  }

  lemma ConcatStep(low: nat, high: nat, k: nat)
    requires k > 0
    ensures Concat(low, high, k) == low % 2 + 2 * Concat(low / 2, high, k - 1)
  {
  }

  /** The low bit and the rest of bit + 2 * rest. */
  lemma HalfOf(bit: nat, rest: nat)
    requires bit < 2
    ensures (bit + 2 * rest) % 2 == bit && (bit + 2 * rest) / 2 == rest
  {
  }
}
