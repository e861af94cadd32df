// MBA: mixed boolean-arithmetic rewrites of +, -, ^, &, | and ~, five formulas
// per operator chosen by `variant % 5`, and `chain`, which wraps a value in
// rounds of an operation followed by its inverse. The template operand type is
// modelled as `uint32_t` (Word); the `int variant` argument is an Int32 and the
// selector is C++'s truncated remainder, so a negative variant gives a remainder
// in -4..0 and, unless it is 0, reaches the `default` formula.
module Mba {
  import opened W = Word
  import Random

  /** The formula index that `switch (variant % 5)` dispatches on. */
  function Selector(variant: Int32): (r: int)
    ensures -5 < r < 5
    ensures variant >= 0 ==> r == variant % 5
  {
    CRem(variant, 5)
  }

  // ---------------------------------------------------------------- add

  lemma AddVariant0(a: Word, b: Word)
    ensures W.Add(BitXor(a, b), Mul(2, BitAnd(a, b))) == W.Add(a, b)
    ensures W.Add(BitXor(a, b), Shl(BitAnd(a, b), 1)) == W.Add(a, b)
  {
    BitAddDecomp(a, b);
    AddDouble(BitXor(a, b), BitAnd(a, b), a, b);
  }

  lemma AddVariant1(a: Word, b: Word)
    ensures W.Add(BitOr(a, b), BitAnd(a, b)) == W.Add(a, b)
  {
    BitAddDecomp(a, b);
    BitOrDecomp(a, b);
    SameSum(BitOr(a, b), BitAnd(a, b), a, b);
  }

  lemma AddVariant2(a: Word, b: Word)
    ensures W.Sub(Mul(2, BitOr(a, b)), BitXor(a, b)) == W.Add(a, b)
  {
    BitAddDecomp(a, b);
    BitOrDecomp(a, b);
    DoubleSubSum(BitOr(a, b), BitXor(a, b), a, b);
  }

  lemma AddVariant4(a: Word, b: Word)
    ensures W.Sub(W.Sub(a, BitNot(b)), 1) == W.Add(a, b)
  {
    BitNotValue(b);
    ComplementSteps(a, BitNot(b), b);
  }

  /** add(a, b, variant): a + b modulo 2^32 by every formula. */
  function Add(a: Word, b: Word, variant: Int32): (r: Word)
    ensures r == W.Add(a, b)
  {
    match Selector(variant)
    case 0 => AddVariant0(a, b); W.Add(BitXor(a, b), Mul(2, BitAnd(a, b)))
    case 1 => AddVariant1(a, b); W.Add(BitOr(a, b), BitAnd(a, b))
    case 2 => AddVariant2(a, b); W.Sub(Mul(2, BitOr(a, b)), BitXor(a, b))
    case 3 => AddVariant0(a, b); W.Add(BitXor(a, b), Shl(BitAnd(a, b), 1))
    case 4 => AddVariant4(a, b); W.Sub(W.Sub(a, BitNot(b)), 1)
    case _ => W.Add(a, b)
  }

  // ---------------------------------------------------------------- sub

  /** a - b is (a & ~b) - (~a & b): the bits only in a minus the bits only in b. */
  lemma SubParts(a: Word, b: Word)
    ensures a - b == BitAnd(a, BitNot(b)) - BitAnd(BitNot(a), b)
  {
    BitAndNotSplit(a, b);
    BitAndNotSplit(b, a);
    BitAndComm(b, BitNot(a));
    BitAndComm(b, a);
  }

  lemma SubVariant0(a: Word, b: Word)
    ensures W.Sub(BitXor(a, b), Mul(2, BitAnd(BitNot(a), b))) == W.Sub(a, b)
    ensures W.Sub(BitXor(a, b), Shl(BitAnd(BitNot(a), b), 1)) == W.Sub(a, b)
  {
    SubParts(a, b);
    BitXorSplit(a, b);
    SubDouble(BitXor(a, b), BitAnd(BitNot(a), b), a, b);
  }

  lemma SubVariant1(a: Word, b: Word)
    ensures W.Sub(BitAnd(a, BitNot(b)), BitAnd(BitNot(a), b)) == W.Sub(a, b)
  {
    SubParts(a, b);
    SameDiff(BitAnd(a, BitNot(b)), BitAnd(BitNot(a), b), a, b);
  }

  lemma SubVariant2(a: Word, b: Word)
    ensures W.Sub(Mul(2, BitAnd(a, BitNot(b))), BitXor(a, b)) == W.Sub(a, b)
  {
    SubParts(a, b);
    BitXorSplit(a, b);
    DoubleSubDiff(BitAnd(a, BitNot(b)), BitXor(a, b), a, b);
  }

  lemma SubVariant4(a: Word, b: Word)
    ensures W.Add(W.Add(a, BitNot(b)), 1) == W.Sub(a, b)
  {
    BitNotValue(b);
    ComplementSteps(a, BitNot(b), b);
  }

  /** sub(a, b, variant): a - b modulo 2^32 by every formula. */
  function Sub(a: Word, b: Word, variant: Int32): (r: Word)
    ensures r == W.Sub(a, b)
  {
    match Selector(variant)
    case 0 => SubVariant0(a, b); W.Sub(BitXor(a, b), Mul(2, BitAnd(BitNot(a), b)))
    case 1 => SubVariant1(a, b); W.Sub(BitAnd(a, BitNot(b)), BitAnd(BitNot(a), b))
    case 2 => SubVariant2(a, b); W.Sub(Mul(2, BitAnd(a, BitNot(b))), BitXor(a, b))
    case 3 => SubVariant0(a, b); W.Sub(BitXor(a, b), Shl(BitAnd(BitNot(a), b), 1))
    case 4 => SubVariant4(a, b); W.Add(W.Add(a, BitNot(b)), 1)
    case _ => W.Sub(a, b)
  }

  // ---------------------------------------------------------------- xor

  lemma XorVariant0(a: Word, b: Word)
    ensures W.Sub(BitOr(a, b), BitAnd(a, b)) == BitXor(a, b)
  {
    BitOrDecomp(a, b);
    SubExact(BitOr(a, b), BitAnd(a, b), BitXor(a, b));
  }

  lemma XorVariant1(a: Word, b: Word)
    ensures W.Sub(W.Add(a, b), Mul(2, BitAnd(a, b))) == BitXor(a, b)
  {
    BitAddDecomp(a, b);
    SumSubDouble(a, b, BitAnd(a, b), BitXor(a, b));
  }

  lemma XorVariant4(a: Word, b: Word)
    ensures W.Add(W.Sub(a, b), Mul(2, BitAnd(BitNot(a), b))) == BitXor(a, b)
  {
    SubParts(a, b);
    BitXorSplit(a, b);
    DiffAddDouble(a, b, BitAnd(BitNot(a), b), BitXor(a, b));
  }

  /** xor_op(a, b, variant): a ^ b by every formula. */
  function XorOp(a: Word, b: Word, variant: Int32): (r: Word)
    ensures r == BitXor(a, b)
  {
    match Selector(variant)
    case 0 => XorVariant0(a, b); W.Sub(BitOr(a, b), BitAnd(a, b))
    case 1 => XorVariant1(a, b); W.Sub(W.Add(a, b), Mul(2, BitAnd(a, b)))
    case 2 => BitXorByAndNot(a, b); BitOr(BitAnd(BitNot(a), b), BitAnd(a, BitNot(b)))
    case 3 => BitXorByOrAndNot(a, b); BitAnd(BitOr(a, b), BitNot(BitAnd(a, b)))
    case 4 => XorVariant4(a, b); W.Add(W.Sub(a, b), Mul(2, BitAnd(BitNot(a), b)))
    case _ => BitXor(a, b)
  }

  // ---------------------------------------------------------------- and

  lemma AndVariant0(a: Word, b: Word)
    ensures W.Sub(W.Add(a, b), BitOr(a, b)) == BitAnd(a, b)
  {
    BitAddDecomp(a, b);
    BitOrDecomp(a, b);
    SumSubExact(a, b, BitOr(a, b), BitAnd(a, b));
  }

  /** Variant 1 of and_op: (a + b) - (a ^ b) is twice a & b, not a & b. */
  lemma AndVariant1(a: Word, b: Word)
    ensures W.Sub(W.Add(a, b), BitXor(a, b)) == Wrap(2 * BitAnd(a, b))
  {
    BitAddDecomp(a, b);
    SumSub(a, b, BitXor(a, b), 2 * BitAnd(a, b));
  }

  lemma AndVariant3(a: Word, b: Word)
    ensures W.Sub(BitOr(a, b), BitXor(a, b)) == BitAnd(a, b)
  {
    BitOrDecomp(a, b);
    SubExact(BitOr(a, b), BitXor(a, b), BitAnd(a, b));
  }

  /**
   * and_op(a, b, variant) as written: every formula but variant 1 gives a & b;
   * variant 1 gives 2 * (a & b) modulo 2^32.
   */
  function AndOp(a: Word, b: Word, variant: Int32): (r: Word)
    ensures Selector(variant) != 1 ==> r == BitAnd(a, b)
    ensures Selector(variant) == 1 ==> r == Wrap(2 * BitAnd(a, b))
  {
    match Selector(variant)
    case 0 => AndVariant0(a, b); W.Sub(W.Add(a, b), BitOr(a, b))
    case 1 => AndVariant1(a, b); W.Sub(W.Add(a, b), BitXor(a, b))
    case 2 => BitDeMorgan(a, b); BitNot(BitOr(BitNot(a), BitNot(b)))
    case 3 => AndVariant3(a, b); W.Sub(BitOr(a, b), BitXor(a, b))
    case 4 => BitAnd(a, b)
    case _ => BitAnd(a, b)
  }

  /** The corrected variant 1: (a + b) - (a ^ b) - (a & b). */
  lemma AndVariant1Corrected(a: Word, b: Word)
    ensures W.Sub(W.Sub(W.Add(a, b), BitXor(a, b)), BitAnd(a, b)) == BitAnd(a, b)
  {
    BitAddDecomp(a, b);
    SumSubSub(a, b, BitXor(a, b), BitAnd(a, b), BitAnd(a, b));
  }

  /** and_op with variant 1 corrected: a & b by every formula. */
  function AndOpCorrected(a: Word, b: Word, variant: Int32): (r: Word)
    ensures r == BitAnd(a, b)
  {
    match Selector(variant)
    case 0 => AndVariant0(a, b); W.Sub(W.Add(a, b), BitOr(a, b))
    case 1 => AndVariant1Corrected(a, b); W.Sub(W.Sub(W.Add(a, b), BitXor(a, b)), BitAnd(a, b))
    case 2 => BitDeMorgan(a, b); BitNot(BitOr(BitNot(a), BitNot(b)))
    case 3 => AndVariant3(a, b); W.Sub(BitOr(a, b), BitXor(a, b))
    case 4 => BitAnd(a, b)
    case _ => BitAnd(a, b)
  }

  /** Variant 1 of and_op agrees with a & b only when a & b is 0. */
  lemma AndOpVariant1Wrong(a: Word, b: Word, variant: Int32)
    requires Selector(variant) == 1
    ensures AndOp(a, b, variant) == BitAnd(a, b) <==> BitAnd(a, b) == 0
  {
    DoubleEqualsSelf(BitAnd(a, b));
  }

  /**
   * Every a == b with 0 < a < 2^31 is a counterexample to variant 1, e.g.
   * and_op(1, 1, 1) == 2 while 1 & 1 == 1.
   */
  lemma AndOpCounterexample(a: Word, variant: Int32)
    requires Selector(variant) == 1 && 0 < a < 0x8000_0000
    ensures AndOp(a, a, variant) == 2 * a && BitAnd(a, a) == a
  {
    AndOpSelfDoubled(a, variant);
    BitAndSelf(a);
    WrapExact(2 * a, 2 * a);
  }

  // ---------------------------------------------------------------- or

  lemma OrVariant0(a: Word, b: Word)
    ensures W.Sub(W.Add(a, b), BitAnd(a, b)) == BitOr(a, b)
  {
    BitAddDecomp(a, b);
    BitOrDecomp(a, b);
    SumSubExact(a, b, BitAnd(a, b), BitOr(a, b));
  }

  lemma OrVariant1(a: Word, b: Word)
    ensures W.Add(BitXor(a, b), BitAnd(a, b)) == BitOr(a, b)
    ensures W.Add(BitAnd(a, b), BitXor(a, b)) == BitOr(a, b)
  {
    BitOrDecomp(a, b);
    AddExact(BitXor(a, b), BitAnd(a, b), BitOr(a, b));
  }

  /** Variant 4 of or_op, a + b, agrees with a | b exactly when a & b is 0. */
  lemma OrVariant4(a: Word, b: Word)
    ensures W.Add(a, b) == BitOr(a, b) <==> BitAnd(a, b) == 0
  {
    BitAddDecomp(a, b);
    BitOrDecomp(a, b);
    SumEqualsHalf(a, b, BitXor(a, b), BitAnd(a, b), BitOr(a, b));
  }

  /**
   * or_op(a, b, variant) as written: every formula but variant 4 gives a | b;
   * variant 4 gives a + b modulo 2^32.
   */
  function OrOp(a: Word, b: Word, variant: Int32): (r: Word)
    ensures Selector(variant) != 4 ==> r == BitOr(a, b)
    ensures Selector(variant) == 4 ==> r == W.Add(a, b)
  {
    match Selector(variant)
    case 0 => OrVariant0(a, b); W.Sub(W.Add(a, b), BitAnd(a, b))
    case 1 => OrVariant1(a, b); W.Add(BitXor(a, b), BitAnd(a, b))
    case 2 => BitDeMorganOr(a, b); BitNot(BitAnd(BitNot(a), BitNot(b)))
    case 3 => OrVariant1(a, b); W.Add(BitAnd(a, b), BitXor(a, b))
    case 4 => W.Add(a, b)
    case _ => BitOr(a, b)
  }

  /** or_op with variant 4 corrected to (a + b) - (a & b): a | b by every formula. */
  function OrOpCorrected(a: Word, b: Word, variant: Int32): (r: Word)
    ensures r == BitOr(a, b)
  {
    match Selector(variant)
    case 0 => OrVariant0(a, b); W.Sub(W.Add(a, b), BitAnd(a, b))
    case 1 => OrVariant1(a, b); W.Add(BitXor(a, b), BitAnd(a, b))
    case 2 => BitDeMorganOr(a, b); BitNot(BitAnd(BitNot(a), BitNot(b)))
    case 3 => OrVariant1(a, b); W.Add(BitAnd(a, b), BitXor(a, b))
    case 4 => OrVariant0(a, b); W.Sub(W.Add(a, b), BitAnd(a, b))
    case _ => BitOr(a, b)
  }

  /** Variant 4 of or_op agrees with a | b only when a & b is 0. */
  lemma OrOpVariant4Wrong(a: Word, b: Word, variant: Int32)
    requires Selector(variant) == 4
    ensures OrOp(a, b, variant) == BitOr(a, b) <==> BitAnd(a, b) == 0
  {
    OrVariant4(a, b);
  }

  /**
   * Every a == b with 0 < a < 2^31 is a counterexample to variant 4, e.g.
   * or_op(1, 1, 4) == 2 while 1 | 1 == 1.
   */
  lemma OrOpCounterexample(a: Word, variant: Int32)
    requires Selector(variant) == 4 && 0 < a < 0x8000_0000
    ensures OrOp(a, a, variant) == 2 * a && BitOr(a, a) == a
  {
    BitAndSelf(a);
    BitXorSelf(a);
    BitOrDecomp(a, a);
    WrapExact(a + a, 2 * a);
  }

  // ---------------------------------------------------------------- not

  lemma NotVariant1(a: Word)
    ensures W.Sub(Neg(a), 1) == BitNot(a)
    ensures Neg(W.Add(a, 1)) == BitNot(a)
    ensures W.Sub(W.Sub(0, a), 1) == BitNot(a)
  {
    BitNotValue(a);
    ComplementForms(a);
  }

  /** not_op(a, variant): ~a by every formula. */
  function NotOp(a: Word, variant: Int32): (r: Word)
    ensures r == BitNot(a)
  {
    match Selector(variant)
    case 0 => BitNot(a)
    case 1 => NotVariant1(a); W.Sub(Neg(a), 1)
    case 2 => BitXorOnes(a); BitXor(a, 0xFFFF_FFFF)
    case 3 => NotVariant1(a); Neg(W.Add(a, 1))
    case 4 => NotVariant1(a); W.Sub(W.Sub(0, a), 1)
    case _ => BitNot(a)
  }

  // ---------------------------------------------------------------- chain

  /** op_select: one LCG step of the `__COUNTER__` value `counter`. */
  function OpSelect(counter: Word): (r: Word)
    ensures r < 0x8000_0000
  {
    Random.Next(counter)
  }

  /** Case 3 of chain: or_op(and_op(value, mask), and_op(value, not_op(mask))). */
  function MaskRound(value: Word, mask: Word, v0: Int32, v1: Int32, v2: Int32): Word
  {
    OrOp(AndOp(value, mask, v0), AndOp(value, NotOp(mask, v0), v1), v2)
  }

  /**
   * (value & mask) | (value & ~mask) is value whenever neither and_op uses
   * variant 1; or_op variant 4 is harmless since the two parts are disjoint.
   */
  lemma MaskRoundKeeps(value: Word, mask: Word, v0: Int32, v1: Int32, v2: Int32)
    requires Selector(v0) != 1 && Selector(v1) != 1
    ensures MaskRound(value, mask, v0, v1, v2) == value
  {
    var p, q := BitAnd(value, mask), BitAnd(value, BitNot(mask));
    assert AndOp(value, mask, v0) == p;
    assert AndOp(value, NotOp(mask, v0), v1) == q;
    BitMaskParts(value, mask);
    OrVariant4(p, q);
  }

  /** x | 0 == x by every or_op formula. */
  lemma OrOpZero(x: Word, v: Int32)
    ensures OrOp(x, 0, v) == x
  {
    BitOrZero(x);
    BitOrComm(x, 0);
    WrapExact(x + 0, x);
  }

  /** and_op variant 1 doubles m & m == m. */
  lemma AndOpSelfDoubled(m: Word, v: Int32)
    requires Selector(v) == 1
    ensures AndOp(m, m, v) == Wrap(2 * m)
  {
    BitAndSelf(m);
  }

  /** m & ~m == 0 by every and_op formula but variant 1, which doubles it. */
  lemma AndOpComplement(m: Word, v0: Int32, v1: Int32)
    requires Selector(v1) != 1
    ensures AndOp(m, NotOp(m, v0), v1) == 0
  {
    BitAndSelf(m);
    BitAndNotSplit(m, m);
  }

  /** ~m & m == 0 by every and_op formula but variant 1. */
  lemma AndOpComplementLeft(m: Word, v0: Int32)
    requires Selector(v0) != 1
    ensures AndOp(BitNot(m), m, v0) == 0
  {
    BitAndSelf(m);
    BitAndNotSplit(m, m);
    BitAndComm(BitNot(m), m);
  }

  /** and_op variant 1 doubles ~m & ~m == ~m. */
  lemma AndOpNotDoubled(m: Word, v0: Int32, v1: Int32)
    requires Selector(v1) == 1
    ensures AndOp(BitNot(m), NotOp(m, v0), v1) == Wrap(2 * BitNot(m))
  {
    BitAndSelf(BitNot(m));
  }

  /** With and_op variant 1 on the first part, value == mask comes back doubled. */
  lemma MaskRoundFirst(mask: Word, v0: Int32, v1: Int32, v2: Int32)
    requires Selector(v0) == 1 && Selector(v1) != 1
    ensures MaskRound(mask, mask, v0, v1, v2) == Wrap(2 * mask)
  {
    AndOpSelfDoubled(mask, v0);
    AndOpComplement(mask, v0, v1);
    OrOpZero(Wrap(2 * mask), v2);
  }

  /** With and_op variant 1 on the second part, value == ~mask comes back doubled. */
  lemma MaskRoundSecond(mask: Word, v0: Int32, v1: Int32, v2: Int32)
    requires Selector(v0) != 1 && Selector(v1) == 1
    ensures MaskRound(BitNot(mask), mask, v0, v1, v2) == Wrap(2 * BitNot(mask))
  {
    AndOpComplementLeft(mask, v0);
    AndOpNotDoubled(mask, v0, v1);
    var q := Wrap(2 * BitNot(mask));
    BitOrZero(q);
    WrapExact(0 + q, q);
  }

  /**
   * Whether a round of chain keeps its value for this counter: cases 0, 1 and 2
   * always do; case 3 does when neither and_op call uses variant 1.
   */
  predicate RoundPreserves(counter: Word)
  {
    var o := OpSelect(counter);
    o % 4 != 3 || (Selector(ToInt32(o)) != 1 && Selector(ToInt32(W.Add(o, 1))) != 1)
  }

  lemma NotNot(a: Word)
    ensures BitNot(BitNot(a)) == a
  {
    BitNotValue(a);
    BitNotValue(BitNot(a));
  }

  /**
   * One round of chain: `switch (op_select % 4)` picks an operation and its
   * inverse; the constants are `next()` of counter + 1, + 2 and + 3, and the
   * variants are op_select, op_select + 1 and op_select + 2 as `int`s. The
   * source's `default` is unreachable.
   */
  function Round(value: Word, counter: Word): (r: Word)
    ensures RoundPreserves(counter) ==> r == value
  {
    var o := OpSelect(counter);
    var v0, v1, v2 := ToInt32(o), ToInt32(W.Add(o, 1)), ToInt32(W.Add(o, 2));
    if o % 4 == 0 then
      var t := Random.Next(W.Add(counter, 1));
      AddSubCancel(value, t);
      Sub(Add(value, t, v0), t, v1)
    else if o % 4 == 1 then
      var t := Random.Next(W.Add(counter, 2));
      BitXorCancel(value, t);
      XorOp(XorOp(value, t, v0), t, v1)
    else if o % 4 == 2 then
      NotNot(value);
      NotOp(NotOp(value, v0), v1)
    else
      var mask := Random.Next(W.Add(counter, 3));
      if Selector(v0) != 1 && Selector(v1) != 1 then
        MaskRoundKeeps(value, mask, v0, v1, v2);
        MaskRound(value, mask, v0, v1, v2)
      else
        MaskRound(value, mask, v0, v1, v2)
  }

  /**
   * chain(value, depth) for the `__COUNTER__` value `counter`: `depth` rounds,
   * all with the one op_select. It returns `value` when depth <= 0, and for
   * every depth when the round keeps values.
   */
  function Chain(value: Word, depth: Int32, counter: Word): (r: Word)
    ensures depth <= 0 ==> r == value
    ensures RoundPreserves(counter) ==> r == value
    decreases depth
  {
    if depth <= 0 then value else Chain(Round(value, counter), depth - 1, counter)
  }

  /** A round whose op_select selects case 3 is the mask round. */
  lemma RoundCase3(value: Word, counter: Word)
    requires OpSelect(counter) % 4 == 3
    ensures var o := OpSelect(counter);
      Round(value, counter) ==
      MaskRound(value, Random.Next(W.Add(counter, 3)), ToInt32(o), ToInt32(W.Add(o, 1)), ToInt32(W.Add(o, 2)))
  {
  }

  /** One level of chain is one round. */
  lemma ChainOne(value: Word, counter: Word)
    ensures Chain(value, 1, counter) == Round(value, counter)
  {
  }

  /** op_select and op_select + 1 never both select variant 1. */
  lemma NextVariant(o: Word)
    requires o < 0x8000_0000 && Selector(ToInt32(o)) == 1
    ensures Selector(ToInt32(W.Add(o, 1))) != 1
  {
    WrapExact(o + 1, o + 1);
  }

  /** Case 3 with and_op variant 1 on the first part changes value == mask. */
  lemma RoundBreaksFirst(counter: Word)
    requires OpSelect(counter) % 4 == 3 && Selector(ToInt32(OpSelect(counter))) == 1
    requires Random.Next(W.Add(counter, 3)) != 0
    ensures var mask := Random.Next(W.Add(counter, 3)); Chain(mask, 1, counter) != mask
  {
    var o := OpSelect(counter);
    var v0, v1, v2 := ToInt32(o), ToInt32(W.Add(o, 1)), ToInt32(W.Add(o, 2));
    var mask := Random.Next(W.Add(counter, 3));
    NextVariant(o);
    ChainOne(mask, counter);
    RoundCase3(mask, counter);
    MaskRoundFirst(mask, v0, v1, v2);
    DoubleEqualsSelf(mask);
  }

  /** Case 3 with and_op variant 1 on the second part changes value == ~mask. */
  lemma RoundBreaksSecond(counter: Word)
    requires OpSelect(counter) % 4 == 3
    requires Selector(ToInt32(OpSelect(counter))) != 1
    requires Selector(ToInt32(W.Add(OpSelect(counter), 1))) == 1
    ensures var n := BitNot(Random.Next(W.Add(counter, 3))); Chain(n, 1, counter) != n
  {
    var o := OpSelect(counter);
    var v0, v1, v2 := ToInt32(o), ToInt32(W.Add(o, 1)), ToInt32(W.Add(o, 2));
    var mask := Random.Next(W.Add(counter, 3));
    ChainOne(BitNot(mask), counter);
    RoundCase3(BitNot(mask), counter);
    MaskRoundSecond(mask, v0, v1, v2);
    DoubleEqualsSelf(BitNot(mask));
    BitNotValue(mask);
  }

  /**
   * The converse: when case 3 is selected, an and_op call uses variant 1 and
   * the mask is nonzero, a single round changes some value.
   */
  lemma RoundBreaks(counter: Word)
    requires !RoundPreserves(counter)
    requires Random.Next(W.Add(counter, 3)) != 0
    ensures exists value: Word :: Chain(value, 1, counter) != value
  {
    var mask := Random.Next(W.Add(counter, 3));
    if Selector(ToInt32(OpSelect(counter))) == 1 {
      RoundBreaksFirst(counter);
      assert Chain(mask, 1, counter) != mask;
    } else {
      RoundBreaksSecond(counter);
      assert Chain(BitNot(mask), 1, counter) != BitNot(mask);
    }
  }

  /**
   * `__COUNTER__` 6 gives op_select 178652871, which selects case 3 with and_op
   * variant 1 and a nonzero mask, so chain changes some value.
   */
  lemma ChainCounterexample()
    ensures OpSelect(6) == 178652871 && Random.Next(9) == 1341714958
    ensures exists value: Word :: Chain(value, 1, 6) != value
  {
    assert OpSelect(6) == 178652871;
    assert Random.Next(W.Add(6, 3)) == 1341714958;
    RoundBreaks(6);
  }

  /**
   * chain's __COUNTER__ is expanded once, when the header is read. Through
   * the umbrella header, with nothing before it expanding __COUNTER__,
   * string_crypt.hpp's one expansion comes first, so
   * the counter is 1: op_select selects case 2 and chain keeps every value.
   */
  lemma ChainAfterUmbrella(value: Word, depth: Int32)
    ensures OpSelect(1) == 1103527590 && OpSelect(1) % 4 == 2
    ensures Chain(value, depth, 1) == value
  {
    assert OpSelect(1) == 1103527590;
  }

  /** A round built on the corrected and_op and or_op: the identity for every counter. */
  function RoundCorrected(value: Word, counter: Word): (r: Word)
    ensures r == value
  {
    var o := OpSelect(counter);
    var v0, v1, v2 := ToInt32(o), ToInt32(W.Add(o, 1)), ToInt32(W.Add(o, 2));
    if o % 4 == 0 then
      var t := Random.Next(W.Add(counter, 1));
      AddSubCancel(value, t);
      Sub(Add(value, t, v0), t, v1)
    else if o % 4 == 1 then
      var t := Random.Next(W.Add(counter, 2));
      BitXorCancel(value, t);
      XorOp(XorOp(value, t, v0), t, v1)
    else if o % 4 == 2 then
      NotNot(value);
      NotOp(NotOp(value, v0), v1)
    else
      var mask := Random.Next(W.Add(counter, 3));
      BitMaskParts(value, mask);
      OrOpCorrected(AndOpCorrected(value, mask, v0), AndOpCorrected(value, NotOp(mask, v0), v1), v2)
  }

  /** chain built on RoundCorrected: the identity for every depth and counter. */
  function ChainCorrected(value: Word, depth: Int32, counter: Word): (r: Word)
    ensures r == value
    decreases depth
  {
    if depth <= 0 then value else ChainCorrected(RoundCorrected(value, counter), depth - 1, counter)
  }
}
