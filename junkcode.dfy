// JunkCodeGenerator: dead computations inserted between real code. What is
// observable about each of them is its effect on global_seed, which every one
// of them folds its result into; the opaque predicates make several of those
// effects exactly computable.
module Junk {
  import opened W = Word
  import Primitives

  datatype JunkPattern = Arithmetic | Bitwise | Memory | ControlFlow | Mixed

  /**
   * The values insert_arithmetic and insert_control_flow leave in their
   * accumulators when their loops run. Both loops overflow int on ordinary
   * inputs, which C++ leaves undefined, so for a positive complexity the
   * model takes each value as a given function of the seed and the
   * complexity. For a complexity that is not positive neither loop runs and
   * the accumulator keeps its initial 0.
   */
  datatype Unspecified = Unspecified(arithmetic: (Word, Int32) -> Word, controlFlow: (Word, Int32) -> Word)

  // ---------------------------------------------------------------------
  // insert_arithmetic and insert_control_flow
  // ---------------------------------------------------------------------

  function ArithmeticEffect(u: Unspecified, seed: Word, c: Int32): Word
  {
    if c <= 0 then seed else BitXor(seed, u.arithmetic(seed, c))
  }

  function ControlFlowEffect(u: Unspecified, seed: Word, c: Int32): Word
  {
    if c <= 0 then seed else BitXor(seed, u.controlFlow(seed, c))
  }

  /** insert_arithmetic: global_seed ^= z, where z stays 0 unless the loop runs. */
  method InsertArithmetic(u: Unspecified, cell: Primitives.SeedCell, complexity: Int32)
    modifies cell
    ensures cell.value == ArithmeticEffect(u, old(cell.value), complexity)
    ensures complexity <= 0 ==> cell.value == old(cell.value)
  {
    var z: Word := 0;
    if complexity > 0 {
      z := u.arithmetic(cell.value, complexity);
    }
    BitXorZero(cell.value);
    cell.value := BitXor(cell.value, z);
  }

  /** insert_control_flow: global_seed ^= result, where result stays 0 unless the loop runs. */
  method InsertControlFlow(u: Unspecified, cell: Primitives.SeedCell, complexity: Int32)
    modifies cell
    ensures cell.value == ControlFlowEffect(u, old(cell.value), complexity)
    ensures complexity <= 0 ==> cell.value == old(cell.value)
  {
    var result: Word := 0;
    if complexity > 0 {
      result := u.controlFlow(cell.value, complexity);
    }
    BitXorZero(cell.value);
    cell.value := BitXor(cell.value, result);
  }

  // ---------------------------------------------------------------------
  // insert_bitwise: all uint32_t, so fully defined
  // ---------------------------------------------------------------------

  datatype Regs = Regs(x: Word, y: Word, z: Word)

  /** One round of the insert_bitwise loop; the round always ends with z == x ^ y. */
  function BitwiseRound(r: Regs): (n: Regs)
    ensures n.z == BitXor(n.x, n.y)
  {
    var z1 := BitXor(r.x, r.y);
    var x1 := BitOr(z1, r.y);
    var y1 := BitAnd(x1, z1);
    var z2 := BitNot(x1);
    var x2 := Shl(y1, 2);
    var y2 := Shr(z2, 1);
    var z3 := BitXor(x2, BitOr(y2, z2));
    var x3 := BitOr(BitAnd(y2, 0xFF), Shl(z3, 8));
    var y3 := BitXor(Shr(x3, 4), BitAnd(z3, 0xF0F0_F0F0));
    BitOrAndXorOr(x3, y3);
    Regs(x3, y3, BitOr(BitAnd(BitOr(x3, y3), BitXor(x3, y3)), BitAnd(BitNot(x3), y3)))
  }

  function BitwiseRounds(r: Regs, n: nat): Regs
  {
    if n == 0 then r else BitwiseRound(BitwiseRounds(r, n - 1))
  }

  /** The number of times a `for (int i = 0; i < c; ++i)` loop runs. */
  function Runs(c: Int32): nat
  {
    if c > 0 then c else 0
  }

  function BitwiseEffect(seed: Word, c: Int32): Word
  {
    BitXor(seed, BitwiseRounds(Regs(seed, FromInt32(c), 0), Runs(c)).z)
  }

  /**
   * The value insert_bitwise folds into the seed: the seed itself when the
   * loop does not run, and otherwise x ^ y of its last round.
   */
  lemma BitwiseFolds(seed: Word, c: Int32)
    ensures c <= 0 ==> BitwiseEffect(seed, c) == seed
    ensures c > 0 ==> var r := BitwiseRounds(Regs(seed, FromInt32(c), 0), c as nat);
      BitwiseEffect(seed, c) == BitXor(seed, BitXor(r.x, r.y))
  {
    if c <= 0 {
      BitXorZero(seed);
    }
  }

  method InsertBitwise(cell: Primitives.SeedCell, complexity: Int32)
    modifies cell
    ensures cell.value == BitwiseEffect(old(cell.value), complexity)
  {
    var seed := cell.value;
    var x, y, z := seed, FromInt32(complexity), 0;
    for i := 0 to Runs(complexity)
      invariant Regs(x, y, z) == BitwiseRounds(Regs(seed, FromInt32(complexity), 0), i)
    {
      z := BitXor(x, y);
      x := BitOr(z, y);
      y := BitAnd(x, z);
      z := BitNot(x);
      x := Shl(y, 2);
      y := Shr(z, 1);
      z := BitXor(x, BitOr(y, z));
      x := BitOr(BitAnd(y, 0xFF), Shl(z, 8));
      y := BitXor(Shr(x, 4), BitAnd(z, 0xF0F0_F0F0));
      z := BitOr(BitAnd(BitOr(x, y), BitXor(x, y)), BitAnd(BitNot(x), y));
    }
    cell.value := BitXor(cell.value, z);
  }

  // ---------------------------------------------------------------------
  // insert_memory
  // ---------------------------------------------------------------------

  /** static_cast<char>(v & 0xFF) with a signed char: the low byte read as -128..127. */
  function CharOf(v: int): (c: int)
    ensures -128 <= c < 128
  {
    var b := v % 256;
    if b < 128 then b else b - 256
  }

  /** global_seed + i in int, wrapping around as the hardware does. */
  function SeedPlus(seed: Word, i: int): Int32
  {
    ToInt32(Wrap(seed as int + i))
  }

  /** idx1/idx2: `% 64`, then the absolute value, then `% 64` again; always a valid index. */
  function SlotIndex(seed: Word, i: int): (k: nat)
    ensures k < 64
  {
    var r := CRem(SeedPlus(seed, i), 64);
    var a := if r < 0 then -r else r;
    a % 64
  }

  /** The two buffers and the checksum of insert_memory. */
  datatype Buffers = Buffers(b1: seq<int>, b2: seq<int>, checksum: int)

  predicate Chars(s: seq<int>)
  {
    forall k :: 0 <= k < |s| ==> -128 <= s[k] < 128
  }

  /** The first loop: buffer1[i] from global_seed + i, buffer2[i] from global_seed - i. */
  function InitialBuffers(seed: Word): (b: Buffers)
    ensures |b.b1| == 64 && |b.b2| == 64
  {
    Buffers(seq(64, k => CharOf(seed as int + k)), seq(64, k => CharOf(seed as int - k)), 0)
  }

  /** One iteration of the second loop: swap buffer1[idx1] with buffer2[idx2] and add both to the checksum. */
  function Swap(b: Buffers, seed: Word, i: int): (r: Buffers)
    requires |b.b1| == 64 && |b.b2| == 64
    ensures |r.b1| == 64 && |r.b2| == 64
  {
    var i1 := SlotIndex(seed, i);
    var i2 := SlotIndex(seed, i + 1);
    var n1 := b.b1[i1 := b.b2[i2]];
    var n2 := b.b2[i2 := b.b1[i1]];
    Buffers(n1, n2, b.checksum + n1[i1] + n2[i2])
  }

  /** n iterations of the second loop from the buffers b. */
  function Swaps(b: Buffers, seed: Word, n: nat): (r: Buffers)
    requires |b.b1| == 64 && |b.b2| == 64
    ensures |r.b1| == 64 && |r.b2| == 64
  {
    if n == 0 then b else Swap(Swaps(b, seed, n - 1), seed, n - 1)
  }

  lemma InitialChars(seed: Word)
    ensures Chars(InitialBuffers(seed).b1) && Chars(InitialBuffers(seed).b2)
  {
    var b := InitialBuffers(seed);
    forall k | 0 <= k < 64 ensures -128 <= b.b1[k] < 128 && -128 <= b.b2[k] < 128 {
      assert b.b1[k] == CharOf(seed as int + k);
      assert b.b2[k] == CharOf(seed as int - k);
    }
  }

  /** One swap keeps every entry a char and adds two chars to the checksum. */
  lemma SwapBounded(b: Buffers, seed: Word, i: int)
    requires |b.b1| == 64 && |b.b2| == 64 && Chars(b.b1) && Chars(b.b2)
    ensures var r := Swap(b, seed, i);
      Chars(r.b1) && Chars(r.b2) && b.checksum - 256 <= r.checksum <= b.checksum + 254
  {
  }

  /** The characters held by the two buffers together. */
  function Contents(b: Buffers): multiset<int>
  {
    multiset(b.b1) + multiset(b.b2)
  }

  /** One swap moves two characters between the buffers and loses none. */
  lemma SwapContents(b: Buffers, seed: Word, i: int)
    requires |b.b1| == 64 && |b.b2| == 64
    ensures Contents(Swap(b, seed, i)) == Contents(b)
  {
    var i1, i2 := SlotIndex(seed, i), SlotIndex(seed, i + 1);
    var r := Swap(b, seed, i);
    assert r.b1 == b.b1[i1 := b.b2[i2]] && r.b2 == b.b2[i2 := b.b1[i1]];
    assert multiset(r.b1) == multiset(b.b1) - multiset{b.b1[i1]} + multiset{b.b2[i2]};
    assert multiset(r.b2) == multiset(b.b2) - multiset{b.b2[i2]} + multiset{b.b1[i1]};
  }

  /** Every entry stays a char and each iteration adds two chars, so the checksum stays far inside int. */
  lemma {:induction false} SwapsBounded(b: Buffers, seed: Word, n: nat)
    requires |b.b1| == 64 && |b.b2| == 64 && Chars(b.b1) && Chars(b.b2)
    ensures Chars(Swaps(b, seed, n).b1) && Chars(Swaps(b, seed, n).b2)
    ensures b.checksum - 256 * n <= Swaps(b, seed, n).checksum <= b.checksum + 254 * n
  {
    if n > 0 {
      var p := Swaps(b, seed, n - 1);
      SwapsBounded(b, seed, n - 1);
      SwapBounded(p, seed, n - 1);
    }
  }

  /** The checksum insert_memory folds into the seed after n iterations, and its range. */
  function Checksum(seed: Word, n: nat): (c: int)
    ensures -256 * n <= c <= 254 * n
  {
    InitialChars(seed);
    SwapsBounded(InitialBuffers(seed), seed, n);
    Swaps(InitialBuffers(seed), seed, n).checksum
  }

  /** The number of swap iterations: the complexity clamped to 50, none when it is not positive. */
  function MemoryRuns(c: Int32): nat
  {
    if c > 50 then 50 else Runs(c)
  }

  function MemoryEffect(seed: Word, c: Int32): Word
  {
    BitXor(seed, FromInt32(Checksum(seed, MemoryRuns(c))))
  }

  /** Complexities above 50 do no more work than 50. */
  lemma MemoryClamped(seed: Word, c: Int32)
    requires c >= 50
    ensures MemoryEffect(seed, c) == MemoryEffect(seed, 50)
  {
  }

  /** The first loop of insert_memory, on two fresh 64-char buffers. */
  method FillBuffers(seed: Word) returns (buffer1: array<int>, buffer2: array<int>)
    ensures fresh(buffer1) && fresh(buffer2) && buffer1 != buffer2
    ensures buffer1[..] == InitialBuffers(seed).b1 && buffer2[..] == InitialBuffers(seed).b2
  {
    buffer1 := new int[64];
    buffer2 := new int[64];
    for i := 0 to 64
      invariant buffer1[..i] == InitialBuffers(seed).b1[..i]
      invariant buffer2[..i] == InitialBuffers(seed).b2[..i]
    {
      buffer1[i] := CharOf(seed as int + i);
      buffer2[i] := CharOf(seed as int - i);
    }
    assert buffer1[..] == buffer1[..64] && buffer2[..] == buffer2[..64];
  }

  /** One iteration of the second loop, in place. */
  method SwapInPlace(buffer1: array<int>, buffer2: array<int>, seed: Word, i: int, checksum: int) returns (sum: int)
    requires buffer1.Length == 64 && buffer2.Length == 64 && buffer1 != buffer2
    modifies buffer1, buffer2
    ensures Buffers(buffer1[..], buffer2[..], sum) == Swap(Buffers(old(buffer1[..]), old(buffer2[..]), checksum), seed, i)
  {
    var idx1 := CRem(SeedPlus(seed, i), 64);
    var idx2 := CRem(SeedPlus(seed, i + 1), 64);
    if idx1 < 0 {
      idx1 := -idx1;
    }
    if idx2 < 0 {
      idx2 := -idx2;
    }
    idx1 := idx1 % 64;
    idx2 := idx2 % 64;
    var temp := buffer1[idx1];
    buffer1[idx1] := buffer2[idx2];
    buffer2[idx2] := temp;
    sum := checksum + buffer1[idx1] + buffer2[idx2];
  }

  method InsertMemory(cell: Primitives.SeedCell, complexity: Int32)
    modifies cell
    ensures cell.value == MemoryEffect(old(cell.value), complexity)
  {
    var c := complexity;
    if c > 50 {
      c := 50;
    }
    var seed := cell.value;
    var buffer1, buffer2 := FillBuffers(seed);
    var checksum := 0;
    for i := 0 to Runs(c)
      invariant Buffers(buffer1[..], buffer2[..], checksum) == Swaps(InitialBuffers(seed), seed, i)
    {
      checksum := SwapInPlace(buffer1, buffer2, seed, i, checksum);
    }
    ghost var n := MemoryRuns(complexity);
    assert Runs(c) == n;
    assert checksum == Checksum(seed, n);
    cell.value := BitXor(seed, FromInt32(checksum));
  }

  // ---------------------------------------------------------------------
  // insert_mixed and insert
  // ---------------------------------------------------------------------

  /** C++ `/` on int: the quotient rounded toward zero. */
  function CDiv(a: Int32, m: int): (q: Int32)
    requires m >= 2
  {
    if a >= 0 then a / m else -((-(a as int)) / m)
  }

  /** The complexities insert_mixed hands to the four patterns, in call order. */
  function Split(c: Int32): (Int32, Int32, Int32, Int32)
  {
    var per := CDiv(c, 4);
    var rem := CRem(c, 4);
    (per + (if rem > 0 then 1 else 0), per + (if rem > 1 then 1 else 0), per + (if rem > 2 then 1 else 0), per)
  }

  /** The work is shared out fairly: the four counts add up to c and differ by at most one. */
  lemma SplitFair(c: Int32)
    requires c >= 0
    ensures var (a, b, m, f) := Split(c);
      a + b + m + f == c && a >= b >= m >= f >= 0 && a - f <= 1
  {
  }

  function MixedEffect(u: Unspecified, seed: Word, c: Int32): Word
  {
    var (a, b, m, f) := Split(c);
    ControlFlowEffect(u, MemoryEffect(BitwiseEffect(ArithmeticEffect(u, seed, a), b), m), f)
  }

  /** A pattern whose loop does not run folds 0 into the seed and so leaves it as it was. */
  lemma NoRunsKeepSeed(u: Unspecified, seed: Word, c: Int32)
    requires c <= 0
    ensures ArithmeticEffect(u, seed, c) == seed && ControlFlowEffect(u, seed, c) == seed
    ensures BitwiseEffect(seed, c) == seed && MemoryEffect(seed, c) == seed
  {
    BitXorZero(seed);
  }

  /**
   * Below 4, per_pattern is 0: insert_mixed runs the first c patterns once
   * each, and insert_control_flow(0) leaves the seed as the others left it.
   */
  lemma MixedSmall(u: Unspecified, seed: Word)
    ensures MixedEffect(u, seed, 1) == ArithmeticEffect(u, seed, 1)
    ensures MixedEffect(u, seed, 2) == BitwiseEffect(ArithmeticEffect(u, seed, 1), 1)
    ensures MixedEffect(u, seed, 3) == MemoryEffect(BitwiseEffect(ArithmeticEffect(u, seed, 1), 1), 1)
  {
    var a := ArithmeticEffect(u, seed, 1);
    NoRunsKeepSeed(u, a, 0);
    var b := BitwiseEffect(a, 1);
    NoRunsKeepSeed(u, b, 0);
    var m := MemoryEffect(b, 1);
    NoRunsKeepSeed(u, m, 0);
  }

  /** A complexity that is not positive gives no pattern a positive count, so insert_mixed changes nothing. */
  lemma MixedNonPositive(u: Unspecified, seed: Word, c: Int32)
    requires c <= 0
    ensures MixedEffect(u, seed, c) == seed
  {
    var (a, b, m, f) := Split(c);
    NoRunsKeepSeed(u, seed, a);
    NoRunsKeepSeed(u, seed, b);
    NoRunsKeepSeed(u, seed, m);
    NoRunsKeepSeed(u, seed, f);
  }

  method InsertMixed(u: Unspecified, cell: Primitives.SeedCell, complexity: Int32)
    modifies cell
    ensures cell.value == MixedEffect(u, old(cell.value), complexity)
    ensures complexity <= 0 ==> cell.value == old(cell.value)
    ensures complexity == 1 ==> cell.value == ArithmeticEffect(u, old(cell.value), 1)
  {
    ghost var seed := cell.value;
    MixedSmall(u, seed);
    if complexity <= 0 {
      MixedNonPositive(u, seed, complexity);
    }
    var perPattern := CDiv(complexity, 4);
    var remainder := CRem(complexity, 4);
    InsertArithmetic(u, cell, perPattern + (if remainder > 0 then 1 else 0));
    InsertBitwise(cell, perPattern + (if remainder > 1 then 1 else 0));
    InsertMemory(cell, perPattern + (if remainder > 2 then 1 else 0));
    InsertControlFlow(u, cell, perPattern);
  }

  function PatternEffect(u: Unspecified, pattern: JunkPattern, seed: Word, c: Int32): Word
  {
    match pattern
    case Arithmetic => ArithmeticEffect(u, seed, c)
    case Bitwise => BitwiseEffect(seed, c)
    case Memory => MemoryEffect(seed, c)
    case ControlFlow => ControlFlowEffect(u, seed, c)
    case Mixed => MixedEffect(u, seed, c)
  }

  /**
   * insert<Pattern>(complexity): nothing for a complexity that is not
   * positive; otherwise the pattern runs with the complexity clamped to 100.
   */
  method Insert(u: Unspecified, cell: Primitives.SeedCell, pattern: JunkPattern, complexity: Int32)
    modifies cell
    ensures complexity <= 0 ==> cell.value == old(cell.value)
    ensures complexity > 0 ==>
      cell.value == PatternEffect(u, pattern, old(cell.value), if complexity > 100 then 100 else complexity)
  {
    if complexity <= 0 {
      return;
    }
    var c := complexity;
    if c > 100 {
      c := 100;
    }
    match pattern {
      case Arithmetic => InsertArithmetic(u, cell, c);
      case Bitwise => InsertBitwise(cell, c);
      case Memory => InsertMemory(cell, c);
      case ControlFlow => InsertControlFlow(u, cell, c);
      case Mixed => InsertMixed(u, cell, c);
    }
  }

  // ---------------------------------------------------------------------
  // The opaque-predicate entry points
  // ---------------------------------------------------------------------

  /**
   * insert_realistic_dead_code: opaque_false(seed, seed) never holds and
   * opaque_true(seed, seed) always does, so the only effect is one
   * volatile_seed_update.
   */
  method InsertRealisticDeadCode(cell: Primitives.SeedCell)
    modifies cell
    ensures cell.value == Primitives.SeedToggle(old(cell.value))
  {
    var seed := ToInt32(cell.value);
    Primitives.OpaqueOnInt32(seed, seed);
    if Primitives.OpaqueFalse(seed, seed) {
      assert false;
    }
    if Primitives.OpaqueTrue(seed, seed) {
      Primitives.VolatileSeedUpdate(cell);
    } else {
      assert false;
    }
  }

  /**
   * insert_with_opaque_predicate: neither opaque_false guard holds, the
   * result is the seed read on entry, and xoring it back clears global_seed.
   */
  method InsertWithOpaquePredicate(cell: Primitives.SeedCell)
    modifies cell
    ensures cell.value == 0
  {
    var seed := ToInt32(cell.value);
    Primitives.OpaqueOnInt32(seed, ToInt32(0xDEAD_BEEF));
    Primitives.OpaqueOnInt32(seed, ToInt32(0xCAFE_BABE));
    Primitives.OpaqueOnInt32(seed, seed);
    if Primitives.OpaqueFalse(seed, ToInt32(0xDEAD_BEEF)) {
      assert false;
    } else if Primitives.OpaqueFalse(seed, ToInt32(0xCAFE_BABE)) {
      assert false;
    }
    var result: Int32;
    if Primitives.OpaqueTrue(seed, seed) {
      result := seed;
    } else {
      assert false;
    }
    FromToInt32(cell.value);
    BitXorSelf(cell.value);
    cell.value := BitXor(cell.value, FromInt32(result));
  }

  /**
   * insert_with_density: nothing for a density that is not positive;
   * otherwise, whatever the clamped density runs, the closing
   * insert_with_opaque_predicate leaves global_seed at zero.
   */
  method InsertWithDensity(u: Unspecified, cell: Primitives.SeedCell, density: Int32)
    modifies cell
    ensures density <= 0 ==> cell.value == old(cell.value)
    ensures density > 0 ==> cell.value == 0
  {
    if density <= 0 {
      return;
    }
    var d := density;
    if d > 10 {
      d := 10;
    }
    for i := 0 to d {
      var k := i % 5;
      if k == 0 {
        Insert(u, cell, Arithmetic, d);
      } else if k == 1 {
        Insert(u, cell, Bitwise, d);
      } else if k == 2 {
        Insert(u, cell, Memory, d);
      } else if k == 3 {
        Insert(u, cell, ControlFlow, d);
      } else {
        InsertRealisticDeadCode(cell);
      }
    }
    InsertWithOpaquePredicate(cell);
  }
}
