// CompileTimeRandom<Seed>: one step of a linear congruential generator, and the
// two helpers built on it. The template parameter `Seed` is an ordinary argument.
module Random {
  import opened Word

  /**
   * next(): the LCG step Seed * 1103515245 + 12345 reduced to its low 31 bits.
   * NextMasked shows that this is the source's 32-bit product and sum masked
   * with 0x7fffffff.
   */
  function Next(seed: Word): (r: Word)
    ensures r < 0x8000_0000
  {
    (seed * 1103515245 + 12345) % 0x8000_0000
  }

  lemma NextMasked(seed: Word)
    ensures Next(seed) == BitAnd(Add(Mul(seed, 1103515245), 12345), 0x7FFF_FFFF)
  {
    BitAndLow31(Add(Mul(seed, 1103515245), 12345));
    StepLow31(seed);
  }

  /** The 32-bit product and sum agree with the exact ones modulo 2^31. */
  lemma StepLow31(seed: Word)
    ensures Add(Mul(seed, 1103515245), 12345) % 0x8000_0000 == (seed * 1103515245 + 12345) % 0x8000_0000
  {
    var p := seed * 1103515245;
    WrapLow31(Wrap(p) + 12345);
    WrapLow31(p);
    AddLow31(Wrap(p), p, 12345);
  }

  /** Reducing modulo 2^32 first does not change the remainder modulo 2^31. */
  lemma WrapLow31(y: int)
    ensures Wrap(y) % 0x8000_0000 == y % 0x8000_0000
  {
    var q := y / 0x1_0000_0000;
    assert y == Wrap(y) + 0x1_0000_0000 * q;
    assert y == Wrap(y) + 0x8000_0000 * (2 * q);
  }

  lemma AddLow31(u: int, v: int, c: int)
    requires u % 0x8000_0000 == v % 0x8000_0000
    ensures (u + c) % 0x8000_0000 == (v + c) % 0x8000_0000
  {
    assert u - v == 0x8000_0000 * (u / 0x8000_0000 - v / 0x8000_0000);
  }

  /** range(min, max): min + next() % (max - min + 1), all in 32 bits. */
  function Range(seed: Word, min: Word, max: Word): (r: Word)
    requires Add(Sub(max, min), 1) != 0
    ensures min <= max ==> min <= r <= max
  {
    var span := Add(Sub(max, min), 1);
    var offset := Next(seed) % span;
    if min <= max then RangeBound(min, max, offset); Add(min, offset)
    else Add(min, offset)
  }

  lemma RangeBound(min: Word, max: Word, offset: nat)
    requires min <= max && Add(Sub(max, min), 1) != 0
    requires offset < Add(Sub(max, min), 1)
    ensures min <= Add(min, offset) <= max
  {
    WrapSmall(max - min);
    WrapSmall(max - min + 1);
    WrapSmall(min + offset);
  }

  lemma WrapSmall(x: int)
    requires 0 <= x < 0x1_0000_0000
    ensures Wrap(x) == x
  {
  }

  /** coin_flip(): the low bit of next(). */
  function CoinFlip(seed: Word): (r: bool)
    ensures r <==> Next(seed) % 2 == 1
  {
    BitAndOne(Next(seed));
    BitAnd(Next(seed), 1) == 1
  }

  /** next() depends only on the low 31 bits of the seed. */
  lemma NextLow31(seed: Word)
    ensures Next(seed) == Next(seed % 0x8000_0000)
  {
    var low := seed % 0x8000_0000;
    var q := seed / 0x8000_0000;
    assert seed == low + 0x8000_0000 * q;
    assert seed * 1103515245 + 12345 == (low * 1103515245 + 12345) + 0x8000_0000 * (q * 1103515245);
    ShiftLow31(low * 1103515245 + 12345, (seed / 0x8000_0000) * 1103515245);
  }

  lemma ShiftLow31(x: int, k: int)
    ensures (x + 0x8000_0000 * k) % 0x8000_0000 == x % 0x8000_0000
  {
  }
  /**
   * Multiplying by a number invertible modulo 2^31 (here `g`, with `g * k`
   * one more than a multiple of 2^31) is one-to-one on [0, 2^31).
   */
  lemma OddMulInjective(a: int, b: int, g: int, k: int, j: int)
    requires 0 <= a < 0x8000_0000 && 0 <= b < 0x8000_0000
    requires g * k == 1 + j * 0x8000_0000
    requires (a * g) % 0x8000_0000 == (b * g) % 0x8000_0000
    ensures a == b
  {
    var d := a - b;
    var q := a * g / 0x8000_0000 - b * g / 0x8000_0000;
    assert d * g == 0x8000_0000 * q;
    assert d * (g * k) == (d * g) * k;
    assert d + d * j * 0x8000_0000 == 0x8000_0000 * q * k;
    assert d == 0x8000_0000 * (q * k - d * j);
  }

  /** next() maps seeds with different low 31 bits to different values. */
  lemma NextInjective(s: Word, t: Word)
    requires Next(s) == Next(t)
    ensures s % 0x8000_0000 == t % 0x8000_0000
  {
    NextLow31(s);
    NextLow31(t);
    var a := s % 0x8000_0000;
    var b := t % 0x8000_0000;
    var q := (a * 1103515245 + 12345) / 0x8000_0000 - (b * 1103515245 + 12345) / 0x8000_0000;
    assert a * 1103515245 - b * 1103515245 == 0x8000_0000 * q;
    ShiftLow31(b * 1103515245, q);
    OddMulInjective(a, b, 1103515245, 1857678181, 954594553);
  }
}
