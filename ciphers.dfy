// The two block ciphers behind EncryptedString, on blocks of two 32-bit words:
// XTEA (32 rounds, Needham and Wheeler) and an 8-round Feistel network, plus
// the loops that apply them block by block to a word buffer.
module Ciphers {
  import opened W = Word
  import Bits

  datatype Block = Block(v0: Word, v1: Word)

  /** The key: four 32-bit words (`const uint32_t* key` always points at key_[4]). */
  type Key = k: seq<Word> | |k| == 4 witness [0, 0, 0, 0]

  datatype Cipher = Xtea | AesLike

  // ---------------------------------------------------------------------
  // XTEA
  // ---------------------------------------------------------------------

  const XteaDelta: Word := 0x9E37_79B9
  const XteaRounds: nat := 32

  /** ((v << 4) ^ (v >> 5)) + v */
  function XteaMix(v: Word): Word
  {
    Add(BitXor(Shl(v, 4), Shr(v, 5)), v)
  }

  /** key[sum & 3] */
  function KeyLow(sum: Word, key: Key): Word
  {
    BitAndLow2(sum);
    key[BitAnd(sum, 3)]
  }

  /** key[(sum >> 11) & 3] */
  function KeyHigh(sum: Word, key: Key): Word
  {
    BitAndLow2(Shr(sum, 11));
    key[BitAnd(Shr(sum, 11), 3)]
  }

  /** The running `sum` after `i` additions of DELTA. */
  function RoundSum(i: nat): Word
  {
    Wrap(i * 0x9E37_79B9)
  }

  lemma RoundSumNext(i: nat)
    ensures RoundSum(i + 1) == Add(RoundSum(i), XteaDelta)
  {
    WrapAddLeft(i * 0x9E37_79B9, 0x9E37_79B9);
  }

  /** One iteration of the encryption loop, entered with `sum`. */
  function XteaEncryptRound(b: Block, sum: Word, key: Key): Block
  {
    var v0 := Add(b.v0, BitXor(XteaMix(b.v1), Add(sum, KeyLow(sum, key))));
    var next := Add(sum, XteaDelta);
    Block(v0, Add(b.v1, BitXor(XteaMix(v0), Add(next, KeyHigh(next, key)))))
  }

  /** One iteration of the decryption loop, entered with `sum`. */
  function XteaDecryptRound(b: Block, sum: Word, key: Key): Block
  {
    var v1 := Sub(b.v1, BitXor(XteaMix(b.v0), Add(sum, KeyHigh(sum, key))));
    var prev := Sub(sum, XteaDelta);
    Block(Sub(b.v0, BitXor(XteaMix(v1), Add(prev, KeyLow(prev, key)))), v1)
  }

  /** A decryption round entered with the sum an encryption round left undoes it. */
  lemma XteaRoundInverse(b: Block, sum: Word, key: Key)
    ensures XteaDecryptRound(XteaEncryptRound(b, sum, key), Add(sum, XteaDelta), key) == b
  {
    var e := XteaEncryptRound(b, sum, key);
    var next := Add(sum, XteaDelta);
    AddSubCancel(b.v1, BitXor(XteaMix(e.v0), Add(next, KeyHigh(next, key))));
    AddSubCancel(sum, XteaDelta);
    AddSubCancel(b.v0, BitXor(XteaMix(b.v1), Add(sum, KeyLow(sum, key))));
  }

  /** The first `n` encryption rounds. */
  function XteaEncryptRounds(b: Block, key: Key, n: nat): Block
  {
    if n == 0 then b else XteaEncryptRound(XteaEncryptRounds(b, key, n - 1), RoundSum(n - 1), key)
  }

  /** Decryption rounds hi, hi - 1, ..., lo + 1, entered with sum = DELTA * hi. */
  function XteaDecryptRounds(b: Block, key: Key, hi: nat, lo: nat): Block
    decreases hi - lo
  {
    if lo >= hi then b else XteaDecryptRound(XteaDecryptRounds(b, key, hi, lo + 1), RoundSum(lo + 1), key)
  }

  lemma {:induction false} XteaRoundsInverse(b: Block, key: Key, hi: nat, lo: nat)
    requires lo <= hi
    ensures XteaDecryptRounds(XteaEncryptRounds(b, key, hi), key, hi, lo) == XteaEncryptRounds(b, key, lo)
    decreases hi - lo
  {
    if lo < hi {
      XteaRoundsInverse(b, key, hi, lo + 1);
      RoundSumNext(lo);
      XteaRoundInverse(XteaEncryptRounds(b, key, lo), RoundSum(lo), key);
    }
  }

  function XteaEncrypt(b: Block, key: Key): Block
  {
    XteaEncryptRounds(b, key, XteaRounds)
  }

  function XteaDecrypt(b: Block, key: Key): Block
  {
    XteaDecryptRounds(b, key, XteaRounds, 0)
  }

  lemma XteaDecryptEncrypt(b: Block, key: Key)
    ensures XteaDecrypt(XteaEncrypt(b, key), key) == b
  {
    XteaRoundsInverse(b, key, XteaRounds, 0);
  }

  /** XTEACipher::encrypt: 32 rounds updating the two words in place. */
  method XteaEncryptBlock(v0: Word, v1: Word, key: Key) returns (r0: Word, r1: Word)
    ensures Block(r0, r1) == XteaEncrypt(Block(v0, v1), key)
  {
    r0, r1 := v0, v1;
    var sum: Word := 0;
    for i := 0 to XteaRounds
      invariant Block(r0, r1) == XteaEncryptRounds(Block(v0, v1), key, i)
      invariant sum == RoundSum(i)
    {
      r0 := Add(r0, BitXor(XteaMix(r1), Add(sum, KeyLow(sum, key))));
      RoundSumNext(i);
      sum := Add(sum, XteaDelta);
      r1 := Add(r1, BitXor(XteaMix(r0), Add(sum, KeyHigh(sum, key))));
    }
  }

  /** XTEACipher::decrypt: sum starts at DELTA * ROUNDS and counts down. */
  method XteaDecryptBlock(v0: Word, v1: Word, key: Key) returns (r0: Word, r1: Word)
    ensures Block(r0, r1) == XteaDecrypt(Block(v0, v1), key)
  {
    r0, r1 := v0, v1;
    var sum: Word := Mul(XteaDelta, XteaRounds);
    for i := 0 to XteaRounds
      invariant Block(r0, r1) == XteaDecryptRounds(Block(v0, v1), key, XteaRounds, XteaRounds - i)
      invariant sum == RoundSum(XteaRounds - i)
    {
      r1 := Sub(r1, BitXor(XteaMix(r0), Add(sum, KeyHigh(sum, key))));
      RoundSumNext(XteaRounds - i - 1);
      AddSubCancel(RoundSum(XteaRounds - i - 1), XteaDelta);
      sum := Sub(sum, XteaDelta);
      r0 := Sub(r0, BitXor(XteaMix(r1), Add(sum, KeyLow(sum, key))));
    }
  }

  // ---------------------------------------------------------------------
  // The Feistel network (AESLikeCipher)
  // ---------------------------------------------------------------------

  const FeistelRounds: nat := 8

  function RotateLeft(x: Word, bits: nat): Word
    requires 0 < bits < 32
  {
    BitOr(Shl(x, bits), Shr(x, 32 - bits))
  }

  function RotateRight(x: Word, bits: nat): Word
    requires 0 < bits < 32
  {
    BitOr(Shr(x, bits), Shl(x, 32 - bits))
  }

  /** Rotating right undoes rotating left by the same amount. */
  lemma RotateInverse(x: Word, bits: nat)
    requires 0 < bits < 32
    ensures RotateRight(RotateLeft(x, bits), bits) == x
  {
    var p, q := Bits.Pow2(bits), Bits.Pow2(32 - bits);
    RotatePowers(bits);
    var lo, hi := x % q, x / q;
    RotateSplit(x, p, q, lo, hi);
    var y := RotateLeft(x, bits);
    RotateLeftValue(x, bits, p, q);
    RotateRightValue(y, bits, p, q, lo, hi);
  }

  lemma RotatePowers(bits: nat)
    requires 0 < bits < 32
    ensures Bits.Pow2(bits) * Bits.Pow2(32 - bits) == 0x1_0000_0000
  {
    Bits.Pow2Of32();
    Bits.Pow2Add(bits, 32 - bits);
  }

  /** With x = hi * 2^(32-k) + lo, rotating left by k gives lo * 2^k + hi. */
  lemma RotateLeftValue(x: Word, bits: nat, p: nat, q: nat)
    requires 0 < bits < 32 && p == Bits.Pow2(bits) && q == Bits.Pow2(32 - bits)
    requires p * q == 0x1_0000_0000
    ensures RotateLeft(x, bits) == (x % q) * p + x / q
  {
    var lo, hi := x % q, x / q;
    RotateSplit(x, p, q, lo, hi);
    ShlPart(x, bits, p, q, lo, hi);
    BitOrDisjoint(hi, lo * p, lo, bits);
    BitOrComm(lo * p, hi);
  }

  /** With y = lo * 2^k + hi, rotating right by k gives hi * 2^(32-k) + lo. */
  lemma RotateRightValue(y: Word, bits: nat, p: nat, q: nat, lo: nat, hi: nat)
    requires 0 < bits < 32 && p == Bits.Pow2(bits) && q == Bits.Pow2(32 - bits)
    requires p * q == 0x1_0000_0000
    requires y == lo * p + hi && hi < p && lo < q && hi * q < 0x1_0000_0000
    ensures RotateRight(y, bits) == hi * q + lo
  {
    ShrPart(y, bits, p, lo, hi);
    ShlPart(y, 32 - bits, q, p, hi, lo);
    BitOrDisjoint(lo, hi * q, hi, 32 - bits);
  }

  lemma RotateSplit(x: Word, p: nat, q: nat, lo: nat, hi: nat)
    requires p * q == 0x1_0000_0000 && q > 0
    requires lo == x % q && hi == x / q
    ensures x == hi * q + lo && lo < q && hi < p
    ensures lo * p < 0x1_0000_0000 && hi * q < 0x1_0000_0000
  {
    assert lo * p < q * p by {
      MulStrict(lo, q, p);
    }
  }

  lemma MulStrict(a: nat, b: nat, c: nat)
    requires a < b && c > 0
    ensures a * c < b * c
  {
  }

  /** x << k where x = hi * 2^(32-k) + lo keeps lo * 2^k. */
  lemma ShlPart(x: Word, k: nat, p: nat, q: nat, lo: nat, hi: nat)
    requires 0 < k < 32 && p == Bits.Pow2(k) && p * q == 0x1_0000_0000
    requires x == hi * q + lo && lo * p < 0x1_0000_0000
    ensures Shl(x, k) == lo * p
  {
    assert x * p == lo * p + 0x1_0000_0000 * hi;
    WrapShift(x * p, lo * p, hi);
  }

  /** x >> k where x = lo * 2^k + hi with hi < 2^k is lo. */
  lemma ShrPart(y: Word, k: nat, p: nat, lo: nat, hi: nat)
    requires 0 < k < 32 && p == Bits.Pow2(k)
    requires y == lo * p + hi && hi < p
    ensures Shr(y, k) == lo
  {
    DivUnique(y, p, lo, hi);
  }

  lemma DivUnique(y: nat, p: nat, lo: nat, hi: nat)
    requires p > 0 && y == lo * p + hi && hi < p
    ensures y / p == lo
  {
    var q, r := y / p, y % p;
    assert (q - lo) * p == q * p - lo * p;
    assert (q - lo) * p == hi - r;
    if q > lo {
      MulAtLeast(q - lo, p);
    } else if q < lo {
      MulAtLeast(lo - q, p);
    }
  }

  lemma MulAtLeast(a: int, p: nat)
    requires a >= 1
    ensures a * p >= p
  {
  }

  /** round_function: xor the key, rotate by 7, xor 0x9E3779B9, rotate by 13, xor the key. */
  function RoundFunction(x: Word, k: Word): Word
  {
    var x1 := BitXor(x, k);
    var x2 := RotateLeft(x1, 7);
    var x3 := BitXor(x2, 0x9E37_79B9);
    var x4 := RotateLeft(x3, 13);
    BitXor(x4, k)
  }

  /** The inverse of round_function for a fixed key: each step undone in reverse. */
  function RoundFunctionInverse(y: Word, k: Word): Word
  {
    var x4 := BitXor(y, k);
    var x3 := RotateRight(x4, 13);
    var x2 := BitXor(x3, 0x9E37_79B9);
    var x1 := RotateRight(x2, 7);
    BitXor(x1, k)
  }

  /** The round function is a permutation of words for each key. */
  lemma RoundFunctionBijective(x: Word, k: Word)
    ensures RoundFunctionInverse(RoundFunction(x, k), k) == x
  {
    var x1 := BitXor(x, k);
    var x2 := RotateLeft(x1, 7);
    var x3 := BitXor(x2, 0x9E37_79B9);
    var x4 := RotateLeft(x3, 13);
    BitXorCancel(x4, k);
    RotateInverse(x3, 13);
    BitXorCancel(x2, 0x9E37_79B9);
    RotateInverse(x1, 7);
    BitXorCancel(x, k);
  }

  /** One encryption round: (v0, v1) becomes (v1 ^ F(v0, k), v0). */
  function FeistelRound(b: Block, k: Word): Block
  {
    Block(BitXor(b.v1, RoundFunction(b.v0, k)), b.v0)
  }

  /** One decryption round: (v0, v1) becomes (v1, v0 ^ F(v1, k)). */
  function FeistelUnround(b: Block, k: Word): Block
  {
    Block(b.v1, BitXor(b.v0, RoundFunction(b.v1, k)))
  }

  lemma FeistelRoundInverse(b: Block, k: Word)
    ensures FeistelUnround(FeistelRound(b, k), k) == b
  {
    BitXorCancel(b.v1, RoundFunction(b.v0, k));
  }

  function Swap(b: Block): Block
  {
    Block(b.v1, b.v0)
  }

  /** Rounds 0 .. n - 1, round r with key[r % 4]. */
  function FeistelEncryptRounds(b: Block, key: Key, n: nat): Block
  {
    if n == 0 then b else FeistelRound(FeistelEncryptRounds(b, key, n - 1), key[(n - 1) % 4])
  }

  /** Decryption rounds for round numbers hi - 1 down to lo. */
  function FeistelDecryptRounds(b: Block, key: Key, hi: nat, lo: nat): Block
    decreases hi - lo
  {
    if lo >= hi then b else FeistelUnround(FeistelDecryptRounds(b, key, hi, lo + 1), key[lo % 4])
  }

  lemma {:induction false} FeistelRoundsInverse(b: Block, key: Key, hi: nat, lo: nat)
    requires lo <= hi
    ensures FeistelDecryptRounds(FeistelEncryptRounds(b, key, hi), key, hi, lo) == FeistelEncryptRounds(b, key, lo)
    decreases hi - lo
  {
    if lo < hi {
      FeistelRoundsInverse(b, key, hi, lo + 1);
      FeistelRoundInverse(FeistelEncryptRounds(b, key, lo), key[lo % 4]);
    }
  }

  /** AESLikeCipher::encrypt: eight rounds, then the halves are swapped. */
  function FeistelEncrypt(b: Block, key: Key): Block
  {
    Swap(FeistelEncryptRounds(b, key, FeistelRounds))
  }

  /** AESLikeCipher::decrypt: undo the swap, then the rounds in reverse order. */
  function FeistelDecrypt(b: Block, key: Key): Block
  {
    FeistelDecryptRounds(Swap(b), key, FeistelRounds, 0)
  }

  lemma FeistelDecryptEncrypt(b: Block, key: Key)
    ensures FeistelDecrypt(FeistelEncrypt(b, key), key) == b
  {
    FeistelRoundsInverse(b, key, FeistelRounds, 0);
  }

  method FeistelEncryptBlock(v0: Word, v1: Word, key: Key) returns (r0: Word, r1: Word)
    ensures Block(r0, r1) == FeistelEncrypt(Block(v0, v1), key)
  {
    r0, r1 := v0, v1;
    for round := 0 to FeistelRounds
      invariant Block(r0, r1) == FeistelEncryptRounds(Block(v0, v1), key, round)
    {
      var temp := r0;
      r0 := BitXor(r1, RoundFunction(r0, key[round % 4]));
      r1 := temp;
    }
    r0, r1 := r1, r0;
  }

  method FeistelDecryptBlock(v0: Word, v1: Word, key: Key) returns (r0: Word, r1: Word)
    ensures Block(r0, r1) == FeistelDecrypt(Block(v0, v1), key)
  {
    r0, r1 := v1, v0;
    var round: nat := FeistelRounds;
    while round > 0
      invariant round <= FeistelRounds
      invariant Block(r0, r1) == FeistelDecryptRounds(Block(v1, v0), key, FeistelRounds, round)
    {
      var temp := r1;
      r1 := BitXor(r0, RoundFunction(r1, key[(round - 1) % 4]));
      r0 := temp;
      round := round - 1;
    }
  }

  // ---------------------------------------------------------------------
  // Either cipher, and the buffer loops
  // ---------------------------------------------------------------------

  function Encrypt(c: Cipher, b: Block, key: Key): Block
  {
    match c
    case Xtea => XteaEncrypt(b, key)
    case AesLike => FeistelEncrypt(b, key)
  }

  function Decrypt(c: Cipher, b: Block, key: Key): Block
  {
    match c
    case Xtea => XteaDecrypt(b, key)
    case AesLike => FeistelDecrypt(b, key)
  }

  /** decrypt undoes encrypt for every block and every key, for both ciphers. */
  lemma DecryptEncrypt(c: Cipher, b: Block, key: Key)
    ensures Decrypt(c, Encrypt(c, b, key), key) == b
  {
    match c
    case Xtea => XteaDecryptEncrypt(b, key);
    case AesLike => FeistelDecryptEncrypt(b, key);
  }

  method EncryptBlock(c: Cipher, v0: Word, v1: Word, key: Key) returns (r0: Word, r1: Word)
    ensures Block(r0, r1) == Encrypt(c, Block(v0, v1), key)
  {
    match c
    case Xtea => r0, r1 := XteaEncryptBlock(v0, v1, key);
    case AesLike => r0, r1 := FeistelEncryptBlock(v0, v1, key);
  }

  method DecryptBlock(c: Cipher, v0: Word, v1: Word, key: Key) returns (r0: Word, r1: Word)
    ensures Block(r0, r1) == Decrypt(c, Block(v0, v1), key)
  {
    match c
    case Xtea => r0, r1 := XteaDecryptBlock(v0, v1, key);
    case AesLike => r0, r1 := FeistelDecryptBlock(v0, v1, key);
  }

  /** Block `i` of a word buffer: words 2i and 2i + 1. */
  function BlockAt(d: seq<Word>, i: nat): Block
    requires 2 * i + 1 < |d|
  {
    Block(d[2 * i], d[2 * i + 1])
  }

  /** The buffer after `f` has replaced each of its first `n` blocks. */
  function MapBlocks(f: Block -> Block, d: seq<Word>, n: nat): (r: seq<Word>)
    requires 2 * n <= |d|
    ensures |r| == |d|
    ensures forall i :: 0 <= i < n ==> BlockAt(r, i) == f(BlockAt(d, i))
    ensures forall j :: 2 * n <= j < |d| ==> r[j] == d[j]
  {
    if n == 0 then d
    else
      var e := f(BlockAt(d, n - 1));
      MapBlocks(f, d, n - 1)[2 * (n - 1) := e.v0][2 * (n - 1) + 1 := e.v1]
  }

  /** Mapping a left inverse of `f` over the blocks `f` produced restores the buffer. */
  lemma MapBlocksInverse(f: Block -> Block, g: Block -> Block, d: seq<Word>, n: nat)
    requires 2 * n <= |d|
    requires forall b :: g(f(b)) == b
    ensures MapBlocks(g, MapBlocks(f, d, n), n) == d
  {
    var r := MapBlocks(g, MapBlocks(f, d, n), n);
    forall j | 0 <= j < |d|
      ensures r[j] == d[j]
    {
      if j < 2 * n {
        assert BlockAt(r, j / 2) == BlockAt(d, j / 2);
      }
    }
  }

  /** One more block: the buffer gains block `i` of `d` mapped through `f`. */
  lemma MapBlocksNext(f: Block -> Block, d: seq<Word>, i: nat, r0: Word, r1: Word)
    requires 2 * i + 2 <= |d|
    requires Block(r0, r1) == f(BlockAt(d, i))
    ensures MapBlocks(f, d, i + 1) == MapBlocks(f, d, i)[2 * i := r0][2 * i + 1 := r1]
  {
  }

  function Encryptor(c: Cipher, key: Key): Block -> Block
  {
    b => Encrypt(c, b, key)
  }

  function Decryptor(c: Cipher, key: Key): Block -> Block
  {
    b => Decrypt(c, b, key)
  }

  /** The buffer after encrypt_buffer: its first `n` blocks encrypted, the rest unchanged. */
  function EncryptWords(c: Cipher, d: seq<Word>, n: nat, key: Key): (r: seq<Word>)
    requires 2 * n <= |d|
    ensures |r| == |d|
    ensures forall j :: 2 * n <= j < |d| ==> r[j] == d[j]
  {
    MapBlocks(Encryptor(c, key), d, n)
  }

  /** The buffer after decrypt_buffer: its first `n` blocks decrypted, the rest unchanged. */
  function DecryptWords(c: Cipher, d: seq<Word>, n: nat, key: Key): (r: seq<Word>)
    requires 2 * n <= |d|
    ensures |r| == |d|
    ensures forall j :: 2 * n <= j < |d| ==> r[j] == d[j]
  {
    MapBlocks(Decryptor(c, key), d, n)
  }

  /** decrypt_buffer(encrypt_buffer(d, n, k), n, k) == d. */
  lemma DecryptWordsEncryptWords(c: Cipher, d: seq<Word>, n: nat, key: Key)
    requires 2 * n <= |d|
    ensures DecryptWords(c, EncryptWords(c, d, n, key), n, key) == d
  {
    forall b
      ensures Decryptor(c, key)(Encryptor(c, key)(b)) == b
    {
      DecryptEncrypt(c, b, key);
    }
    MapBlocksInverse(Encryptor(c, key), Decryptor(c, key), d, n);
  }

  /** encrypt_buffer: encrypts blocks 0 .. numBlocks - 1 of `data` in place. */
  method EncryptBuffer(c: Cipher, data: array<Word>, numBlocks: nat, key: Key)
    requires 2 * numBlocks <= data.Length
    modifies data
    ensures data[..] == EncryptWords(c, old(data[..]), numBlocks, key)
  {
    ghost var d := data[..];
    for i := 0 to numBlocks
      invariant data[..] == MapBlocks(Encryptor(c, key), d, i)
    {
      EncryptStep(c, data, i, key, d);
    }
  }

  /** One pass of encrypt_buffer's loop: block `i` is encrypted in place. */
  method EncryptStep(c: Cipher, data: array<Word>, i: nat, key: Key, ghost d: seq<Word>)
    requires 2 * i + 2 <= |d| == data.Length
    requires data[..] == MapBlocks(Encryptor(c, key), d, i)
    modifies data
    ensures data[..] == MapBlocks(Encryptor(c, key), d, i + 1)
  {
    var r0, r1 := EncryptBlock(c, data[2 * i], data[2 * i + 1], key);
    ghost var before: seq<Word> := data[..];
    MapBlocksNext(Encryptor(c, key), d, i, r0, r1);
    data[2 * i] := r0;
    data[2 * i + 1] := r1;
    assert data[..] == before[2 * i := r0][2 * i + 1 := r1];
  }

  /** decrypt_buffer: decrypts blocks 0 .. numBlocks - 1 of `data` in place. */
  method DecryptBuffer(c: Cipher, data: array<Word>, numBlocks: nat, key: Key)
    requires 2 * numBlocks <= data.Length
    modifies data
    ensures data[..] == DecryptWords(c, old(data[..]), numBlocks, key)
  {
    ghost var d := data[..];
    for i := 0 to numBlocks
      invariant data[..] == MapBlocks(Decryptor(c, key), d, i)
    {
      DecryptStep(c, data, i, key, d);
    }
  }

  /** One pass of decrypt_buffer's loop: block `i` is decrypted in place. */
  method DecryptStep(c: Cipher, data: array<Word>, i: nat, key: Key, ghost d: seq<Word>)
    requires 2 * i + 2 <= |d| == data.Length
    requires data[..] == MapBlocks(Decryptor(c, key), d, i)
    modifies data
    ensures data[..] == MapBlocks(Decryptor(c, key), d, i + 1)
  {
    var r0, r1 := DecryptBlock(c, data[2 * i], data[2 * i + 1], key);
    ghost var before: seq<Word> := data[..];
    MapBlocksNext(Decryptor(c, key), d, i, r0, r1);
    data[2 * i] := r0;
    data[2 * i + 1] := r1;
    assert data[..] == before[2 * i := r0][2 * i + 1 := r1];
  }
}
