// EncryptedString<N, Cipher>: a string literal of N bytes (its terminator
// included) padded to whole 8-byte blocks, packed little-endian into 32-bit
// words, encrypted with a key derived from the build clock, and decrypted on
// demand.
module StringCrypt {
  import opened W = Word
  import Bits
  import Primitives
  import opened Ciphers

  /** The __LINE__ of the key derivation in include/vivisect/modules/string_crypt.hpp. */
  const KeyLine: Word := 95

  /** The __LINE__ of the same statement in modules/string_crypt.hpp. */
  const KeyLineTwin: Word := 142

  /** buffer_size_: N rounded up to a multiple of the 8-byte block. */
  function BufferSize(n: nat): (r: nat)
    ensures r % 8 == 0 && n <= r < n + 8
  {
    ((n + 7) / 8) * 8
  }

  /** num_blocks_: the number of 64-bit blocks in the buffer. */
  function NumBlocks(n: nat): (r: nat)
    ensures 8 * r == BufferSize(n)
  {
    BufferSize(n) / 8
  }

  /**
   * The four key words: the clock seed xor the __LINE__ of the header copy,
   * then three mix_seed steps with __COUNTER__, N and 0xDEADBEEF, each taken
   * as uint32_t. The first word gives the clock seed back when xored with the line.
   */
  function DeriveKey(time: string, line: Word, counter: nat, n: nat): (r: Key)
    requires |time| == 8
    ensures BitXor(r[0], line) == Primitives.CompileTimeSeed(time)
  {
    var k0 := BitXor(Primitives.CompileTimeSeed(time), line);
    BitXorCancel(Primitives.CompileTimeSeed(time), line);
    var k1 := Primitives.MixSeed(k0, Wrap(counter));
    var k2 := Primitives.MixSeed(k1, Wrap(n));
    [k0, k1, k2, Primitives.MixSeed(k2, 0xDEAD_BEEF)]
  }

  /** __COUNTER__ and N enter mix_seed as uint32_t: only their values modulo 2^32 matter to the key. */
  lemma DeriveKeyTruncates(time: string, line: Word, counter: nat, n: nat)
    requires |time| == 8
    ensures DeriveKey(time, line, counter, n) == DeriveKey(time, line, counter % 0x1_0000_0000, n % 0x1_0000_0000)
  {
    WrapMod(counter);
    WrapMod(n);
  }

  /**
   * The __COUNTER__ in the constructor body is expanded once, when the
   * preprocessor reads the header, so it takes one value per translation
   * unit: the number of __COUNTER__ expansions before the header. Literals
   * of one length from translation units whose counters differ modulo 2^32,
   * built with one header copy at one __TIME__, share the first key word and
   * differ in every other one.
   */
  lemma KeysByCounter(time: string, line: Word, c1: nat, c2: nat, n: nat)
    requires |time| == 8 && Wrap(c1) != Wrap(c2)
    ensures DeriveKey(time, line, c1, n)[0] == DeriveKey(time, line, c2, n)[0]
    ensures forall i :: 1 <= i < 4 ==> DeriveKey(time, line, c1, n)[i] != DeriveKey(time, line, c2, n)[i]
  {
    var k := DeriveKey(time, line, c1, n);
    var k' := DeriveKey(time, line, c2, n);
    Primitives.MixSeedInjective(k[0], Wrap(c1), Wrap(c2));
    Primitives.MixSeedSymmetric(k[1], Wrap(n));
    Primitives.MixSeedSymmetric(k'[1], Wrap(n));
    Primitives.MixSeedInjective(Wrap(n), k[1], k'[1]);
    Primitives.MixSeedSymmetric(k[2], 0xDEAD_BEEF);
    Primitives.MixSeedSymmetric(k'[2], 0xDEAD_BEEF);
    Primitives.MixSeedInjective(0xDEAD_BEEF, k[2], k'[2]);
  }

  /**
   * Within one translation unit the counter, the line and __TIME__ are
   * fixed, so a literal's key depends on its length alone: two literals get
   * the same key exactly when their lengths agree modulo 2^32.
   */
  lemma KeysByLength(time: string, line: Word, counter: nat, n1: nat, n2: nat)
    requires |time| == 8
    ensures DeriveKey(time, line, counter, n1) == DeriveKey(time, line, counter, n2) <==> Wrap(n1) == Wrap(n2)
  {
    var k := DeriveKey(time, line, counter, n1);
    var k' := DeriveKey(time, line, counter, n2);
    assert k[1] == k'[1];
    Primitives.MixSeedInjective(k[1], Wrap(n1), Wrap(n2));
  }

  /** The two copies of the header give the same literal, time and counter different keys. */
  lemma TwinKeysDiffer(time: string, counter: nat, n: nat)
    requires |time| == 8
    ensures DeriveKey(time, KeyLine, counter, n)[0] != DeriveKey(time, KeyLineTwin, counter, n)[0]
  {
    var k := DeriveKey(time, KeyLine, counter, n);
    var k' := DeriveKey(time, KeyLineTwin, counter, n);
    BitXorInjective(k[0], KeyLine, KeyLineTwin);
  }

  lemma WrapMod(x: nat)
    ensures Wrap(x % 0x1_0000_0000) == Wrap(x)
  {
    WrapShift(x, x % 0x1_0000_0000, x / 0x1_0000_0000);
  }

  /** char_buffer_: the literal followed by zeros up to buffer_size_. */
  function Padded(str: seq<Byte>): (r: seq<Byte>)
    ensures |r| == BufferSize(|str|)
    ensures r[..|str|] == str
    ensures forall k :: |str| <= k < |r| ==> r[k] == 0
  {
    str + seq(BufferSize(|str|) - |str|, _ => 0)
  }

  // ---------------------------------------------------------------------
  // Little-endian packing of bytes into words
  // ---------------------------------------------------------------------

  function Pow256(t: nat): (r: nat)
    ensures r > 0
  {
    if t == 0 then 1 else 0x100 * Pow256(t - 1)
  }

  /** The number whose little-endian base-256 digits are `s`. */
  function Horner(s: seq<Byte>): nat
  {
    if |s| == 0 then 0 else s[0] + 0x100 * Horner(s[1..])
  }

  /** The first `k` bytes of a word in memory on a little-endian host. */
  function Bytes(w: nat, k: nat): (r: seq<Byte>)
    ensures |r| == k
  {
    if k == 0 then [] else [w % 0x100] + Bytes(w / 0x100, k - 1)
  }

  lemma {:induction false} HornerBound(s: seq<Byte>)
    ensures Horner(s) < Pow256(|s|)
  {
    if |s| > 0 {
      HornerBound(s[1..]);
    }
  }

  /** Reading the packed value back byte by byte gives the digits. */
  lemma {:induction false} BytesHorner(s: seq<Byte>)
    ensures Bytes(Horner(s), |s|) == s
  {
    if |s| > 0 {
      var h := Horner(s[1..]);
      DigitSplit(s[0], h);
      BytesHorner(s[1..]);
      assert s == [s[0]] + s[1..];
    }
  }

  /** A low digit and the rest come back out of `d + 256 * h`. */
  lemma DigitSplit(d: Byte, h: nat)
    ensures (d + 0x100 * h) % 0x100 == d && (d + 0x100 * h) / 0x100 == h
  {
  }

  /** A value below 256^k is the packed value of its first k bytes. */
  lemma {:induction false} HornerBytes(x: nat, k: nat)
    requires x < Pow256(k)
    ensures Horner(Bytes(x, k)) == x
  {
    if k > 0 {
      HornerBytes(x / 0x100, k - 1);
      assert Bytes(x, k)[1..] == Bytes(x / 0x100, k - 1);
    }
  }

  /** Appending a digit adds it at weight 256^m. */
  lemma {:induction false} HornerSnoc(s: seq<Byte>, m: nat)
    requires m < |s|
    ensures Horner(s[..m + 1]) == Horner(s[..m]) + s[m] * Pow256(m)
  {
    if m > 0 {
      HornerSnoc(s[1..], m - 1);
      assert s[..m + 1][1..] == s[1..][..m];
      assert s[..m][1..] == s[1..][..m - 1];
    }
  }

  lemma Pow256Shift(t: nat)
    requires t <= 4
    ensures Pow256(t) == Bits.Pow2(8 * t)
  {
    Bits.Pow2Of32();
    Bits.Pow2Add(8, 16);
    Bits.Pow2Add(8, 0);
    Pow256Values();
  }

  lemma Pow256Values()
    ensures Pow256(0) == 1 && Pow256(1) == 0x100 && Pow256(2) == 0x1_0000
    ensures Pow256(3) == 0x100_0000 && Pow256(4) == 0x1_0000_0000
  {
    assert Pow256(1) == 0x100;
    assert Pow256(2) == 0x1_0000;
    assert Pow256(3) == 0x100_0000;
  }

  /** Bytes 4j .. 4j + 3 of `b`. */
  function Chunk(b: seq<Byte>, j: nat): (r: seq<Byte>)
    requires 4 * j + 4 <= |b|
    ensures |r| == 4
  {
    b[4 * j .. 4 * j + 4]
  }

  /** Word `j` of the packed buffer. */
  function WordAt(b: seq<Byte>, j: nat): Word
    requires 4 * j + 4 <= |b|
  {
    HornerBound(Chunk(b, j));
    Horner(Chunk(b, j))
  }

  /** temp_data after the packing loop: word j holds bytes 4j .. 4j + 3. */
  function Pack(b: seq<Byte>, count: nat): (r: seq<Word>)
    requires |b| == 4 * count
    ensures |r| == count
  {
    seq(count, j requires 0 <= j < count => WordAt(b, j))
  }

  /** The bytes of a word buffer, read through a char pointer on a little-endian host. */
  function Unpack(w: seq<Word>): (r: seq<Byte>)
    ensures |r| == 4 * |w|
  {
    seq(4 * |w|, i requires 0 <= i < 4 * |w| => Bytes(w[i / 4], 4)[i % 4])
  }

  /** Reading the packed words back byte by byte gives the original bytes. */
  lemma UnpackPack(b: seq<Byte>, count: nat)
    requires |b| == 4 * count
    ensures Unpack(Pack(b, count)) == b
  {
    var r := Unpack(Pack(b, count));
    forall i | 0 <= i < |b|
      ensures r[i] == b[i]
    {
      BytesHorner(Chunk(b, i / 4));
    }
  }

  /** Packing the bytes of a word buffer gives back the words. */
  lemma PackUnpack(w: seq<Word>)
    ensures Pack(Unpack(w), |w|) == w
  {
    var b := Unpack(w);
    forall j | 0 <= j < |w|
      ensures Pack(b, |w|)[j] == w[j]
    {
      assert Chunk(b, j) == Bytes(w[j], 4);
      Pow256Shift(4);
      HornerBytes(w[j], 4);
    }
  }

  /** When all of bytes 4j .. 4j + 3 are packed, none, or the first i - 4j. */
  function Filled(i: nat, j: nat): (r: nat)
    ensures r <= 4
  {
    if i <= 4 * j then 0 else if i >= 4 * j + 4 then 4 else i - 4 * j
  }

  /** temp_data[j] |= byte << 8m adds byte m of the chunk to the packed prefix. */
  lemma PackStep(s: seq<Byte>, m: nat, x: Word)
    requires |s| == 4 && m < 4 && x == Horner(s[..m])
    ensures BitOr(x, Shl(s[m], 8 * m)) == Horner(s[..m + 1])
  {
    HornerBound(s[..m]);
    Pow256Shift(m);
    Pow256Shift(m + 1);
    var p := Bits.Pow2(8 * m);
    assert s[m] * p < 0x100 * p;
    WrapExact(s[m] * p, s[m] * p);
    BitOrDisjoint(x, s[m] * p, s[m], 8 * m);
    HornerSnoc(s, m);
  }

  /** temp_data after the first `i` iterations of the packing loop. */
  function PartialPack(b: seq<Byte>, i: nat, count: nat): (r: seq<Word>)
    requires |b| == 4 * count
    ensures |r| == count
  {
    seq(count, j requires 0 <= j < count => PackedPrefix(b, j, Filled(i, j)))
  }

  function PackedPrefix(b: seq<Byte>, j: nat, m: nat): Word
    requires 4 * j + 4 <= |b| && m <= 4
  {
    HornerBound(Chunk(b, j)[..m]);
    Pow256Values();
    Horner(Chunk(b, j)[..m])
  }

  /** One iteration of the packing loop or-s byte i into word i / 4. */
  lemma PartialPackStep(b: seq<Byte>, i: nat, count: nat)
    requires |b| == 4 * count && i < |b|
    ensures var p := PartialPack(b, i, count);
      PartialPack(b, i + 1, count) == p[i / 4 := BitOr(p[i / 4], Shl(b[i], 8 * (i % 4)))]
  {
    var j, m := i / 4, i % 4;
    assert Chunk(b, j)[m] == b[i];
    PackStep(Chunk(b, j), m, PackedPrefix(b, j, m));
  }

  /** After all iterations each word holds its four bytes. */
  lemma PartialPackDone(b: seq<Byte>, count: nat)
    requires |b| == 4 * count
    ensures PartialPack(b, |b|, count) == Pack(b, count)
  {
    forall j | 0 <= j < count
      ensures PartialPack(b, |b|, count)[j] == Pack(b, count)[j]
    {
      assert Chunk(b, j)[..4] == Chunk(b, j);
    }
  }

  /** The packing loop of the constructor. */
  method PackWords(chars: array<Byte>, temp: array<Word>)
    requires chars.Length == 4 * temp.Length
    requires forall j :: 0 <= j < temp.Length ==> temp[j] == 0
    modifies temp
    ensures temp[..] == Pack(chars[..], temp.Length)
  {
    ghost var b := chars[..];
    assert temp[..] == PartialPack(b, 0, temp.Length);
    for i := 0 to chars.Length
      invariant temp[..] == PartialPack(b, i, temp.Length)
    {
      var j, m := i / 4, i % 4;
      PartialPackStep(b, i, temp.Length);
      temp[j] := BitOr(temp[j], Shl(chars[i], 8 * m));
    }
    PartialPackDone(b, temp.Length);
  }

  /** The byte-copy loop of decrypt and c_str. */
  method UnpackWords(temp: array<Word>, bytes: array<Byte>)
    requires bytes.Length == 4 * temp.Length
    modifies bytes
    ensures bytes[..] == Unpack(temp[..])
  {
    for i := 0 to bytes.Length
      invariant forall k :: 0 <= k < i ==> bytes[k] == Bytes(temp[k / 4], 4)[k % 4]
    {
      bytes[i] := Bytes(temp[i / 4], 4)[i % 4];
    }
  }

  method ScrubBytes(a: array<Byte>)
    modifies a
    ensures forall k :: 0 <= k < a.Length ==> a[k] == 0
  {
    for i := 0 to a.Length
      invariant forall k :: 0 <= k < i ==> a[k] == 0
    {
      a[i] := 0;
    }
  }

  method ScrubWords(a: array<Word>)
    modifies a
    ensures forall k :: 0 <= k < a.Length ==> a[k] == 0
  {
    for i := 0 to a.Length
      invariant forall k :: 0 <= k < i ==> a[k] == 0
    {
      a[i] := 0;
    }
  }

  method CopyWords(src: array<Word>, dst: array<Word>)
    requires src.Length == dst.Length && src != dst
    modifies dst
    ensures dst[..] == src[..]
  {
    for i := 0 to src.Length
      invariant forall k :: 0 <= k < i ==> dst[k] == src[k]
    {
      dst[i] := src[i];
    }
  }

  // ---------------------------------------------------------------------
  // The encrypted string object
  // ---------------------------------------------------------------------

  class EncryptedString {
    const cipher: Cipher
    /** N: the size of the literal, terminator included. */
    const size: nat
    const key: Key
    const originalLength: nat
    const encryptedData: array<Word>
    const charBuffer: array<Byte>
    /** The literal the object was built from. */
    ghost const plaintext: seq<Byte>

    ghost predicate Valid()
      reads encryptedData, charBuffer
    {
      |plaintext| == size >= 1 && originalLength == size - 1 &&
      charBuffer[..] == Padded(plaintext) &&
      encryptedData.Length == 2 * NumBlocks(size) &&
      encryptedData[..] == EncryptWords(cipher, Pack(charBuffer[..], 2 * NumBlocks(size)), NumBlocks(size), key)
    }

    /**
     * The constructor: derive the key, pad, pack and encrypt the literal.
     * `line` is the header copy's own __LINE__, KeyLine or KeyLineTwin, and
     * `counter` the one value __COUNTER__ has in the translation unit.
     */
    constructor (cipher: Cipher, str: seq<Byte>, time: string, line: Word, counter: nat)
      requires |str| >= 1 && |time| == 8
      ensures Valid()
      ensures this.cipher == cipher && size == |str| && plaintext == str
      ensures key == DeriveKey(time, line, counter, |str|)
    {
      var n := |str|;
      var k := DeriveKey(time, line, counter, n);
      var chars := FillBuffer(str);
      var enc := Seal(cipher, chars, k);
      this.cipher := cipher;
      size := n;
      key := k;
      originalLength := n - 1;
      encryptedData := enc;
      charBuffer := chars;
      plaintext := str;
    }

    /** The constructor's copy and padding loops: char_buffer_ is the padded literal. */
    static method FillBuffer(str: seq<Byte>) returns (chars: array<Byte>)
      ensures fresh(chars) && chars[..] == Padded(str)
    {
      var n := |str|;
      chars := new Byte[BufferSize(n)];
      for i := 0 to n
        invariant forall j :: 0 <= j < i ==> chars[j] == str[j]
      {
        chars[i] := str[i];
      }
      for i := n to chars.Length
        invariant forall j :: 0 <= j < n ==> chars[j] == str[j]
        invariant forall j :: n <= j < i ==> chars[j] == 0
      {
        chars[i] := 0;
      }
      assert chars[..] == Padded(str);
    }

    /** The constructor's packing, encryption and copy into encrypted_data_. */
    static method Seal(cipher: Cipher, chars: array<Byte>, key: Key) returns (enc: array<Word>)
      requires chars.Length % 8 == 0
      ensures fresh(enc)
      ensures enc[..] == EncryptWords(cipher, Pack(chars[..], chars.Length / 4), chars.Length / 8, key)
    {
      var nb := chars.Length / 8;
      var temp := new Word[2 * nb](_ => 0);
      PackWords(chars, temp);
      EncryptBuffer(cipher, temp, nb, key);
      enc := new Word[2 * nb];
      CopyWords(temp, enc);
    }

    /** decrypt(): the literal without its terminator. */
    method Decrypt() returns (s: seq<Byte>)
      requires Valid()
      ensures s == plaintext[..size - 1]
    {
      var nb := NumBlocks(size);
      var temp := new Word[2 * nb];
      CopyWords(encryptedData, temp);
      DecryptBuffer(cipher, temp, nb, key);
      DecryptWordsEncryptWords(cipher, Pack(charBuffer[..], 2 * nb), nb, key);
      var bytes := new Byte[BufferSize(size)];
      UnpackWords(temp, bytes);
      UnpackPack(charBuffer[..], 2 * nb);
      s := bytes[..originalLength];
      assert s == charBuffer[..][..size - 1];
      ScrubBytes(bytes);
      ScrubWords(temp);
    }

    /** c_str(): the padded literal with a terminator written at original_length_. */
    method CStr() returns (r: array<Byte>)
      requires Valid()
      ensures fresh(r)
      ensures r[..] == Padded(plaintext)[size - 1 := 0]
    {
      var nb := NumBlocks(size);
      r := new Byte[BufferSize(size)];
      var temp := new Word[2 * nb];
      CopyWords(encryptedData, temp);
      DecryptBuffer(cipher, temp, nb, key);
      DecryptWordsEncryptWords(cipher, Pack(charBuffer[..], 2 * nb), nb, key);
      UnpackWords(temp, r);
      UnpackPack(charBuffer[..], 2 * nb);
      r[originalLength] := 0;
    }

    /** length(): the literal's length without its terminator. */
    function Length(): (r: nat)
      requires Valid()
      reads encryptedData, charBuffer
      ensures r + 1 == |plaintext|
    {
      originalLength
    }
  }
}
