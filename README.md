# Vivisection-Engine core in Dafny

Vivisection-Engine is a C++ header library for obfuscating Windows programs. This project models its integer-only core and proves properties of the model:

- **Word** and **Bits** give C++'s 32-bit `uint32_t` and two's-complement `int` arithmetic. Wrap-around is explicit, `%` truncates toward zero, and the bitwise operators are defined bit by bit.
- **Primitives** and **Random** cover the shared helpers:
  - `compile_time_seed`, `mix_seed`, `volatile_seed_update` and `opaque_true`/`opaque_false`;
  - the `CompileTimeRandom` LCG.
  - The process-wide `int global_seed` is a one-field object (`SeedCell`). Anything that holds an `int&` to it holds a reference to that object.
- **Mba** covers the mixed boolean-arithmetic rewriter: the five formula variants of each operation, and `chain`.
- **Ciphers** and **StringCrypt** cover compile-time string encryption:
  - XTEA and the 8-round Feistel cipher, each as an in-place round loop with its specification;
  - the in-place buffer loops;
  - `EncryptedString`, a class over arrays: padding, little-endian packing, `decrypt`, `c_str` and `length`.
- **Vm** covers the bytecode VM. `VMState` and `VMEngine` are classes over arrays: 8 registers, 256 memory words, a 32-entry call stack and a 32-slot handler table of opcode tags. Each handler and the `execute` loop is proved against a value-level machine (`VmMachine`, `Engine`, `Loop`).
- **ControlFlow** covers the control-flow flattener: the opaque-branch loops, state tags, `StateMachineContext`, and the `VIVISECT_FLATTEN_*` macros. A region is built from the `__COUNTER__` values its macro expansions receive, and its dispatch loop is a state machine over the resulting case table.
- **Config**, **StdText** and **ConfigManager** cover configuration:
  - `ObfuscationProfile`'s `validate`, `serialize` and `deserialize`, together with the parts of `std::stoi`, `operator<<` and `std::getline` they use;
  - the presets;
  - the `ConfigurationManager` state machine;
  - `merge_with_global` and `FunctionConfigRegistry`.
- **Junk** covers the junk-code generator's clamping, its work split and its net effect on `global_seed`.
- **Errors** covers the error table: codes, categories, the ten-slot recovery table, the global handler and the default strategies.
- **Resolver** covers the API resolver's FNV-1a hashes, the UTF-16 name narrowing, the loader-list walk and the export-table search. The loader list and the PE image are plain values.

Several headers exist twice: one copy under `include/vivisect/` and one at the top level. This applies to `mba.hpp`, `string_crypt.hpp`, `primitives.hpp`, `random.hpp` and `resolver.hpp`. Each pair differs in comments, in error reporting and in a `try`/`catch`. The `string_crypt.hpp` pair differs in one more way. The statement that derives the first key word sits on line 95 in one copy and on line 142 in the other, and its `__LINE__` enters the key. So the two copies derive different keys for the same literal. `StringCrypt.DeriveKey` takes the line as a parameter, and `StringCrypt.TwinKeysDiffer` proves that the keys differ. Apart from that line, one Dafny module serves both copies, and a table row may cite either one.

Five behaviours of the code are worth stating on their own:

- **Handler mutation.** `mutate_handlers` swaps occupied handler slots that belong to different opcodes, so after a mutation the ADD slot may run MUL. The model swaps the tags as the code does. It proves only that the table stays a permutation with the same occupied slots, not that results are preserved.
- **CALL on a full stack.** CALL on a full stack, RET on an empty stack and a jump to itself all leave `pc` unchanged, so the same instruction is fetched again.
- **MBA identities.** The comment in `modules/mba.hpp` at line 22 calls the variants "mathematically equivalent expressions". Two variants are not equivalent to their operation, and so one `chain` case does not preserve its value (see "## Findings").
- **Flattened regions.** `VIVISECT_FLATTEN_STATE(id)` labels its case with a fresh `__COUNTER__` and never uses `id`. `VIVISECT_FLATTEN_BEGIN` starts at yet another fresh `__COUNTER__`. So the initial state labels no case, and a region as written runs none of its stages (see "## Findings").
- **Default profile.** The default-constructed profile has `encryption_rounds = 1`, whereas BALANCED_PROTECTION has 2; the two are otherwise equal.

Two further behaviours are proved as written:

- After `register_default_recovery_strategies`, VM_EXECUTION_ERROR counts as recovered. VM_EXECUTION_ERROR and DECRYPTION_FAILED share a slot, and DECRYPTION_FAILED's strategy is registered later and returns true.
- The VM engine's `mutation_counter_` is a 32-bit value that wraps.

## Model

| member | source | states |
|---|---|---|
| `Random.Next` | include/vivisect/core/random.hpp:9-11 | `next()` is below 2^31 |
| `Random.NextMasked` | core/random.hpp:15-18 | `next()` is the 32-bit product `Seed * 1103515245` plus 12345, wrapped, then masked with 0x7fffffff |
| `Random.Range` | include/vivisect/core/random.hpp:12-14 | when min <= max and `max - min + 1` does not wrap to 0, `range(min, max)` lies in [min, max] |
| `Random.CoinFlip` | include/vivisect/core/random.hpp:15-17 | `coin_flip()` holds exactly when `next()` is odd |
| `Random.NextLow31` | core/random.hpp:15-18 | `next()` depends only on the low 31 bits of the seed |
| `Random.OddMulInjective` | include/vivisect/core/random.hpp:10 | multiplying by a number invertible modulo 2^31 is one-to-one on [0, 2^31) |
| `Random.NextInjective` | include/vivisect/core/random.hpp:9-11 | `next()` gives equal results only for seeds with equal low 31 bits |
| `Primitives.CompileTimeSeed` | include/vivisect/core/primitives.hpp:7-14 | for an "hh:mm:ss" clock text the seed is 3600·hh + 60·mm + ss |
| `Primitives.CompileTimeSeedBound` | core/primitives.hpp:14-22 | the compile-time seed of a valid clock time is at most 86399 |
| `Primitives.InitialGlobalSeed` | include/vivisect/core/primitives.hpp:15 | `global_seed` starts as the compile-time seed, which fits an `int` unchanged |
| `Primitives.SeedCell.constructor` | core/primitives.hpp:25 | the shared seed cell holds the value it is initialised with |
| `Primitives.MixSeedSymmetric` | include/vivisect/core/primitives.hpp:16-18 | `mix_seed(a, b) == mix_seed(b, a)` |
| `Primitives.MixSeedSelf` | core/primitives.hpp:28-30 | `mix_seed(a, a) == 0` |
| `Primitives.GoldenMulInjective` | include/vivisect/core/primitives.hpp:17 | multiplying by 0x9e3779b9 in 32 bits is one-to-one |
| `Primitives.MixSeedInjective` | include/vivisect/core/primitives.hpp:16-18 | with one operand fixed, `mix_seed` determines the other |
| `Primitives.SeedToggleInvolution` | include/vivisect/core/primitives.hpp:23-26 | xoring the seed with 0xDEADBEEF twice restores it |
| `Primitives.VolatileSeedUpdate` | core/primitives.hpp:38-41 | the referenced seed becomes its old pattern xor 0xDEADBEEF |
| `Primitives.VolatileSeedUpdateTwice` | include/vivisect/core/primitives.hpp:23-26 | two updates in a row leave the seed as it was |
| `Primitives.OpaqueFalse` | include/vivisect/core/primitives.hpp:39-50 | `opaque_false` is the negation of `opaque_true` for every value and seed |
| `Primitives.OpaqueTrueOverflow` | include/vivisect/core/primitives.hpp:34-36 | for a 64-bit-wide value 0xFFFFFFFF with seed 0 the `int64_t` square overflows; in a build that wraps it, `opaque_true` is false and `opaque_false` true |
| `Primitives.OpaqueOnInt32` | include/vivisect/core/primitives.hpp:27-50 | for values and seeds that fit in `int`, as at every call site in the flattener and the junk-code generator, there is no `int64_t` overflow: `opaque_true` is true and `opaque_false` false, as with the square taken exactly |
| `Primitives.MixedSelf` | include/vivisect/core/primitives.hpp:46-48 | a value mixed with itself is 0, so `opaque_*(x, x)` reduce to `0*0 >= 0` and `0*0 < 0` |
| `Mba.Selector` | include/vivisect/modules/mba.hpp:14 | `variant % 5` is C++'s truncated remainder: in -4..4, and the ordinary remainder for a non-negative variant |
| `Mba.AddVariant0` | include/vivisect/modules/mba.hpp:15-16 | `(a ^ b) + 2 * (a & b)` and `(a ^ b) + ((a & b) << 1)` equal `a + b` modulo 2^32 |
| `Mba.AddVariant1` | include/vivisect/modules/mba.hpp:17-18 | `(a OR b) + (a & b)` equals `a + b` modulo 2^32 |
| `Mba.AddVariant2` | include/vivisect/modules/mba.hpp:19-20 | `2 * (a OR b) - (a ^ b)` equals `a + b` modulo 2^32 |
| `Mba.AddVariant4` | include/vivisect/modules/mba.hpp:23-24 | `a - ~b - 1` equals `a + b` modulo 2^32 |
| `Mba.Add` | include/vivisect/modules/mba.hpp:13-28 | `add(a, b, v)` is `a + b` modulo 2^32 for every variant, negative ones included |
| `Mba.SubParts` | modules/mba.hpp:54-56 | `a - b` is `(a & ~b) - (~a & b)` exactly |
| `Mba.SubVariant0` | include/vivisect/modules/mba.hpp:32-33 | `(a ^ b) - 2 * (~a & b)` and its shift form equal `a - b` modulo 2^32 |
| `Mba.SubVariant1` | include/vivisect/modules/mba.hpp:34-35 | `(a & ~b) - (~a & b)` equals `a - b` modulo 2^32 |
| `Mba.SubVariant2` | include/vivisect/modules/mba.hpp:36-37 | `2 * (a & ~b) - (a ^ b)` equals `a - b` modulo 2^32 |
| `Mba.SubVariant4` | include/vivisect/modules/mba.hpp:40-41 | `a + ~b + 1` equals `a - b` modulo 2^32 |
| `Mba.Sub` | modules/mba.hpp:49-69 | `sub(a, b, v)` is `a - b` modulo 2^32 for every variant |
| `Mba.XorVariant0` | include/vivisect/modules/mba.hpp:49-50 | `(a OR b) - (a & b)` equals `a ^ b` |
| `Mba.XorVariant1` | include/vivisect/modules/mba.hpp:51-52 | `(a + b) - 2 * (a & b)` equals `a ^ b` |
| `Mba.XorVariant4` | include/vivisect/modules/mba.hpp:57-58 | `(a - b) + 2 * (~a & b)` equals `a ^ b` |
| `Mba.XorOp` | modules/mba.hpp:73-93 | `xor_op(a, b, v)` is `a ^ b` for every variant |
| `Mba.AndVariant0` | include/vivisect/modules/mba.hpp:66-67 | `(a + b) - (a OR b)` equals `a & b` |
| `Mba.AndVariant1` | include/vivisect/modules/mba.hpp:68-69 | `(a + b) - (a ^ b)` is `2 * (a & b)` modulo 2^32, not `a & b` |
| `Mba.AndVariant3` | include/vivisect/modules/mba.hpp:72-73 | `(a OR b) - (a ^ b)` equals `a & b` |
| `Mba.AndOp` | include/vivisect/modules/mba.hpp:64-79 | `and_op` as written: `a & b` for every variant except 1, which gives `2 * (a & b)` modulo 2^32 |
| `Mba.AndVariant1Corrected` | modules/mba.hpp:102-103 | subtracting `a & b` once more from variant 1 gives `a & b` |
| `Mba.AndOpCorrected` | modules/mba.hpp:97-118 | `and_op` with variant 1 corrected is `a & b` for every variant |
| `Mba.AndOpVariant1Wrong` | include/vivisect/modules/mba.hpp:68-69 | variant 1 agrees with `a & b` exactly when `a & b == 0` |
| `Mba.AndOpCounterexample` | modules/mba.hpp:102-104 | for `a == b` with `0 < a < 2^31`, variant 1 returns `2a` while `a & a == a` |
| `Mba.OrVariant0` | include/vivisect/modules/mba.hpp:83-84 | `(a + b) - (a & b)` equals `a OR b` |
| `Mba.OrVariant1` | include/vivisect/modules/mba.hpp:85-90 | `(a ^ b) + (a & b)` and `(a & b) + (a ^ b)` equal `a OR b` |
| `Mba.OrVariant4` | include/vivisect/modules/mba.hpp:91-92 | `a + b` equals `a OR b` exactly when `a & b == 0` |
| `Mba.OrOp` | include/vivisect/modules/mba.hpp:81-96 | `or_op` as written: `a OR b` for every variant except 4, which gives `a + b` modulo 2^32 |
| `Mba.OrOpCorrected` | modules/mba.hpp:122-143 | `or_op` with variant 4 corrected to `(a + b) - (a & b)` is `a OR b` for every variant |
| `Mba.OrOpVariant4Wrong` | modules/mba.hpp:136-139 | variant 4 agrees with `a OR b` exactly when `a & b == 0` |
| `Mba.OrOpCounterexample` | include/vivisect/modules/mba.hpp:91-92 | for `a == b` with `0 < a < 2^31`, variant 4 returns `2a` while `a OR a == a` |
| `Mba.NotVariant1` | include/vivisect/modules/mba.hpp:102-109 | `-a - 1`, `-(a + 1)` and `0 - a - 1` equal `~a` under wrap-around |
| `Mba.NotOp` | modules/mba.hpp:147-167 | `not_op(a, v)` is `~a` for every variant |
| `Mba.OpSelect` | include/vivisect/modules/mba.hpp:119-120 | `op_select` is an LCG output, below 2^31 |
| `Mba.MaskRoundKeeps` | include/vivisect/modules/mba.hpp:136-141 | case 3 of `chain` keeps the value when neither `and_op` call uses variant 1, whatever `or_op`'s variant |
| `Mba.OrOpZero` | include/vivisect/modules/mba.hpp:81-96 | `x OR 0 == x` by every `or_op` formula, variant 4 included |
| `Mba.AndOpSelfDoubled` | include/vivisect/modules/mba.hpp:68-69 | variant 1 gives `m & m` as `2m` modulo 2^32 |
| `Mba.AndOpComplement` | include/vivisect/modules/mba.hpp:139 | `m & not_op(m)` is 0 by every `and_op` formula but variant 1 |
| `Mba.AndOpComplementLeft` | include/vivisect/modules/mba.hpp:138 | `~m & m` is 0 by every `and_op` formula but variant 1 |
| `Mba.AndOpNotDoubled` | include/vivisect/modules/mba.hpp:139 | variant 1 gives `~m & not_op(m)` as `2·~m` modulo 2^32 |
| `Mba.MaskRoundFirst` | include/vivisect/modules/mba.hpp:138-140 | with variant 1 on the first part, case 3 maps `mask` to `2·mask` modulo 2^32 |
| `Mba.MaskRoundSecond` | include/vivisect/modules/mba.hpp:139-140 | with variant 1 on the second part, case 3 maps `~mask` to `2·~mask` modulo 2^32 |
| `Mba.NotNot` | include/vivisect/modules/mba.hpp:132-134 | `~~a == a`, the identity behind case 2 |
| `Mba.Round` | include/vivisect/modules/mba.hpp:119-144 | one round of `chain` keeps its value for cases 0, 1 and 2 and for case 3 when neither `and_op` call uses variant 1 |
| `Mba.Chain` | include/vivisect/modules/mba.hpp:115-118 | `chain(value, depth)` is `value` for `depth <= 0`, and for every depth when its round keeps values |
| `Mba.RoundCase3` | include/vivisect/modules/mba.hpp:136-141 | a round whose `op_select % 4 == 3` is the mask round with `next()` of counter + 3 as the mask |
| `Mba.ChainOne` | modules/mba.hpp:173-199 | `chain` at depth 1 is one round |
| `Mba.NextVariant` | include/vivisect/modules/mba.hpp:138-139 | `op_select` and `op_select + 1` never both select variant 1 |
| `Mba.RoundBreaksFirst` | include/vivisect/modules/mba.hpp:138 | with variant 1 on the first `and_op` and a nonzero mask, `chain(mask, 1)` is not `mask` |
| `Mba.RoundBreaksSecond` | include/vivisect/modules/mba.hpp:139 | with variant 1 on the second `and_op`, `chain(~mask, 1)` is not `~mask` |
| `Mba.RoundBreaks` | include/vivisect/modules/mba.hpp:136-141 | the converse of `Round`'s contract: when case 3 uses variant 1 and the mask is nonzero, some value changes |
| `Mba.ChainCounterexample` | include/vivisect/modules/mba.hpp:119-141 | `__COUNTER__` 6 gives `op_select` 178652871, which selects case 3 with variant 1, so `chain` changes some value |
| `Mba.ChainAfterUmbrella` | include/vivisect/modules/mba.hpp:115-135 | with counter 1, the value `chain`'s `__COUNTER__` has when `vivisect.hpp` is read first, `op_select` selects case 2 and `chain` returns its value at every depth |
| `Mba.RoundCorrected` | modules/mba.hpp:182-208 | a round built on the corrected `and_op` and `or_op` is the identity for every counter |
| `Mba.ChainCorrected` | modules/mba.hpp:170-212 | `chain` built on the corrected round is the identity for every depth and counter |
| `Ciphers.RoundSumNext` | include/vivisect/modules/string_crypt.hpp:20 | the running `sum` after i + 1 rounds is the sum after i rounds plus DELTA, modulo 2^32 |
| `Ciphers.XteaRoundInverse` | include/vivisect/modules/string_crypt.hpp:19-29 | a decryption iteration entered with the sum an encryption iteration left undoes that iteration |
| `Ciphers.XteaRoundsInverse` | modules/string_crypt.hpp:26-43 | decryption rounds hi down to lo + 1, started at `DELTA * hi`, undo encryption rounds lo + 1 to hi |
| `Ciphers.XteaDecryptEncrypt` | include/vivisect/modules/string_crypt.hpp:16-31 | XTEA `decrypt` undoes `encrypt` for every block and every 4-word key |
| `Ciphers.XteaEncryptBlock` | include/vivisect/modules/string_crypt.hpp:16-23 | the 32-round loop over `v0`, `v1` and `sum` computes the XTEA encryption of the block |
| `Ciphers.XteaDecryptBlock` | modules/string_crypt.hpp:36-43 | the loop with `sum` counting down from `DELTA * ROUNDS` computes the XTEA decryption of the block |
| `Ciphers.RotateInverse` | modules/string_crypt.hpp:68-75 | `rotate_right(rotate_left(x, b), b) == x` for 0 < b < 32 |
| `Ciphers.RotateLeftValue` | include/vivisect/modules/string_crypt.hpp:46-48 | rotating left by k moves the top k bits to the bottom: `(x mod 2^(32-k))·2^k + x / 2^(32-k)` |
| `Ciphers.RotateRightValue` | include/vivisect/modules/string_crypt.hpp:49-51 | rotating right by k moves the bottom k bits back to the top |
| `Ciphers.RoundFunctionBijective` | include/vivisect/modules/string_crypt.hpp:52-59 | `round_function` is a permutation of words for each key: its step-by-step inverse recovers x |
| `Ciphers.FeistelRoundInverse` | include/vivisect/modules/string_crypt.hpp:62-64 | one decryption round undoes one encryption round with the same round key |
| `Ciphers.FeistelRoundsInverse` | modules/string_crypt.hpp:88-115 | decryption rounds hi - 1 down to lo, with `key[(round - 1) % 4]`, undo encryption rounds lo to hi - 1 |
| `Ciphers.FeistelDecryptEncrypt` | include/vivisect/modules/string_crypt.hpp:60-79 | the Feistel `decrypt` undoes `encrypt`: the final swap first, then the rounds in reverse |
| `Ciphers.FeistelEncryptBlock` | include/vivisect/modules/string_crypt.hpp:60-69 | the 8-round loop followed by the swap computes the Feistel encryption of the block |
| `Ciphers.FeistelDecryptBlock` | include/vivisect/modules/string_crypt.hpp:70-79 | the swap followed by the descending round loop computes the Feistel decryption |
| `Ciphers.DecryptEncrypt` | modules/string_crypt.hpp:26-115 | for either cipher, `decrypt` undoes `encrypt` for every block and key |
| `Ciphers.EncryptBlock` | include/vivisect/modules/string_crypt.hpp:111 | `Cipher::encrypt` on a block, for the cipher chosen by the template argument |
| `Ciphers.DecryptBlock` | include/vivisect/modules/string_crypt.hpp:123 | `Cipher::decrypt` on a block, for the cipher chosen by the template argument |
| `Ciphers.MapBlocks` | include/vivisect/modules/string_crypt.hpp:32-41 | after replacing the first n blocks through f, block i is f of the old block i and every word from 2n on is unchanged |
| `Ciphers.MapBlocksInverse` | include/vivisect/modules/string_crypt.hpp:80-89 | mapping a left inverse over the blocks f produced restores the buffer |
| `Ciphers.MapBlocksNext` | include/vivisect/modules/string_crypt.hpp:33-35 | one more iteration updates exactly words 2i and 2i + 1 |
| `Ciphers.EncryptWords` | include/vivisect/modules/string_crypt.hpp:32-36 | `encrypt_buffer` keeps the buffer length and leaves words from 2n on unchanged |
| `Ciphers.DecryptWords` | include/vivisect/modules/string_crypt.hpp:37-41 | `decrypt_buffer` keeps the buffer length and leaves words from 2n on unchanged |
| `Ciphers.DecryptWordsEncryptWords` | include/vivisect/modules/string_crypt.hpp:32-41 | `decrypt_buffer(encrypt_buffer(d, n, k), n, k) == d` for either cipher |
| `Ciphers.EncryptBuffer` | modules/string_crypt.hpp:46-51 | the in-place loop leaves the array equal to the first n blocks encrypted, the rest as before |
| `Ciphers.EncryptStep` | include/vivisect/modules/string_crypt.hpp:34 | one loop iteration encrypts block i in place |
| `Ciphers.DecryptBuffer` | modules/string_crypt.hpp:53-58 | the in-place loop leaves the array equal to the first n blocks decrypted, the rest as before |
| `Ciphers.DecryptStep` | include/vivisect/modules/string_crypt.hpp:39 | one loop iteration decrypts block i in place |
| `StringCrypt.BufferSize` | include/vivisect/modules/string_crypt.hpp:159 | `buffer_size_` is the least multiple of 8 that is at least N |
| `StringCrypt.NumBlocks` | modules/string_crypt.hpp:239-240 | `num_blocks_` is `buffer_size_ / 8` |
| `StringCrypt.DeriveKey` | include/vivisect/modules/string_crypt.hpp:95-98 | the first key word xor the header line gives back `compile_time_seed()`, so it depends on the build time and the line only |
| `StringCrypt.DeriveKeyTruncates` | modules/string_crypt.hpp:142-145 | `__COUNTER__` and N enter `mix_seed` as `uint32_t`, so only their values modulo 2^32 affect the key |
| `StringCrypt.KeysByCounter` | include/vivisect/modules/string_crypt.hpp:95-98 | literals of one length from translation units whose counters differ modulo 2^32, built with one header copy at one time, share `key_[0]` and differ in `key_[1]`, `key_[2]` and `key_[3]` |
| `StringCrypt.KeysByLength` | include/vivisect/modules/string_crypt.hpp:94-98 | within one translation unit, where the counter is one value, two literals get equal keys exactly when their lengths agree modulo 2^32 |
| `StringCrypt.TwinKeysDiffer` | modules/string_crypt.hpp:142 | the copy at line 142 and the copy at line 95 (`include/vivisect/modules/string_crypt.hpp`) give the same literal, time and counter different first key words |
| `StringCrypt.Padded` | include/vivisect/modules/string_crypt.hpp:99-104 | `char_buffer_` holds the literal followed by zeros up to `buffer_size_` |
| `StringCrypt.HornerBound` | include/vivisect/modules/string_crypt.hpp:106-110 | k packed bytes form a value below 256^k |
| `StringCrypt.BytesHorner` | include/vivisect/modules/string_crypt.hpp:124-127 | reading a packed value back byte by byte on a little-endian host gives its bytes |
| `StringCrypt.HornerBytes` | modules/string_crypt.hpp:157-165 | a value below 256^k is the packing of its first k bytes |
| `StringCrypt.HornerSnoc` | include/vivisect/modules/string_crypt.hpp:109 | adding byte m of a word puts it at weight 256^m |
| `StringCrypt.Pack` | include/vivisect/modules/string_crypt.hpp:105-110 | after packing there is one word per four bytes |
| `StringCrypt.Unpack` | include/vivisect/modules/string_crypt.hpp:124-127 | the char view of a word buffer has four bytes per word |
| `StringCrypt.UnpackPack` | include/vivisect/modules/string_crypt.hpp:106-127 | unpacking the packed words gives the original bytes back |
| `StringCrypt.PackUnpack` | modules/string_crypt.hpp:157-165 | packing the bytes of a word buffer gives the words back |
| `StringCrypt.PackStep` | include/vivisect/modules/string_crypt.hpp:109 | `temp_data[i/4] OR= byte << 8·(i%4)` adds byte i to the word's packed prefix |
| `StringCrypt.PartialPackStep` | include/vivisect/modules/string_crypt.hpp:106-110 | one iteration of the packing loop changes only word i/4 |
| `StringCrypt.PartialPackDone` | include/vivisect/modules/string_crypt.hpp:106-110 | after all iterations byte i sits in word i/4 at bit offset 8·(i%4) |
| `StringCrypt.PackWords` | modules/string_crypt.hpp:155-165 | the packing loop over a zeroed `temp_data` yields the packed words |
| `StringCrypt.UnpackWords` | include/vivisect/modules/string_crypt.hpp:124-127 | the copy through the char pointer yields the little-endian bytes of the words |
| `StringCrypt.ScrubBytes` | include/vivisect/modules/string_crypt.hpp:129-131 | the scratch character buffer is zeroed |
| `StringCrypt.ScrubWords` | include/vivisect/modules/string_crypt.hpp:132-134 | the scratch word buffer is zeroed |
| `StringCrypt.CopyWords` | include/vivisect/modules/string_crypt.hpp:112-114 | the copy loop makes the destination equal to the source |
| `StringCrypt.EncryptedString.constructor` | include/vivisect/modules/string_crypt.hpp:94-115 | the object keeps N, the derived key and the buffer of the padded, packed, encrypted literal |
| `StringCrypt.EncryptedString.FillBuffer` | modules/string_crypt.hpp:148-154 | the copy and padding loops make `char_buffer_` the padded literal |
| `StringCrypt.EncryptedString.Seal` | modules/string_crypt.hpp:155-169 | `encrypted_data_` is `encrypt_buffer` of the packed buffer |
| `StringCrypt.EncryptedString.Decrypt` | include/vivisect/modules/string_crypt.hpp:116-140 | `decrypt()` returns exactly the first N - 1 characters of the literal, for every key and either cipher |
| `StringCrypt.EncryptedString.CStr` | modules/string_crypt.hpp:208-231 | `c_str()` fills the buffer with the padded literal and writes the terminator at `original_length_` |
| `StringCrypt.EncryptedString.Length` | include/vivisect/modules/string_crypt.hpp:155-157 | `length()` is N - 1 |
| `ControlFlow.Iterations` | include/vivisect/modules/control_flow.hpp:35 | a `for (int i = 0; i < count; ++i)` loop runs `max(count, 0)` iterations |
| `ControlFlow.ToggleTimesParity` | include/vivisect/modules/control_flow.hpp:41 | n seed toggles leave the seed unchanged for even n and toggled once for odd n |
| `ControlFlow.InjectBogusPaths` | include/vivisect/modules/control_flow.hpp:21-32 | for every strategy the `opaque_false` guard never holds, so `dummy` stays 0 and the seed is not written |
| `ControlFlow.AddOpaqueBranches` | include/vivisect/modules/control_flow.hpp:33-43 | for every strategy the taken branch runs once per iteration, and the seed is toggled `max(count, 0)` times |
| `ControlFlow.AddOpaqueBranchesNet` | include/vivisect/modules/control_flow.hpp:66-74 | the seed ends unchanged for an even count and xor 0xDEADBEEF for an odd count |
| `ControlFlow.GenerateStateId` | include/vivisect/modules/control_flow.hpp:44-49 | state tags from `generate_state_id` are below 2^31 |
| `ControlFlow.MakeStateId` | include/vivisect/modules/control_flow.hpp:138-143 | state tags from `make_state_id` are below 2^31 |
| `ControlFlow.MakeStateIdIsGenerate` | include/vivisect/modules/control_flow.hpp:139-142 | `make_state_id<Id>` is `generate_state_id<Id, 141>`, the header's own line |
| `ControlFlow.StateMachineContext.constructor` | include/vivisect/modules/control_flow.hpp:130-137 | the context starts with both states 0, running, and a reference to the given seed |
| `ControlFlow.RunMoreFuel` | include/vivisect/modules/control_flow.hpp:152-174 | a region that reaches `default` within some bound of iterations behaves the same with any larger bound |
| `ControlFlow.RunFinishedLength` | include/vivisect/modules/control_flow.hpp:165-170 | a finished region ran fewer real cases than iterations: the last iteration is the `default` one |
| `ControlFlow.PrefixedStep` | include/vivisect/modules/control_flow.hpp:157-164 | an iteration on a tag with a case runs its stage and continues at the case's next tag |
| `ControlFlow.Dispatch` | include/vivisect/modules/control_flow.hpp:149-174 | the dispatch loop runs the stages of the case table in order from the initial tag until a tag with no case; a finished loop toggles the seed exactly once |
| `ControlFlow.MixNextInjective` | include/vivisect/modules/control_flow.hpp:140-142 | after the `mix_seed` product, `next()` is one-to-one on values below 2^31 |
| `ControlFlow.MakeStateIdInjective` | include/vivisect/modules/control_flow.hpp:138-143 | distinct non-negative ids, which is what `__COUNTER__` produces, give distinct state tags |
| `ControlFlow.Labels` | include/vivisect/modules/control_flow.hpp:158-159 | every state's case label is among the region's labels |
| `ControlFlow.NotInLabels` | include/vivisect/modules/control_flow.hpp:158-159 | a tag that labels no state is not a label of the region |
| `ControlFlow.Table` | include/vivisect/modules/control_flow.hpp:157-164 | the `switch` has a case for exactly the labelled tags |
| `ControlFlow.TableCase` | include/vivisect/modules/control_flow.hpp:158-164 | with distinct labels, each label leads to its own state's stage and to `make_state_id<next_id>` |
| `ControlFlow.TableIgnoresIds` | include/vivisect/modules/control_flow.hpp:158-161 | the case table as written is the same whatever the `id` arguments are |
| `ControlFlow.WrittenIgnoresIds` | include/vivisect/modules/control_flow.hpp:158-161 | regions that differ only in the `id` arguments of `VIVISECT_FLATTEN_STATE` have the same cases and initial state |
| `ControlFlow.WrittenEntryUnlabelled` | include/vivisect/modules/control_flow.hpp:148 | when every STATE expansion comes after BEGIN, as `__COUNTER__` orders them, the initial state labels no case |
| `ControlFlow.WrittenRunsNoStage` | include/vivisect/modules/control_flow.hpp:145-175 | a region as written runs no stage: its first iteration reaches `default` |
| `ControlFlow.Stages` | include/vivisect/modules/control_flow.hpp:158-161 | the stage sequence has one entry per state, in declaration order |
| `ControlFlow.StagesFrom` | include/vivisect/modules/control_flow.hpp:158-161 | the stages from state k on are state k's stage followed by the later stages |
| `ControlFlow.ChainedDistinct` | include/vivisect/modules/control_flow.hpp:158-163 | with cases keyed by distinct non-negative ids, no two cases share a label |
| `ControlFlow.IntendedCase` | include/vivisect/modules/control_flow.hpp:158-164 | keyed by id, state k's tag leads to its stage and to the next state's tag |
| `ControlFlow.IntendedExit` | include/vivisect/modules/control_flow.hpp:163-166 | the last state's NEXT tag labels no case, so the loop then reaches `default` |
| `ControlFlow.RunCons` | include/vivisect/modules/control_flow.hpp:157-164 | a case runs its stage before everything its successor tag runs |
| `ControlFlow.IntendedLast` | include/vivisect/modules/control_flow.hpp:157-170 | keyed by id, from the last state the loop runs its stage and stops |
| `ControlFlow.IntendedStep` | include/vivisect/modules/control_flow.hpp:157-164 | keyed by id, from state k the loop runs state k's stage and then what state k + 1 runs |
| `ControlFlow.IntendedSuffix` | include/vivisect/modules/control_flow.hpp:152-174 | keyed by id, from state k the loop runs the remaining stages in order and stops |
| `ControlFlow.IntendedRunsInOrder` | include/vivisect/modules/control_flow.hpp:145-175 | with cases keyed by `make_state_id<id>` and entry at the first state, a chained region runs exactly its stages in order and stops |
| `ControlFlow.TwoStagesWritten` | include/vivisect/modules/control_flow.hpp:145-175 | BEGIN at counter 0 and two states at counters 1 and 2 run no stage as written |
| `ControlFlow.TwoStagesIntended` | include/vivisect/modules/control_flow.hpp:145-175 | the same two-state region keyed by id runs stages 1 and 2 in order |
| `ControlFlow.RunRegion` | include/vivisect/modules/control_flow.hpp:145-175 | the macros as written: the loop over the STATE expansions' cases from BEGIN's tag runs no stage when the counters are as `__COUNTER__` gives them; it toggles the seed once |
| `ControlFlow.RunRegionIntended` | include/vivisect/modules/control_flow.hpp:145-175 | the macros keyed by id: a chained region runs all its stages in order and toggles the seed once |
| `ControlFlow.FlattenBlock` | include/vivisect/modules/control_flow.hpp:176-199 | `VIVISECT_FLATTEN_BLOCK(code)` runs `code` exactly once and leaves the seed as it was |
| `Vm.Code` | include/vivisect/modules/vm_engine.hpp:10-32 | the 21 opcodes have enumerator values 0..20 |
| `Vm.OpcodeOf` | include/vivisect/modules/vm_engine.hpp:10-32 | every value below 21 names the opcode with that enumerator value |
| `Vm.InitialTable` | include/vivisect/modules/vm_engine.hpp:138-271 | after `initialize_handlers` slot k holds opcode k's handler for k < 21 and slots 21-31 are empty |
| `Vm.InitialMachine` | include/vivisect/modules/vm_engine.hpp:54-58 | a new `VMState` has zero registers, memory, pc, flags and stack pointer and refers to the given seed |
| `Vm.SetResult` | include/vivisect/modules/vm_engine.hpp:141-142 | writing a result keeps the machine well formed and the seed as it was |
| `Vm.HandleArithmetic` | include/vivisect/modules/vm_engine.hpp:139-200 | the arithmetic handlers keep the seed; only a shift with valid registers by 32 or more has no defined result |
| `Vm.Shift` | include/vivisect/modules/vm_engine.hpp:189-200 | SHL and SHR are defined exactly when the registers are invalid or the count is below 32 |
| `Vm.HandleData` | include/vivisect/modules/vm_engine.hpp:201-221 | LOAD, STORE, LOAD_IMM and MANGLE_KEY keep the machine well formed and never write the seed |
| `Vm.HandleTransfer` | include/vivisect/modules/vm_engine.hpp:222-253 | the control handlers keep the stack pointer in [0, 32] and never write the seed |
| `Vm.Handle` | include/vivisect/modules/vm_engine.hpp:138-271 | every handler keeps the seed; only an oversized shift lacks a result |
| `Vm.SlotIndex` | include/vivisect/modules/vm_engine.hpp:123 | `(seed >> 16) % 32` is a table index |
| `Vm.SwapIfOccupied` | include/vivisect/modules/vm_engine.hpp:126-128 | the conditional swap keeps the table size |
| `Vm.MutateRounds` | include/vivisect/modules/vm_engine.hpp:121-129 | the five swap rounds keep the table size |
| `Vm.MutateRoundsUnfold` | include/vivisect/modules/vm_engine.hpp:122-128 | a round draws two indices with two LCG steps and swaps those slots if both are occupied |
| `Vm.Step` | include/vivisect/modules/vm_engine.hpp:79-106 | one loop iteration either halts or yields a well-formed engine |
| `Vm.Advanced` | include/vivisect/modules/vm_engine.hpp:97-106 | the pc advance, the counter increment and the periodic mutation keep the engine well formed |
| `Vm.StepContinues` | include/vivisect/modules/vm_engine.hpp:80-106 | an instruction with valid registers, an occupied slot and a defined handler result continues with the advanced engine |
| `Vm.Loop` | include/vivisect/modules/vm_engine.hpp:78-107 | the loop always ends on a well-formed engine |
| `Vm.Iterate` | include/vivisect/modules/vm_engine.hpp:79-106 | one iteration followed by the rest of the loop ends on a well-formed engine |
| `Vm.Proceed` | include/vivisect/modules/vm_engine.hpp:80-106 | the dispatch part of an iteration ends on a well-formed engine |
| `Vm.LoopStops` | include/vivisect/modules/vm_engine.hpp:78 | once pc is at or past the length, the loop ends with the engine unchanged |
| `Vm.Executed` | include/vivisect/modules/vm_engine.hpp:72-108 | `execute` ends on a well-formed engine |
| `Vm.ArithmeticEffect` | include/vivisect/modules/vm_engine.hpp:139-182 | ADD/SUB/MUL/XOR/AND/OR write `op(src1, src2) mod 2^32` into dest and set flags to 1 exactly when it is 0; nothing else changes |
| `Vm.NotEffect` | include/vivisect/modules/vm_engine.hpp:183-188 | NOT writes `~src1` and sets flags; src2 is not checked |
| `Vm.DivEffect` | include/vivisect/modules/vm_engine.hpp:157-164 | DIV writes the unsigned quotient; a zero divisor leaves the machine, dest and flags included, unchanged |
| `Vm.ShiftEffect` | include/vivisect/modules/vm_engine.hpp:189-200 | SHL/SHR by less than 32 shift modulo 2^32 and set flags |
| `Vm.LoadStoreEffect` | include/vivisect/modules/vm_engine.hpp:201-216 | an address of 256 or more changes nothing; LOAD changes only `reg[dest]`, STORE only `memory[reg[dest]]`; neither touches flags |
| `Vm.StoreThenLoad` | include/vivisect/modules/vm_engine.hpp:201-216 | a LOAD through the address a STORE used reads back the stored word |
| `Vm.ConditionalJumpEffect` | include/vivisect/modules/vm_engine.hpp:225-242 | JZ and JNZ set pc to the immediate or to pc + 1 according to `reg[src1]` |
| `Vm.CallThenRet` | include/vivisect/modules/vm_engine.hpp:243-253 | CALL followed by RET resumes at the CALL's pc + 1 with the stack pointer as before |
| `Vm.StackLimits` | include/vivisect/modules/vm_engine.hpp:244-251 | CALL on a full stack and RET on an empty one change nothing, pc included |
| `Vm.StepPc` | include/vivisect/modules/vm_engine.hpp:97-103 | when the slot holds a non-control handler, pc goes up by exactly 1 after any opcode but JUMP/JZ/JNZ/CALL/RET and stays put after those: the advance keys on the opcode, not on the handler a mutation put in its slot |
| `Vm.StepHalts` | include/vivisect/modules/vm_engine.hpp:80-90 | an iteration halts exactly for an invalid register (any of the three), an opcode of 32 or more or an empty slot, or a shift by 32 or more, with that status |
| `Vm.ShuffledTrans` | include/vivisect/modules/vm_engine.hpp:119-131 | a shuffle of a shuffle is a shuffle |
| `Vm.SwapShuffles` | include/vivisect/modules/vm_engine.hpp:126-128 | a conditional swap keeps the multiset of tags and which slots are occupied |
| `Vm.MutateShuffles` | include/vivisect/modules/vm_engine.hpp:119-131 | `mutate_handlers` permutes the handlers and keeps the set of occupied slots |
| `Vm.StepCounts` | include/vivisect/modules/vm_engine.hpp:104-106 | every iteration adds 1 to the 32-bit counter and mutates the table and toggles the seed exactly when the new count is a multiple of 100 |
| `Vm.StepShuffles` | include/vivisect/modules/vm_engine.hpp:104-106 | the table after an iteration is a shuffle of the table before it |
| `Vm.LoopUnfold` | include/vivisect/modules/vm_engine.hpp:78-107 | an iteration halts with the engine reached before the faulty instruction, or the loop goes on from a shuffled next engine |
| `Vm.LoopOutcome` | include/vivisect/modules/vm_engine.hpp:78-107 | the loop completes exactly when pc leaves the bytecode, and halts only at an instruction with that status's defect, keeping earlier effects |
| `Vm.LoopShuffles` | include/vivisect/modules/vm_engine.hpp:104-106 | the table the loop leaves is a shuffle of the one it started with |
| `Vm.ExecutedOutcome` | include/vivisect/modules/vm_engine.hpp:72-77 | empty bytecode is reported as invalid and changes nothing; otherwise the loop starts from pc 0 |
| `Vm.LoopOrdinary` | include/vivisect/modules/vm_engine.hpp:97-106 | an ordinary iteration continues with pc + 1, the counter + 1 and the table unchanged |
| `Vm.Ready0` | include/vivisect/integration/main_protect.hpp:64 | `LOAD_IMM r0, x` is an ordinary first iteration of the cleanup program |
| `Vm.Cleanup0` | include/vivisect/integration/main_protect.hpp:64 | after the first instruction r0 holds x |
| `Vm.Ready1` | include/vivisect/integration/main_protect.hpp:65 | `NOT r1, r0` is an ordinary second iteration |
| `Vm.Cleanup1` | include/vivisect/integration/main_protect.hpp:65 | after the second instruction r1 holds `~x` |
| `Vm.Ready2` | include/vivisect/integration/main_protect.hpp:66 | `XOR r2, r0, r1` is an ordinary third iteration |
| `Vm.Cleanup2` | include/vivisect/integration/main_protect.hpp:66 | after the third instruction r2 holds 0xFFFFFFFF |
| `Vm.Ready3` | include/vivisect/integration/main_protect.hpp:67 | `JUNK_OP` is an ordinary fourth iteration that changes nothing |
| `Vm.Cleanup3` | include/vivisect/integration/main_protect.hpp:67 | after the fourth instruction the registers are as before |
| `Vm.Ready4` | include/vivisect/integration/main_protect.hpp:68 | `MANGLE_KEY r3, r2` is an ordinary fifth iteration |
| `Vm.Cleanup4` | include/vivisect/integration/main_protect.hpp:68 | after the fifth instruction r3 holds `mix_seed(0xFFFFFFFF, seed)` |
| `Vm.CleanupProgram` | include/vivisect/integration/main_protect.hpp:62-70 | on a fresh engine the cleanup program completes with r2 == 0xFFFFFFFF, r3 its mix with the seed, and the table untouched, whatever word it loads |
| `Vm.VMState.constructor` | include/vivisect/modules/vm_engine.hpp:54-58 | a new state is zeroed and refers to the given seed |
| `Vm.VMState.RunHandler` | include/vivisect/modules/vm_engine.hpp:92 | running the handler in place changes the state as `Handle` says, or not at all for an undefined shift |
| `Vm.VMState.RunArithmetic` | include/vivisect/modules/vm_engine.hpp:139-200 | the arithmetic handlers update the arrays in place as `HandleArithmetic` says |
| `Vm.VMState.RunNot` | include/vivisect/modules/vm_engine.hpp:183-188 | the NOT handler in place |
| `Vm.VMState.RunBinary` | include/vivisect/modules/vm_engine.hpp:139-182 | the ADD, SUB, MUL, XOR, AND and OR handlers in place |
| `Vm.VMState.RunDiv` | include/vivisect/modules/vm_engine.hpp:157-164 | the DIV handler in place |
| `Vm.VMState.RunShift` | include/vivisect/modules/vm_engine.hpp:189-200 | the SHL and SHR handlers in place, reporting an undefined count |
| `Vm.VMState.WriteResult` | include/vivisect/modules/vm_engine.hpp:141-142 | `registers[d] = v` and `flags = (v == 0)` |
| `Vm.VMState.RunData` | include/vivisect/modules/vm_engine.hpp:201-260 | the LOAD, STORE, LOAD_IMM and MANGLE_KEY handlers in place |
| `Vm.VMState.RunTransfer` | include/vivisect/modules/vm_engine.hpp:222-253 | the JUMP, JZ, JNZ, CALL and RET handlers in place |
| `Vm.VMEngine.constructor` | include/vivisect/modules/vm_engine.hpp:69-71 | a new engine has a zeroed state, the registered handlers and a zero counter |
| `Vm.VMEngine.InitializeHandlers` | include/vivisect/modules/vm_engine.hpp:138-271 | registration fills the slots 0..20 of an empty table with their opcodes' handlers |
| `Vm.VMEngine.RegisterHandler` | include/vivisect/modules/vm_engine.hpp:113-118 | `register_handler(op, h)` overwrites slot op and nothing else |
| `Vm.VMEngine.MutateHandlers` | include/vivisect/modules/vm_engine.hpp:119-131 | the table becomes five LCG-chosen conditional swaps of itself and the seed is toggled once |
| `Vm.VMEngine.MutateRound` | include/vivisect/modules/vm_engine.hpp:122-128 | one loop round: two LCG steps choose the slots, then the conditional swap |
| `Vm.VMEngine.SwapSlots` | include/vivisect/modules/vm_engine.hpp:126-128 | `std::swap` of two slots when both hold a handler |
| `Vm.VMEngine.ExecuteStep` | include/vivisect/modules/vm_engine.hpp:79-106 | one iteration of the loop in place, agreeing with the loop's specification |
| `Vm.VMEngine.Dispatch` | include/vivisect/modules/vm_engine.hpp:80-106 | validation, dispatch and advance in place; a halt leaves the engine unchanged |
| `Vm.VMEngine.Advance` | include/vivisect/modules/vm_engine.hpp:97-106 | pc, the counter and the periodic mutation in place |
| `Vm.VMEngine.Execute` | include/vivisect/modules/vm_engine.hpp:72-108 | `execute(bytecode, length)` in place agrees with its value-level specification |
| `Vm.VMEngine.RunLoop` | include/vivisect/modules/vm_engine.hpp:77-107 | the while loop in place agrees with its value-level specification |
| `Config.SetBoolGetBool` | include/vivisect/core/config.hpp:82-102 | assigning a bool field changes that field and no other bool field |
| `Config.SetBoolGetInt` | include/vivisect/core/config.hpp:82-102 | assigning a bool field leaves every int field alone |
| `Config.SetIntGetInt` | include/vivisect/core/config.hpp:82-102 | assigning an int field changes that field and no other int field |
| `Config.SetIntGetBool` | include/vivisect/core/config.hpp:82-102 | assigning an int field leaves every bool field alone |
| `Config.Extensionality` | include/vivisect/core/config.hpp:12-33 | a profile is determined by its 21 fields |
| `Config.Bounds` | include/vivisect/core/config.hpp:34-44 | each int field has a non-empty accepted range (frequency: 1 up to INT_MAX) |
| `Config.ValidateBounds` | include/vivisect/core/config.hpp:34-44 | `validate` accepts exactly when complexity 0..20, predicates 0..50, rounds 1..10, handlers 8..256, frequency >= 1, density 0..10, MBA complexity 0..20 and chain depth 1..10 |
| `Config.ValidateIgnoresBools` | include/vivisect/core/config.hpp:34-44 | the bool fields play no part in validation |
| `Config.PresetsValid` | include/vivisect/core/config.hpp:107-175 | the default profile and the MINIMAL, BALANCED and MAXIMUM presets validate |
| `Config.DefaultIsBalancedWithOneRound` | include/vivisect/core/config.hpp:13-33 | the default profile is BALANCED except for one encryption round instead of two |
| `Config.JunkDensityEdges` | include/vivisect/core/config.hpp:40 | junk density 0 and 10 pass, 11 and -1 fail |
| `Config.AllRecognised` | include/vivisect/core/config.hpp:82-102 | every key `serialize` writes is free of `=` and newline and is read back by the comparison chain as the same field |
| `Config.ProfileLines` | include/vivisect/core/config.hpp:47-67 | one `key=value` line per field in the order written |
| `Config.LineOf` | include/vivisect/core/config.hpp:47-67 | no serialized line contains a newline |
| `Config.ClassifyNamed` | include/vivisect/core/config.hpp:75-79 | a line `name=v` of a known key splits at its first `=` into that key and v |
| `Config.LineApplies` | include/vivisect/core/config.hpp:80-102 | reading the line written for field k copies field k and nothing else |
| `Config.ApplyProfileLines` | include/vivisect/core/config.hpp:74-103 | reading the serialized lines of any list of keys copies those fields in order |
| `Config.CopyBool` | include/vivisect/core/config.hpp:82-102 | copying field k changes bool field b only when k is b |
| `Config.CopyInt` | include/vivisect/core/config.hpp:82-102 | copying field k changes int field i only when k is i |
| `Config.OverwriteBool` | include/vivisect/core/config.hpp:74-103 | after copying a list of keys, a bool field comes from the source exactly when it is listed |
| `Config.OverwriteInt` | include/vivisect/core/config.hpp:74-103 | after copying a list of keys, an int field comes from the source exactly when it is listed |
| `Config.BoolSerialized` | include/vivisect/core/config.hpp:45-69 | `serialize` writes every bool field |
| `Config.IntSerialized` | include/vivisect/core/config.hpp:45-69 | `serialize` writes every int field |
| `Config.OverwriteAll` | include/vivisect/core/config.hpp:47-67 | copying all fields in `serialize`'s order yields the source profile from any start |
| `Config.RoundTrip` | include/vivisect/core/config.hpp:45-105 | `deserialize(serialize(p)) == p` for every profile, valid or not |
| `Config.ApplyBool` | include/vivisect/core/config.hpp:80-102 | a line sets bool field b to `parse_bool(value)` only when it names b |
| `Config.ApplyInt` | include/vivisect/core/config.hpp:81-101 | a line that names int field i succeeds only with a `stoi`-readable value, which becomes field i's value |
| `Config.ApplyLineFails` | include/vivisect/core/config.hpp:81 | a line fails exactly when it names an int field with a value `stoi` rejects |
| `Config.UnsetBoolKept` | include/vivisect/core/config.hpp:71-104 | a bool field no line sets keeps its default |
| `Config.LastBoolWins` | include/vivisect/core/config.hpp:74-103 | a bool field takes the value of the last line that sets it |
| `Config.UnsetIntKept` | include/vivisect/core/config.hpp:71-104 | an int field no line sets keeps its default |
| `Config.LastIntWins` | include/vivisect/core/config.hpp:74-103 | an int field takes `stoi` of the last line that sets it |
| `Config.ApplyLinesFails` | include/vivisect/core/config.hpp:74-103 | `deserialize` throws exactly when some line gives an int field a value `stoi` rejects |
| `Config.DeserializeEmpty` | include/vivisect/core/config.hpp:71 | empty text reads as the default profile |
| `Config.DeserializeText` | include/vivisect/core/config.hpp:70-105 | the `getline` loop over a local profile computes `deserialize` |
| `StdText.DigitChar` | include/vivisect/core/config.hpp:48 | the character written for a digit d is the decimal digit whose code is 48 + d |
| `StdText.NatDigits` | include/vivisect/core/config.hpp:48 | `os << n` writes a non-empty run of digits with no leading zero except for 0 itself |
| `StdText.Decimal` | include/vivisect/core/config.hpp:48 | the text of an int is non-empty and holds neither `=` nor a newline |
| `StdText.BoolText` | include/vivisect/core/config.hpp:47 | `os << b` writes "1" exactly for true |
| `StdText.SkipSpace` | include/vivisect/core/config.hpp:81 | stoi's leading white-space skip never lengthens the text |
| `StdText.DigitRun` | include/vivisect/core/config.hpp:81 | the digit run stoi reads fits inside the text |
| `StdText.DigitsValueOfNat` | include/vivisect/core/config.hpp:48 | the digits written for n denote n |
| `StdText.DigitRunAll` | include/vivisect/core/config.hpp:81 | the digit run of a digit string followed by a non-digit is that whole string |
| `StdText.ConvertKnown` | include/vivisect/core/config.hpp:81 | a digit run whose value fits int (with its sign) converts to that value |
| `StdText.ConvertRun` | include/vivisect/core/config.hpp:81 | converting digits followed by a non-digit reads exactly those digits |
| `StdText.StoiPlain` | include/vivisect/core/config.hpp:81 | stoi of digits below 2^31 followed by a non-digit is their value |
| `StdText.StoiMinus` | include/vivisect/core/config.hpp:81 | stoi of a minus sign and digits up to 2^31 followed by a non-digit is the negated value |
| `StdText.StoiDecimal` | include/vivisect/core/config.hpp:48 | stoi reads back every int the stream wrote, whatever non-digit follows |
| `StdText.StoiInvalid` | include/vivisect/core/config.hpp:81 | stoi throws invalid_argument exactly when no digit follows the white space and the optional sign |
| `StdText.Find` | include/vivisect/core/config.hpp:76-77 | `find` gives the first index of the character, or npos exactly when it is absent |
| `StdText.Lines` | include/vivisect/core/config.hpp:74 | no line getline yields contains a newline |
| `StdText.LinesOfJoin` | include/vivisect/core/config.hpp:47-74 | getline splits the newline-terminated lines serialize writes back into those lines |
| `StdText.FindAfter` | include/vivisect/core/config.hpp:76 | in a key free of `=` followed by `=`, find stops at the key's length |
| `ConfigManager.Preset` | include/vivisect/core/config.hpp:176-181 | every profile type except CUSTOM names a preset, and every preset validates |
| `ConfigManager.PresetsDistinct` | include/vivisect/core/config.hpp:107-175 | the three presets are pairwise different profiles |
| `ConfigManager.ConfigurationManager.constructor` | include/vivisect/core/config.hpp:246 | the manager starts on BALANCED_PROTECTION with type BALANCED |
| `ConfigManager.ConfigurationManager.SelectProfile` | include/vivisect/core/config.hpp:188-206 | a preset type installs that preset; CUSTOM changes only the type and keeps the profile |
| `ConfigManager.ConfigurationManager.GetMutableProfile` | include/vivisect/core/config.hpp:210-213 | hands out the current profile and marks the type CUSTOM |
| `ConfigManager.ConfigurationManager.SetProfile` | include/vivisect/core/config.hpp:214-220 | an invalid profile is refused with nothing changed; a valid one is installed as CUSTOM |
| `ConfigManager.ConfigurationManager.SetBoolField` | include/vivisect/core/config.hpp:224-230 | a bool setter changes just that field, marks CUSTOM, and cannot change validity |
| `ConfigManager.ConfigurationManager.SetControlFlowFlattening` | include/vivisect/core/config.hpp:224 | sets enable_control_flow_flattening and marks CUSTOM |
| `ConfigManager.ConfigurationManager.SetBogusFlowComplexity` | include/vivisect/core/config.hpp:225 | sets bogus_flow_complexity without validating and marks CUSTOM |
| `ConfigManager.ConfigurationManager.SetStringEncryption` | include/vivisect/core/config.hpp:226 | sets enable_string_encryption and marks CUSTOM |
| `ConfigManager.ConfigurationManager.SetVmExecution` | include/vivisect/core/config.hpp:227 | sets enable_vm_execution and marks CUSTOM |
| `ConfigManager.ConfigurationManager.SetAntiDebug` | include/vivisect/core/config.hpp:228 | sets enable_anti_debug and marks CUSTOM |
| `ConfigManager.ConfigurationManager.SetJunkCode` | include/vivisect/core/config.hpp:229 | sets enable_junk_code and marks CUSTOM |
| `ConfigManager.ConfigurationManager.SetMba` | include/vivisect/core/config.hpp:230 | sets enable_mba and marks CUSTOM |
| `ConfigManager.ConfigurationManager.ValidateCurrent` | include/vivisect/core/config.hpp:231-233 | true exactly when every int field of the current profile is in range |
| `ConfigManager.ConfigurationManager.SerializeCurrent` | include/vivisect/core/config.hpp:234-236 | the text it writes reads back as the current profile |
| `ConfigManager.ConfigurationManager.LoadFromString` | include/vivisect/core/config.hpp:237-244 | a parse error or an invalid profile leaves the manager unchanged; otherwise the parsed profile becomes the CUSTOM profile |
| `ConfigManager.SetterCanInvalidate` | include/vivisect/core/config.hpp:225 | a complexity of 21 through the setter yields a profile validate rejects |
| `ConfigManager.TransferProfile` | include/vivisect/core/config.hpp:234-244 | serialize_current followed by load_from_string reproduces a profile, and accepts it exactly when it is in range |
| `ConfigManager.MergeBool` | include/vivisect/core/config.hpp:258-277 | each bool field of the merge is the override when present, else the global value |
| `ConfigManager.MergeInt` | include/vivisect/core/config.hpp:278-281 | complexity_override sets both bogus_flow_complexity and mba_complexity; every other int field stays global |
| `ConfigManager.MergeFields` | include/vivisect/core/config.hpp:258-283 | the merge is the field-wise override of the global profile |
| `ConfigManager.MergeEmpty` | include/vivisect/core/config.hpp:258-283 | with no overrides the merge is the global profile |
| `ConfigManager.MergeIdempotent` | include/vivisect/core/config.hpp:258-283 | merging the same overrides twice equals merging once |
| `ConfigManager.MergeMayInvalidate` | include/vivisect/core/config.hpp:278-281 | a complexity override of 21 gives an invalid merged profile |
| `ConfigManager.MergeKeepsValid` | include/vivisect/core/config.hpp:258-283 | a valid global profile merged with a complexity override in 0..20 stays valid |
| `ConfigManager.FunctionConfigRegistry.constructor` | include/vivisect/core/config.hpp:313-314 | the registry starts empty |
| `ConfigManager.FunctionConfigRegistry.RegisterFunction` | include/vivisect/core/config.hpp:291-293 | a registration stores the config under the name, replacing any earlier one |
| `ConfigManager.FunctionConfigRegistry.GetFunctionConfig` | include/vivisect/core/config.hpp:294-300 | returns the registered config, or nothing exactly when the name is unregistered |
| `ConfigManager.FunctionConfigRegistry.GetEffectiveProfile` | include/vivisect/core/config.hpp:301-308 | an unregistered name gets the global profile; a registered one gets the field-wise merge of its overrides |
| `ConfigManager.FunctionConfigRegistry.Clear` | include/vivisect/core/config.hpp:309-311 | the registry becomes empty |
| `Junk.InsertArithmetic` | include/vivisect/modules/junk_code.hpp:17-33 | a complexity <= 0 runs no iteration and leaves `global_seed` as it was; otherwise `global_seed` is xored with the loop's final `z`, taken as a given function of the seed and complexity |
| `Junk.InsertControlFlow` | include/vivisect/modules/junk_code.hpp:77-116 | a complexity <= 0 runs no iteration and leaves `global_seed` as it was; otherwise `global_seed` is xored with the loop's final `result`, taken as a given function of the seed and complexity |
| `Junk.BitwiseRound` | include/vivisect/modules/junk_code.hpp:39-48 | every round of the bitwise loop ends with `z == x ^ y` |
| `Junk.BitwiseFolds` | include/vivisect/modules/junk_code.hpp:34-51 | `insert_bitwise` leaves the seed as it was when the loop does not run, and otherwise xors it with `x ^ y` of the last round |
| `Junk.InsertBitwise` | include/vivisect/modules/junk_code.hpp:34-51 | the in-place loop gives the seed its specified new value |
| `Junk.CharOf` | include/vivisect/modules/junk_code.hpp:59-60 | `static_cast<char>(v & 0xFF)` is a signed char in -128..127 |
| `Junk.SlotIndex` | include/vivisect/modules/junk_code.hpp:64-69 | with `global_seed + i` wrapping as an int, every `idx1`/`idx2` lies in [0, 64) |
| `Junk.InitialBuffers` | include/vivisect/modules/junk_code.hpp:56-61 | both buffers have 64 entries |
| `Junk.Swap` | include/vivisect/modules/junk_code.hpp:70-73 | a swap iteration keeps both buffers at 64 entries |
| `Junk.Swaps` | include/vivisect/modules/junk_code.hpp:63-74 | the swap loop keeps both buffers at 64 entries |
| `Junk.InitialChars` | include/vivisect/modules/junk_code.hpp:58-61 | the first loop fills both buffers with chars |
| `Junk.SwapBounded` | include/vivisect/modules/junk_code.hpp:70-73 | one swap keeps every entry a char and adds between -256 and 254 to the checksum |
| `Junk.SwapContents` | include/vivisect/modules/junk_code.hpp:70-72 | one swap moves two chars between the buffers and loses none |
| `Junk.SwapsBounded` | include/vivisect/modules/junk_code.hpp:62-74 | after n iterations all entries are chars and the checksum moved by at most 256·n |
| `Junk.Checksum` | include/vivisect/modules/junk_code.hpp:62-74 | the checksum after n iterations lies in [-256·n, 254·n], far inside `int` |
| `Junk.MemoryClamped` | include/vivisect/modules/junk_code.hpp:53-55 | complexities above 50 have the effect of 50 |
| `Junk.FillBuffers` | include/vivisect/modules/junk_code.hpp:56-61 | the first loop fills two fresh buffers as specified |
| `Junk.SwapInPlace` | include/vivisect/modules/junk_code.hpp:64-73 | one iteration of the second loop, in place on the two arrays |
| `Junk.InsertMemory` | include/vivisect/modules/junk_code.hpp:52-76 | `global_seed` is xored with the checksum of the clamped number of swaps |
| `Junk.SplitFair` | include/vivisect/modules/junk_code.hpp:117-124 | for c >= 0 the four counts add up to c, come in non-increasing call order and differ by at most 1 |
| `Junk.NoRunsKeepSeed` | include/vivisect/modules/junk_code.hpp:17-116 | with a complexity <= 0 none of the four loops runs, so each pattern leaves `global_seed` as it was |
| `Junk.MixedSmall` | include/vivisect/modules/junk_code.hpp:117-124 | for complexities 1 to 3 `per_pattern` is 0: the first 1, 2 or 3 patterns run once each and `insert_control_flow(0)` changes nothing |
| `Junk.MixedNonPositive` | include/vivisect/modules/junk_code.hpp:117-124 | a complexity <= 0 gives every pattern a count <= 0, so `insert_mixed` leaves `global_seed` as it was |
| `Junk.InsertMixed` | include/vivisect/modules/junk_code.hpp:117-124 | the four patterns run in order with the split counts; a complexity <= 0 changes nothing, and complexity 1 is one arithmetic iteration |
| `Junk.Insert` | include/vivisect/modules/junk_code.hpp:126-145 | a complexity <= 0 changes nothing; otherwise the pattern runs with the complexity clamped to 100 |
| `Junk.InsertRealisticDeadCode` | include/vivisect/modules/junk_code.hpp:146-166 | the dead branch never runs, and the net effect is `global_seed ^= 0xDEADBEEF` |
| `Junk.InsertWithOpaquePredicate` | include/vivisect/modules/junk_code.hpp:167-178 | neither `opaque_false` branch runs, `result` is the seed, so `global_seed` ends 0 |
| `Junk.InsertWithDensity` | include/vivisect/modules/junk_code.hpp:179-206 | a density <= 0 changes nothing; otherwise the closing call leaves `global_seed == 0` |
| `Errors.FromValue` | include/vivisect/error/error.hpp:8-29 | a value that names an enumerator names one whose value it is |
| `Errors.ValueRoundTrip` | include/vivisect/error/error.hpp:8-29 | the enumerators have pairwise distinct values, each read back as itself |
| `Errors.CategoryOf` | include/vivisect/error/error.hpp:51-61 | the category of a code is the one its thousands digit selects: Initialization, Runtime, Configuration or Unknown |
| `Errors.CodesCategorised` | include/vivisect/error/error.hpp:8-61 | every code but SUCCESS lies in 1000..3004, and SUCCESS is the only code of Unknown category |
| `Errors.RegisterWins` | include/vivisect/error/error.hpp:80-94 | after a registration, errors of the same thousands are answered by the new strategy |
| `Errors.RegisterElsewhere` | include/vivisect/error/error.hpp:80-94 | a registration does not affect recovery for other thousands |
| `Errors.HighCodesIgnored` | include/vivisect/error/error.hpp:82-93 | codes of 10000 and above are neither stored nor recovered |
| `Errors.EmptyNeverRecovers` | include/vivisect/error/error.hpp:90-93 | with an empty table no error is recovered |
| `Errors.DefaultsRecover` | include/vivisect/error/error.hpp:134-160 | after the defaults every code of a known category is recovered; other codes keep the earlier table's answer |
| `Errors.VmExecutionRecovered` | include/vivisect/error/error.hpp:142-160 | VM_EXECUTION_ERROR's own strategy refuses, yet after the defaults it is recovered, because DECRYPTION_FAILED shares its slot and is registered later |
| `Errors.ErrorManager.constructor` | include/vivisect/error/error.hpp:108-110 | no handler and an empty strategy table at start |
| `Errors.ErrorManager.SetErrorHandler` | include/vivisect/error/error.hpp:72-75 | replaces the global handler |
| `Errors.ErrorManager.RegisterRecoveryStrategy` | include/vivisect/error/error.hpp:80-86 | stores the strategy in slot code/1000 when that is below 10, and changes nothing else |
| `Errors.ErrorManager.AttemptRecovery` | include/vivisect/error/error.hpp:87-94 | the strategy of the error's slot answers, or false when there is none |
| `Errors.ErrorManager.Report` | include/vivisect/error/error.hpp:95-106 | the error goes to the installed handler, or is logged exactly when there is none |
| `Errors.RegisterDefaultRecoveryStrategies` | include/vivisect/error/error.hpp:154-160 | the table after the five default registrations in order |
| `Errors.ReportWithRecovery` | include/vivisect/error/error.hpp:127-133 | an error is reported exactly when recovery fails |
| `Resolver.NulIndex` | include/vivisect/api/resolver.hpp:182 | the index a `while (*str)` loop stops at holds the first NUL |
| `Resolver.CStr` | include/vivisect/api/resolver.hpp:182 | the text of a NUL-terminated buffer is the NUL-free prefix before its terminator |
| `Resolver.CStrOfText` | include/vivisect/api/resolver.hpp:182 | a NUL-free text followed by a NUL reads back as that text |
| `Resolver.HashEmpty` | include/vivisect/api/resolver.hpp:181 | the empty string hashes to the FNV offset basis 0x811c9dc5 |
| `Resolver.HashAppend` | include/vivisect/api/resolver.hpp:182-185 | one more character XORs its sign-extended value in and multiplies by 0x01000193 mod 2^32 |
| `Resolver.Lower` | include/vivisect/api/resolver.hpp:193-195 | the folded text has the same length and folds each character on its own |
| `Resolver.LowerProperties` | include/vivisect/api/resolver.hpp:193-195 | folding never creates or removes a NUL, and folding twice is folding once |
| `Resolver.HashLowerAppend` | include/vivisect/api/resolver.hpp:191-198 | one more character is folded before it is mixed in |
| `Resolver.HashLowerIsHashOfLower` | include/vivisect/api/resolver.hpp:189-200 | `hash_string_lower(s)` equals `hash` of s with A..Z folded |
| `Resolver.HashLowerIgnoresCase` | include/vivisect/api/resolver.hpp:189-200 | names that differ only in ASCII letter case have the same folded hash |
| `Resolver.HashText` | include/vivisect/api/resolver.hpp:180-187 | the while loop computes the FNV-1a fold of the C string |
| `Resolver.HashStringLower` | include/vivisect/api/resolver.hpp:189-200 | the while loop computes the folded FNV-1a fold of the C string |
| `Resolver.Units` | include/vivisect/api/resolver.hpp:101-102 | the units converted are Length/2, cut to 255 |
| `Resolver.Narrowed` | include/vivisect/api/resolver.hpp:100-109 | the narrow buffer has 256 bytes and always ends in a NUL |
| `Resolver.NulIndexAt` | include/vivisect/api/resolver.hpp:182 | a NUL with none before it is the one the C string loop stops at |
| `Resolver.NarrowedTerminated` | include/vivisect/api/resolver.hpp:100-110 | the hashed text of the narrow buffer ends no later than the converted units |
| `Resolver.AsChars` | include/vivisect/api/resolver.hpp:108 | a 7-bit unit cast to char keeps its value |
| `Resolver.NarrowAscii` | include/vivisect/api/resolver.hpp:99-110 | for a NUL-free ASCII base name the hashed text is the A..Z-folded name |
| `Resolver.NarrowName` | include/vivisect/api/resolver.hpp:100-109 | the for loop fills a fresh 256-byte buffer with the folded, truncated units and NULs after them |
| `Resolver.CheckEntry` | include/vivisect/api/resolver.hpp:99-113 | an entry matches exactly when it has a buffer, a positive length and a narrow name whose hash is the query |
| `Resolver.FirstModule` | include/vivisect/api/resolver.hpp:93-115 | the first matching entry in load order, or none exactly when no entry matches |
| `Resolver.FindModule` | include/vivisect/api/resolver.hpp:85-118 | a null PEB or Ldr fails; otherwise the walk returns the base of the first matching entry, or fails when none matches |
| `Resolver.FindModuleByName` | include/vivisect/api/resolver.hpp:119-126 | the folded hash of the name finds the module, falling back to LoadLibraryA when that yields null |
| `Resolver.AsciiLookupMatches` | include/vivisect/api/resolver.hpp:99-121 | an ASCII name that equals a loaded base name up to case and fits 255 units matches that entry |
| `Resolver.FirstExport` | include/vivisect/api/resolver.hpp:156-158 | the first name index whose hash matches, or none exactly when no name matches |
| `Resolver.ExportFirstMatch` | include/vivisect/api/resolver.hpp:156-167 | the first matching name decides through its ordinal: its RVA, or null when the RVA lies inside the export directory, whatever later names would match |
| `Resolver.ExportFailures` | include/vivisect/api/resolver.hpp:127-170 | an error is reported exactly for a null module, a bad DOS or NT signature, a zero export RVA, or no matching name |
| `Resolver.FindExport` | include/vivisect/api/resolver.hpp:127-171 | the checks and the for loop compute the export lookup, first match first |
| `Resolver.FindExportByName` | include/vivisect/api/resolver.hpp:172-179 | the plain hash of the name finds the export, falling back to GetProcAddress when that yields null |

## Left out

- Operating-system access is not modelled. This covers `get_peb` (the gs/fs reads), walking real loader lists and PE images through raw pointers, and the `LoadLibraryA`/`GetProcAddress` fallbacks. The loader list and the export tables are given as values, and the two fallback results are parameters of `Resolver.FindModuleByName` and `Resolver.FindExportByName`.
- Resolver: the error reports of `find_module` and `find_export` are stated as which outcomes are failures (`Resolver.ExportFailures`, `Resolver.FindModule`). The call into the error manager itself is not modelled.
- Logging, exception text, `std::cerr` and the mutexes in `error.hpp` are left out, because they are output and locking. A handler is modelled by its identity only, and `report` returns which sink the error goes to.
- The `instance()` singletons and the `VIVISECT_FUNCTION_CONFIG` static registrar are left out. The model creates the objects explicitly: `ConfigurationManager`, `FunctionConfigRegistry` and `ErrorManager`.
- The unsynchronised sharing of `global_seed` between threads is a concurrency matter, so the seed is one sequential cell.
- ConfigManager.ConfigurationManager.GetMutableProfile: returns a copy of the profile rather than a reference. Edits through the reference are modelled by the setters or by `SetProfile`.
- StringCrypt: the `thread_local` lifetime of the scratch buffers and the host byte order are left out. The model fixes a little-endian host, as the `reinterpret_cast` unpacking needs.
- StringCrypt.EncryptedString.Decrypt: the `catch` in `decrypt` is not modelled. It is reachable only when allocation fails, which the model does not have.
- The compile-time inputs are ordinary parameters: `__TIME__`, the template seeds, and `constexpr` evaluation in general. A `__COUNTER__` that sits in a header body rather than in a macro is expanded once, when the header is read, so it takes one value per translation unit: the number of `__COUNTER__` expansions before the header. This holds for the key derivation in `string_crypt.hpp` and for `MBA::chain`. So all literals of one length in one translation unit get the same key (`StringCrypt.KeysByLength`), and every round of every `chain` in a translation unit uses one `op_select`. A `__COUNTER__` in the `VIVISECT_FLATTEN_*` macros is expanded at each use. A `__LINE__` inside a header is that header's line number: 141 in `make_state_id`, and 95 or 142 in the two `string_crypt.hpp` copies (`StringCrypt.KeyLine`, `StringCrypt.KeyLineTwin`). The PE-section placement macros are not modelled.
- The pointer branches of `opaque_true`/`opaque_false` are left out, because they depend on `intptr_t` addresses.
- Mba: the model is the `uint32_t` instantiation of the `MBAOperand` templates. No code in these sources instantiates them with another type. `uint32_t` is the width the rest of the core computes in, and its arithmetic is defined modulo 2^32. A signed or narrower `T` brings integer promotion and signed overflow, which is undefined, and the model does not cover it.
- Primitives.OpaqueTrue: the `int64_t` square is taken modulo 2^64, as a wrapping build computes it. Signed overflow is undefined in C++, and a compiler may instead fold `x * x >= 0` to true. So `Primitives.OpaqueTrueOverflow` states what a wrapping build does, not what the language guarantees.
- Plain `char` is taken as signed and 8 bits wide, as on MSVC and on x86 builds generally. This fixes the values `static_cast<char>` yields in `insert_memory` (`Junk.CharOf`) and the sign extension in the resolver's hashes (`Resolver.HashAppend`). An unsigned `char` would give other checksums and hashes.
- Junk.SlotIndex: `global_seed + i` is taken to wrap around as an `int`. Signed overflow is undefined in C++; the model picks the two's-complement result, and the index bound holds for any `int` result.
- Junk.InsertArithmetic: for a positive complexity the final `z` is an unspecified function of the seed and the complexity, because the loop overflows a signed `int` (undefined behaviour).
- Junk.InsertControlFlow: for a positive complexity the final `result` is an unspecified function of the seed and the complexity, for the same reason.
- Junk.InsertMemory: preservation of the buffers' combined contents is stated one swap at a time (`Junk.SwapContents`), not for the whole loop.
- The volatile busywork has no observable effect and is not modelled: JUNK_OP and NOP in the VM, `volatile_nop`, and the volatile locals of the flattener specialisations.
- The four flattener strategies are a parameter of the opaque-branch methods. The volatile locals in which they differ are left out, and the empty `flatten()` bodies have no logic.
- Vm: SHL and SHR by 32 or more are undefined in C++. The model halts the loop with `UndefinedShift` instead of picking a result.
- Vm.VMEngine.RegisterHandler: a handler is one of the 21 built-in handlers the core registers, named by its opcode tag. Custom `std::function` handlers and empty ones, which `register_handler` also accepts, are not modelled.
- Vm: a handler cannot throw in the model, so the `catch` around the handler call never applies.
- Vm.Loop: the `while` loop runs with a fuel bound. Running out of fuel is the separate outcome `OutOfFuel`, and the model says nothing about bytecode that does not halt within the bound.
- ControlFlow.Dispatch: the dispatch loop runs with a fuel bound. A region that does not reach `default` within the bound is reported as unfinished, and nothing is claimed about it.
- ControlFlow.RunRegion: every state is taken to end with `VIVISECT_FLATTEN_NEXT`. A `VIVISECT_FLATTEN_STATE` without one falls through into the next case's body in the C++ `switch`; only a comment rules that out, and the model does not represent it.
- ControlFlow.RunRegion: a case's stage is the number it appends to the trace. The code of a stage and its effects are not modelled.
- Vm: the model does not prove that handler mutation preserves results, because the code does not preserve them (see the first code note above).
- Anti-debug, the thin Windows API wrappers, the stub headers and the orchestration in `main_protect.hpp` are outside the core. The one exception is the cleanup bytecode of `main_protect.hpp`, used as a concrete VM program in `Vm.CleanupProgram`.

## Findings

| source | as written | input that shows it | evidently intended | confidence | as-written member | corrected member |
|---|---|---|---|---|---|---|
| modules/mba.hpp:102-104 | `and_op` variant 1 returns `(a + b) - (a ^ b)`, which is `2 * (a & b)` | a = b = 1 gives 2, while `1 & 1` is 1 | `a & b`, as the name `and_op` and its other four variants give | not executed | `Mba.AndOpCounterexample` | `Mba.AndOpCorrected` |
| modules/mba.hpp:136-139 | `or_op` variant 4 returns `a + b` | a = b = 1 gives 2, while `1 OR 1` is 1 | `(a + b) - (a & b)`, which is `a OR b` | not executed | `Mba.OrOpCounterexample` | `Mba.OrOpCorrected` |
| include/vivisect/modules/mba.hpp:136-141 | case 3 of `chain` rebuilds the value from two `and_op` parts, and variant 1 doubles one of them | a translation unit with six `__COUNTER__` expansions before `mba.hpp` is read (through `vivisect.hpp` alone the counter is 1, case 2, which keeps the value, `Mba.ChainAfterUmbrella`): `__COUNTER__` 6 gives `op_select` 178652871, that is case 3 with variant 1, and `chain` changes a value whose bits meet the mask | each round returns its input unchanged | not executed | `Mba.ChainCounterexample` | `Mba.ChainCorrected` |
| include/vivisect/core/primitives.hpp:34-36 | `opaque_true` squares `int64_t(value) ^ seed` in `int64_t` | a 64-bit-wide value 0xFFFFFFFF (a `uint32_t` or wider) with seed 0: the square 0xFFFFFFFE00000001 exceeds `int64_t`, which is undefined behaviour; a build that wraps it gets a negative square. Every call site in the core passes an `int`, for which `Primitives.OpaqueOnInt32` shows no overflow | the square is never negative, so the predicate is always true and `opaque_false` always false | not executed | `Primitives.OpaqueTrueOverflow` | `Primitives.OpaqueTrueCorrected` |
| include/vivisect/modules/control_flow.hpp:148-163 | `VIVISECT_FLATTEN_STATE(id)` labels its case `make_state_id<__COUNTER__>()` and ignores `id`, and `VIVISECT_FLATTEN_BEGIN` starts at another `make_state_id<__COUNTER__>()` | BEGIN at `__COUNTER__` 0, then STATE(0) ... NEXT(name, 1) and STATE(1) ... NEXT(name, 2) at `__COUNTER__` 1 and 2: the first iteration finds no case for the initial state, so neither stage runs | each case labelled `make_state_id<id>` and the loop entered at the first state, so the stages run in order | not executed | `ControlFlow.WrittenRunsNoStage` | `ControlFlow.IntendedRunsInOrder` |
