# Dynoc, modelled and proved in Dafny

Dynoc is a token-aware client for a replicated ring of Redis-speaking nodes. This project models its four
cores and proves what they are for:

- **Streaming MD5** (`Md5Spec.dfy`, `Md5.dfy`, `Md5Answers.dfy`). `Md5Spec` is the digest as sections 3.1 to 3.5 of RFC 1321
  define it, with indexed operations. `Md5.Context` is the buffering implementation with its split counter,
  in-place buffer and 64 unrolled steps. For every message and every cut into chunks it yields the RFC's digest.
  `Md5Answers` proves two digests of the RFC's own test suite as literals.
- **Fast hashes** (`Crc32Table.dfy`, `Crc32.dfy`, `Crc16Table.dfy`, `Crc16.dfy`, `Fnv.dfy`, `Murmur.dfy`,
  `Jenkins.dfy`, over the word arithmetic of `Words.dfy` and the bit strings of `BitStrings.dfy`). Each fast form is
  proved equal to a simple one (bit-serial division, a 64-bit fold, a function of the padded blocks), and then proved
  to separate keys: bursts of up to 32 bits for CRC-32 and 16 bits for CRC-16, with the exact condition for every
  larger change, single bytes for FNV, blocks and tails for Murmur, blocks for Jenkins. The simple forms are tied down
  from outside: what short keys hash to in the language's own operators, one operator at a time, and known answers as
  literals.
- **Token ring and routing** (`Token.dfy`, `Ring.dfy`, `Setup.dfy`). Decimal tokens, their order, configuring racks,
  sorting and indexing a ring, binary search with wrap-around against the plain ownership rule, and consistent hashing.
- **Pool and failover** (`Pool.dfy`, `Passes.dfy`, `Client.dfy`). Each region between lock and unlock of a slot is one
  step of a state machine; the environment decides every connect, AUTH, PING and reply. `Pool` proves what every
  interleaving keeps, `Passes` what a whole health-check pass and a whole command do while other threads take any steps
  in between, and `Client.Dynoc` is the client object whose methods are proved to take exactly those steps.
  `Client.StartConfigured` leads from the configured racks of `Setup.Datacenter` to the started client.

Conventions. 32-bit hash words are `bv32`, bytes `bv8`; counters and tokens are integers with their 32-bit wrap-around
written out. Words are little-endian and `char` is signed where the code widens it. Proofs about bit-vectors name the
operators, check each law on the bits once, and then `hide` the bits and reason by algebra. `verify dfyconfig.toml`
checks everything.

## What turned out false, and exactly when

- A remote datacenter's racks are not all tried. `select_connection` tests the pointer `dc_type`, not what it points to
  (`src/dynoc-cmd.c:80`), so every call starts from the local datacenter again. A rack is visited exactly if there is a
  local datacenter and the rack is local or remote rack 0 (`Client.VisitedIff`). Going back to the local racks
  afterwards does not help unless another thread has intervened (`Passes.QuietRepeatFails`).
- A successful connect does not make a slot valid. The `status` variable is carried over from slot to slot
  (`src/dynoc-core.c:48`), so a node without a password takes the outcome of the last AUTH performed before it in the
  pass. `Passes.FailedAuthSpoilsTheNextSlot` is an instance, `Passes.PassSettlesAtRelease` the exact rule in every
  interleaving, and `Passes.PassSettles` the same from the statuses before an undisturbed pass.
- Contexts are not conserved. Reconnecting an invalid slot that still holds a context, as a slot does after a failed
  AUTH, overwrites the pointer without freeing it. `Pool.ContextsCanBeLost` is a run of two health-check steps in which
  this happens; a step loses a context in exactly that case (`Pool.HealthStepLeaksIff`), and a run from the start ends
  with a lost context exactly if one of its steps overwrites one (`Pool.RunFromStartLeaksIff`).
- CRC-32 misses changes longer than 32 bits, and exactly those the divisor divides: `Crc32.SameCrcIff` for any change,
  `Crc32.WindowMissedIff` for one inside a window. Of the changes inside 33 bits it misses the divisor itself and no
  other (`Crc32.BurstOf33BitsMissedIff`); `Crc32.DivisorBurstMissed` names the key that shares a given key's CRC. The
  same holds for CRC-16 with 17 bits (`Crc16.WindowMissedIff`, `Crc16.BurstOf17BitsMissedIff`).
- A token is its decimal number only below 2^32; beyond that the word wraps, group by group, and never is the number
  (`Tokens.DecimalWordIsNumberIff`).
- Ring order is not numeric order for tokens with a minus sign. The sign word is unsigned, so they sort after all others
  (`Tokens.NegativeSortsLast`) and among themselves in reverse (`Tokens.SignedOrder`). For numbers whose magnitude fits
  in 32 bits the order is numeric exactly if the two are equal or neither has a minus sign
  (`Tokens.SignedOrderIsNumericIff`).

## Model

| member | source | states |
|---|---|---|
| Md5.F | src/hash-md5.c:57 | the optimised F is the RFC's F on all words |
| Md5.G | src/hash-md5.c:58 | the optimised G is the RFC's G on all words |
| Md5.Step | src/hash-md5.c:65-68 | the step macro computes the RFC's new word, additions in another order and rotation by shifts |
| Words.RotIsCircular | src/hash-md5.c:65-68 | the two shifts put together are the rotation to the left, for every amount from 1 to 31 |
| Md5.Round1 | src/hash-md5.c:117-133 | sixteen unrolled steps are the RFC's indexed operations 0 to 15 |
| Md5.Round2 | src/hash-md5.c:135-151 | sixteen unrolled steps are the RFC's indexed operations 16 to 31 |
| Md5.Round3 | src/hash-md5.c:153-169 | sixteen unrolled steps are the RFC's indexed operations 32 to 47 |
| Md5.Round4 | src/hash-md5.c:171-187 | sixteen unrolled steps are the RFC's indexed operations 48 to 63 |
| Md5.OperationsUndone | src/hash-md5.c:117-187 | for a fixed block any run of steps is a bijection of the four words |
| Md5.XDecodes | src/hash-md5.c:79-80 | word k of a block is made of bytes 4k to 4k + 3 of the block, low-order first |
| Md5.Context.Body | src/hash-md5.c:98-203 | processes any positive number of whole blocks as the RFC does and says how much was consumed |
| Md5.Context.constructor | src/hash-md5.c:205-214 | a fresh context stands for the empty message |
| Md5.CounterStep | src/hash-md5.c:221-225 | the 29-bit low word, the carry and the high word count bytes modulo 2^61 |
| Md5.Context.Update | src/hash-md5.c:216-249 | a chunk of any size extends the message; the counters, the buffered remainder and the digest state of all whole blocks are kept |
| Md5.LengthBytes | src/hash-md5.c:270-278 | the eight stored bytes are the bit length modulo 2^64, low-order first |
| Md5.LittleEndianDigit | src/hash-md5.c:270-278 | byte i of the stored length is its digit i to the base 256 |
| Md5.Context.PadBuffer | src/hash-md5.c:255-268 | one or two blocks of padding bring the message to 56 bytes modulo 64 with the RFC's zeros |
| Md5.Context.Final | src/hash-md5.c:251-300 | the result is the RFC's digest of everything fed in; the context is wiped |
| Md5.DigestChunks | src/hash-md5.c:205-300 | for every cut into chunks, empty ones included, the digest is that of the concatenation |
| Md5.Signature | src/hash-md5.c:306-313 | the digest of a key |
| Md5.HashMd5 | src/hash-md5.c:315-327 | the key hash is word A of the RFC's digest |
| Md5Answers.EmptyDigest | src/hash-md5.c:306-313 | the digest of the empty message is that of appendix A.5 of RFC 1321 |
| Md5Answers.ADigest | src/hash-md5.c:306-327 | the digest of "a" is that of appendix A.5 of RFC 1321, and its hash 0xb975c10c |
| Crc32Table.TableCorrect | src/hash-crc32.c:32-97 | each of the 256 constants is its index divided bit by bit by the reflected polynomial |
| Crc32.TableStepIsSerial | src/hash-crc32.c:124 | one table step on any register is eight bit-serial steps |
| Crc32.HashCrc32a | src/hash-crc32.c:117-130 | the table loop is the CRC-32 of section 8 of RFC 1952, bit by bit, for every key |
| Crc32.CheckValue | src/hash-crc32.c:103-130 | the CRC-32 of "123456789" is 0xcbf43926, the libmemcached variant 0x4bf4 |
| Crc32.BurstDetected | src/hash-crc32.c:117-130 | keys of one length whose bits differ only within 32 consecutive bits never share a CRC |
| Crc32.FourByteChangeDetected | src/hash-crc32.c:117-130 | a change confined to four consecutive bytes always changes the hash |
| Crc32.SameCrcIff | src/hash-crc32.c:117-130 | two keys of one length share a CRC exactly if the divisor divides their difference |
| Crc32.WindowMissedIff | src/hash-crc32.c:117-130 | a change inside a window of any length is missed exactly if the divisor divides that window's difference, wherever it lies |
| Crc32.BurstOf33BitsMissedIff | src/hash-crc32.c:117-130 | keys that differ only within 33 consecutive bits share a CRC exactly if they are equal or the difference is the divisor's 33 bits |
| Crc32.DivisorBurstMissed | src/hash-crc32.c:117-130 | every key with five bytes from some byte on shares its CRC with the different key in which exactly those 33 bits are changed by the divisor |
| Crc32.CrcAffine | src/hash-crc32.c:117-130 | on keys of one length the CRC of a three-way exclusive or is the exclusive or of the CRCs |
| Crc32.HashCrc32 | src/hash-crc32.c:103-115 | the libmemcached variant is bits 16 to 30 of the CRC-32, sign extension of key bytes notwithstanding |
| Crc32.Crc32Sz | src/hash-crc32.c:135-148 | the sequential checksum is the register run over what tolower makes of the text; for ASCII text that is bit-serial division of the lower-cased text |
| Crc32.ToLowerIs | src/hash-crc32.c:143 | the letters A to Z and nothing else change, each to its small letter |
| Crc32.SzChainIsWhole | src/hash-crc32.c:132-148 | chaining over any cut into buffers equals one pass; seeded with zero it is the CRC-32 of the mapped text, for ASCII the lower-cased one |
| Crc32.HelloChecksum | src/hash-crc32.c:132-148 | the checksum of a mixed-case text is the literal CRC-32 of the lower-cased one |
| Crc16Table.TableCorrect | src/hash-crc16.c:30-63 | each of the 256 constants is its index in the high byte divided bit by bit by 0x1021 |
| Crc16.TableStepIsSerial | src/hash-crc16.c:71 | one table step on a 16-bit register is eight bit-serial steps |
| Crc16.HashCrc16 | src/hash-crc16.c:65-75 | the unmasked register packs the CRC of the key and the high bytes of the CRCs of its prefixes shorter by one and two bytes |
| Crc16.CheckValue | src/hash-crc16.c:65-75 | of "123456789" the low 16 bits are 0x31c3, the whole hash 0x869031c3 |
| Crc16.BurstDetected | src/hash-crc16.c:65-75 | keys of one length whose bits differ only within 16 consecutive bits never share the low 16 bits of the hash |
| Crc16.WindowMissedIff | src/hash-crc16.c:65-75 | a change inside a window of any length is missed by the low 16 bits exactly if the divisor divides that window's difference |
| Crc16.BurstOf17BitsMissedIff | src/hash-crc16.c:65-75 | keys that differ only within 17 consecutive bits share the low 16 bits exactly if they are equal or the difference is the divisor's 17 bits |
| Crc16.PackParts | src/hash-crc16.c:65-75 | those three parts can be read back from the hash |
| Fnv.TruncateFold1a | src/hash-fnv.c:52-63 | truncation to 32 bits commutes with the whole FNV-1a fold |
| Fnv.TruncateFold1 | src/hash-fnv.c:36-49 | truncation to 32 bits commutes with the whole FNV-1 fold |
| Fnv.HashFnv164 | src/hash-fnv.c:36-49 | the low half of the 64-bit fold, which is also the 32-bit fold |
| Fnv.HashFnv1a64 | src/hash-fnv.c:52-63 | the 32-bit loop gives the low half of the full 64-bit fold |
| Fnv.Fold1a32Step | src/hash-fnv.c:52-63 | one more byte: exclusive or with the byte, minus 0x100 from 0x80 on, then the 32-bit multiplication |
| Fnv.Fold164Step | src/hash-fnv.c:36-49 | one more byte: the 64-bit multiplication, then exclusive or with the byte, minus 0x100 from 0x80 on |
| Fnv.KnownHashes | src/hash-fnv.c:30-63 | the hashes of the empty key, of "a" and of a key with the byte 0xe9, as literals |
| Fnv.OneByteChangeDetected | src/hash-fnv.c:36-63 | keys that differ in exactly one byte never share either hash |
| Murmur.HashMurmur | src/hash-murmur.c:31-91 | the block loop, the fall-through tail and the finaliser are the fold over blocks and zero-padded tail |
| Murmur.EmptyKeyHash | src/hash-murmur.c:31-91 | the empty key hashes to 0 |
| Murmur.ShortKeyHash | src/hash-murmur.c:38-91 | every key of one to three bytes hashes to this sequence of multiplications, shifts and exclusive ors |
| Murmur.FourByteKeyHash | src/hash-murmur.c:38-91 | every four-byte key hashes to this sequence of multiplications, shifts and exclusive ors |
| Murmur.KnownHashes | src/hash-murmur.c:31-91 | "a" hashes to 0x4b41757c, "user:1", a block and a tail, to 0xd5d0b563 |
| Murmur.BlockBijection | src/hash-murmur.c:50-86 | with all else fixed, every hash value is reached by exactly one value of an aligned block |
| Murmur.TailInjective | src/hash-murmur.c:66-86 | different tails of one to three bytes give different hashes |
| Murmur.FourByteKeyPermutation | src/hash-murmur.c:31-91 | on four-byte keys the hash is a permutation of all 32-bit words |
| Jenkins.HashByWords | src/hash-jenkins.c:86-124 | the 32-bit path, masking what it reads past the key, depends on the key's bytes only |
| Jenkins.HashByHalves | src/hash-jenkins.c:125-183 | the 16-bit path computes the same function |
| Jenkins.HashByBytes | src/hash-jenkins.c:184-223 | the byte path computes the same function |
| Jenkins.HashJenkins | src/hash-jenkins.c:73-231 | one function of the key's bytes at any address; the empty key is not mixed |
| Jenkins.InitIff | src/hash-jenkins.c:82 | keys start from equal states exactly if their lengths agree modulo 2^32 |
| Jenkins.OneByteKeyHash | src/hash-jenkins.c:82-231 | every one-byte key hashes to this sequence of subtractions, rotations and exclusive ors |
| Jenkins.MixIs | src/hash-jenkins.c:34-42 | the mixing macro, operation by operation |
| Jenkins.FinalIs | src/hash-jenkins.c:44-53 | the final macro, operation by operation |
| Jenkins.KnownHash1 | src/hash-jenkins.c:73-231 | "a" hashes to 0xe0a38690 |
| Jenkins.KnownHash12 | src/hash-jenkins.c:73-231 | "abcdefghijkl", one whole block, hashes to 0xfb8b49e3 |
| Jenkins.KnownHash13 | src/hash-jenkins.c:73-231 | "abcdefghijklm", one block mixed and one byte, hashes to 0xb621e85f |
| Jenkins.MixUndone | src/hash-jenkins.c:34-42 | the mixing macro is a permutation of the state, both ways |
| Jenkins.FinalUndone | src/hash-jenkins.c:44-53 | the final macro is a permutation of the state, both ways |
| Jenkins.OneBlockChangeSeparatesStates | src/hash-jenkins.c:189-228 | equal-length keys that differ in exactly one block end in different internal states |
| Tokens.TokenCmp | src/dynoc-token.c:112-133 | the comparison loop is the lexicographic order of sign, length and words |
| Tokens.CompareIsLexicographic | src/dynoc-token.c:112-133 | signs decide, then lengths, then the first word that differs; equal signs of zero are equal |
| Tokens.CompareIsTotalPreorder | src/dynoc-token.c:112-133 | token comparison is a total preorder on tokens of at most four words |
| Tokens.Atoui | src/dynoc-token.c:35-48 | the number of a group modulo 2^32, or 0 if it is not all digits; the terminator is never passed |
| Tokens.TokenCell.Parse | src/dynoc-token.c:79-110 | parsing any text ends and writes only the sign and the first word |
| Tokens.SignIs | src/dynoc-token.c:85-93 | 0 exactly for the text "0", minus one exactly for texts that begin with a minus sign, else 1 |
| Tokens.NoNumber | src/dynoc-token.c:35-48 | a text of up to ten characters that is not all digits has the word 0 |
| Tokens.TenMoreDigits | src/dynoc-token.c:105-109 | ten more characters: the word times 387420489 plus their number, modulo 2^32, for texts of any length |
| Tokens.ElevenDigits | src/dynoc-token.c:98-109 | "12345678901" has the word 2733099390 |
| Tokens.TokenCell.AddNextWord | src/dynoc-token.c:50-70 | one word times the radix plus the group, modulo 2^32 |
| Tokens.TokenCell.SetInt | src/dynoc-token.c:140-145 | sign, length and first word of a hash value |
| Tokens.DecimalTokensAreNumbers | src/dynoc-token.c:79-145 | canonical decimals below 2^32 parse to the token of their value, and ring order is numeric order |
| Tokens.DecimalWordIsNumberIff | src/dynoc-token.c:95-109 | for every number, the word parsed from its decimal text is the number exactly below 2^32 |
| Tokens.NegativeSortsLast | src/dynoc-token.c:85-132 | a token with a minus sign is after every token without one, whatever the texts |
| Tokens.SignedOrder | src/dynoc-token.c:85-132 | the order of any two signed numbers below 2^32 in magnitude: those with a minus sign last and in reverse |
| Tokens.SignedOrderIsNumericIff | src/dynoc-token.c:85-132 | ring order of two such numbers is their numeric order exactly if they are equal or neither has a minus sign |
| Tokens.KeyToken | src/dynoc-cmd.c:75-78 | the token a key is routed by depends on its hash only |
| Ring.ContinuumInit | src/dynoc-core.c:361-376 | a ring entry with its index, endpoint and parsed token |
| Ring.QSort | src/dynoc-core.c:204 | the entries in use are sorted in place by token order, their nodes kept, the others untouched |
| Ring.SelectContinuum | src/dynoc-cmd.c:42-66 | in bounds, the index of the least node at or after the token, or of the least node of all; duplicates allowed |
| Ring.OwnerByNumber | src/dynoc-cmd.c:42-66 | for tokens that are numbers, the owner has the least number at or above the key's, or the least of all if every number is below it |
| Ring.OwnerUnique | src/dynoc-cmd.c:42-66 | with distinct tokens that rule names one node |
| Ring.OnlyTheArcMoves | src/dynoc-cmd.c:42-66 | adding a node moves to it exactly the tokens between its predecessor and itself, wrap-around included; all others stay |
| Ring.ArcByNumber | src/dynoc-cmd.c:42-66 | on numbers the arc is what is above p and not above t, or, past the end of the ring, either of the two |
| Ring.SearchBeforeAndAfter | src/dynoc-cmd.c:42-66 | the searches of two started rings that differ by one added node find the same node, or the added one exactly for tokens on its arc |
| Ring.PredecessorExists | src/dynoc-core.c:204 | every sorted ring has a predecessor for any new node |
| Setup.Datacenter.constructor | src/dynoc-core.c:267-291 | a new datacenter's racks are unnamed, separate and empty |
| Setup.Datacenter.RackInit | src/dynoc-core.c:306-333 | the first unnamed rack takes the name, zeroed entries and as many INVALID, NULL slots; no other rack changes |
| Setup.ZeroedIs | src/dynoc-core.c:306-333 | what an unused entry holds: index and port 0, no host, no password, an all-zero token |
| Setup.Datacenter.AddNode | src/dynoc-core.c:169-191 | in every rack of the name the next entry has its index, the endpoint passed in, password included, and the token of the text passed in; earlier entries and all other racks stay; in every run each rack holds what was added under its name |
| Setup.RackHoldsItsNodes | src/dynoc-core.c:169-191 | after any run of additions a rack's entries have, in order, the endpoints and parsed tokens of the additions that name it, indexed by position |
| Pool.CommandStepKeepsInv | src/dynoc-cmd.c:119-137 | a command's critical section keeps the pool invariant |
| Pool.ConnectStepKeepsInv | src/dynoc-core.c:212-236 | connecting a slot keeps the pool invariant, whatever status is carried in |
| Pool.HealthStepKeepsInv | src/dynoc-core.c:55-101 | a health-check step keeps the pool invariant |
| Pool.EveryRunFromStartIsSafe | src/dynoc-core.c:50-103 | in every interleaving a valid slot owns a live context of its own endpoint, authenticated if there is a password, and no freed or NULL context is used or freed |
| Pool.CallFaultsIff | src/dynoc-cmd.c:35-40 | the fault flag records exactly the uses and frees of a context that is not live; a free ends that context and no other |
| Pool.StepFaultsIff | src/dynoc-core.c:55-101 | the fault flag, which no safe run sets, is set by a step exactly if the slot is valid and its context is not live |
| Pool.FaultStays | src/dynoc-core.c:50-103 | no later step takes a fault back |
| Pool.ValidWasAuthenticated | src/dynoc-core.c:84-98 | in every interleaving, a valid slot of a node with a password got a successful AUTH with its own endpoint's password from one of the steps |
| Pool.HealthStepLeaksIff | src/dynoc-core.c:70-99 | a health-check step loses a context exactly when it reconnects an invalid slot that still holds one |
| Pool.RunFromStartLeaksIff | src/dynoc-core.c:70-99 | any run from the start ends with a lost context exactly if one of its steps connects a slot that still holds one |
| Pool.ContextsCanBeLost | src/dynoc-core.c:84-98 | two health-check steps with a failing AUTH lose a context |
| Passes.PassSettlesAtRelease | src/dynoc-core.c:42-104 | in every interleaving, whether a slot is valid when the pass releases its lock, from its state at the lock, the environment and the last AUTH before |
| Passes.PassHealsAtRelease | src/dynoc-core.c:42-104 | in every interleaving, if no AUTH fails every slot that can be connected is valid when the pass releases its lock |
| Passes.PassSettles | src/dynoc-core.c:42-104 | without other threads, which slots are valid after a pass, in closed form from the statuses before and the environment |
| Passes.PassHeals | src/dynoc-core.c:42-104 | without other threads, a pass in which no AUTH fails leaves every slot that can be connected valid |
| Passes.FailedAuthSpoilsTheNextSlot | src/dynoc-core.c:84-98 | a connected node without a password can end up invalid |
| Passes.RetryOutcome | src/dynoc-cmd.c:119-140 | under any interference success means the last attempt got a good reply from a valid slot and every earlier slot was invalid when released; failure, all of them |
| Passes.AttemptsKeepInv | src/dynoc-cmd.c:119-140 | the pool invariant holds before and after every attempt, under any interference |
| Passes.QuietFailureLeavesAllInvalid | src/dynoc-cmd.c:119-140 | without other threads a failed command leaves every visited slot invalid |
| Passes.QuietRepeatFails | src/dynoc-cmd.c:86-102 | without other threads a slot already tried never succeeds later in the command |
| Client.VisitOrder | src/dynoc-cmd.c:80-102 | attempt by attempt the racks are: the local ones in order, remote rack 0, the local ones but the first again |
| Client.AttemptOrder | src/dynoc-cmd.c:80-102 | with a remote datacenter the attempts go up the local racks, then to remote rack 0, then up the local racks but the first |
| Client.AttemptBound | src/dynoc-cmd.c:80-102 | at most max(1, 2L) attempts with L local racks |
| Client.VisitedIff | src/dynoc-cmd.c:80-102 | a failing command visits a rack exactly if there is a local datacenter and the rack is local or remote rack 0 |
| Client.Dynoc.ResetRedisConnection | src/dynoc-cmd.c:35-40 | the slot becomes invalid and empty and its live context is freed |
| Client.Dynoc.SelectConnection | src/dynoc-cmd.c:68-103 | the next rack of the visiting order and the slot there that owns the key's hash |
| Client.Dynoc.Attempt | src/dynoc-cmd.c:120-136 | the critical section is the command step and uses only live contexts |
| Client.Dynoc.OtherThreads | src/dynoc-core.c:106-125 | whatever steps the other threads take, they take them through the same critical sections and keep the client valid |
| Client.Dynoc.DynocSet | src/dynoc-cmd.c:105-140 | whatever other threads do before each attempt: at most the stated number of attempts, on the owners in visiting order; 0 exactly if the last got a good reply from a valid slot; every other tried slot invalid when released, and, without other threads, at the end |
| Client.Dynoc.CheckSlot | src/dynoc-core.c:55-101 | the critical section is the health-check step and uses only live contexts |
| Client.Dynoc.ReconnectDatacenter | src/dynoc-core.c:41-104 | whatever other threads do between two slots, the nested loops are one pass over all slots, unused entries included, status carried across racks |
| Client.Dynoc.IdsAre | src/dynoc-core.c:48-50 | a pass goes through all slots once, in order of rack and then of node |
| Client.Dynoc.PasswordlessTakesNearestAuth | src/dynoc-core.c:48-100 | after an undisturbed pass a slot connected without a password is valid exactly as the nearest AUTH performed before it decided, in its own rack or else an earlier one; without any, valid |
| Client.Dynoc.RedisConnectionPoolInit | src/dynoc-core.c:199-238 | the ring becomes a sorted indexed permutation of its nodes and each slot is connected to the endpoint of its own entry |
| Client.Dynoc.Start | src/dynoc-core.c:240-263 | every rack of both datacenters, full or not, is started, each slot in use is valid exactly as its connect and AUTH and the AUTHs before it in its rack decide, the others stay empty, and the pool invariant holds |
| Client.Dynoc.StartedValidIff | src/dynoc-core.c:199-238 | after a start in which no AUTH of a rack failed exactly the slots that connected are valid |
| Client.Dynoc.StartedOwnerAnswersFirst | src/dynoc-cmd.c:100-102 | right after such a start a command is answered by the ring owner in local rack 0 if that one connected |
| Client.StartConfigured | src/dynoc-core.c:240-263 | however the datacenters were configured, each started ring is a sorted indexed permutation of the nodes added under its rack's name, its slots' endpoints are those passed in with these additions, and which slots are valid is decided as for Start |
| Client.Dynoc.HealedOwnerAnswersFirst | src/dynoc-cmd.c:100-102 | after an undisturbed local pass without a failing AUTH a command is answered by the ring owner in local rack 0 if that one could be connected |
| Client.NewNodeTakesItsArc | src/dynoc-cmd.c:42-103 | with one node added to a rack, every key is routed to a slot of the same endpoint as before, and exactly the keys on the new node's arc to a slot of its endpoint |

## Left out

- hiredis, sockets and timeouts: connect, AUTH, PING and command outcomes are parameters chosen by the environment.
- pthreads: the region between lock and unlock of a slot is one step; thread creation, cancellation and the teardown in `dynoc_destroy` are not modelled.
- The endless loop and `sleep` of `reconnect_thread`: one pass over one datacenter is modelled.
- Memory allocation, its failure, and the pointers inside a started client: contexts are numbers into the list of all contexts, racks are named by datacenter and position, and the connection pools of all racks are one map from (datacenter, rack, node) to slot.
- The token pointer of a ring entry: it is never written after `continuum_init`, so an entry holds the token's value.
- Client.Dynoc.SelectConnection: requires that the racks a command comes to exist and are not empty (`Routable`), because the code searches outside the entries of an empty rack and outside the racks of a remote datacenter that has none.
- Setup.Datacenter.AddNode: requires room for the node, because the code writes past the entries of a full rack. In a rack that is not full the unused entries stay zeroed; the health check goes through them too, with a NULL host that stands here as an empty one.
- The library's `qsort`: an insertion sort with the same contract stands in for it; everything proved about rings holds for any sorted permutation.
- Tokens.TokenCell.AddNextWord: only the one-word case, because `token_parse` always passes one word; the second carry loop counts the wrong way for longer numbers and is never entered.
- Tokens.DecimalTokensAreNumbers: only canonical decimals below 2^32; longer texts have no numeric meaning in one 32-bit word, and `Tokens.TenMoreDigits` says what word they get.
- Crc32.Crc32Sz: what `tolower` makes of a byte is a parameter, fixed for ASCII only: the code passes a sign-extended character, for which the C standard defines no result.
- Jenkins.HashJenkins: memory is modelled as whole aligned words, which is what the 32-bit path relies on when it reads past the key; the code path for big-endian machines is left out.
- Md5.Context.Body: the `block` array used on machines without unaligned reads is left out; words are read from the data.
- Md5.Context.Update: the data is a value, so a chunk that aliases the context's own buffer is not modelled.
- The other commands: the same retry loop with another format string.
- The table of hash names, `hash_murmur3`, `hash_hsieh`, `hash_one_at_a_time` and the 32-bit FNV pair: they would only add easier members.
