/** The 32-bit MurmurHash2 used as the default key hash. Every step is a bijection of 32-bit words, so
    the whole hash is a bijection in each aligned block and injective in the tail. */
module Murmur {
  import opened Words

  // ---------- Word arithmetic, named so that proofs can treat it as algebra ----------

  /** Multiplication by the mixing constant, and by its inverse modulo 2^32. */
  function Times(x: bv32): bv32 { x * 0x5bd1_e995 }

  function Over(x: bv32): bv32 { x * 0xe59b_19bd }

  function Fold24(x: bv32): bv32 { x ^ (x >> 24) }

  function Fold13(x: bv32): bv32 { x ^ (x >> 13) }

  function Unfold13(x: bv32): bv32 { x ^ (x >> 13) ^ (x >> 26) }

  function Fold15(x: bv32): bv32 { x ^ (x >> 15) }

  function Unfold15(x: bv32): bv32 { x ^ (x >> 15) ^ (x >> 30) }

  lemma TimesIs(x: bv32)
    ensures Times(x) == x * 0x5bd1_e995
    ensures Over(x) == x * 0xe59b_19bd
  {}

  lemma Products(x: bv32)
    ensures Over(x * 0x5bd1_e995) == x
    ensures Times(x * 0xe59b_19bd) == x
  {}

  lemma OverTimes(x: bv32)
    ensures Over(Times(x)) == x && Times(Over(x)) == x
  {
    hide *;
    TimesIs(x);
    Products(x);
  }

  lemma FoldsUndone(x: bv32)
    ensures Fold24(Fold24(x)) == x
  {}

  lemma Fold13Is(x: bv32)
    ensures Fold13(x) == x ^ (x >> 13)
    ensures Unfold13(x) == x ^ (x >> 13) ^ (x >> 26)
  {}

  lemma Fold15Is(x: bv32)
    ensures Fold15(x) == x ^ (x >> 15)
    ensures Unfold15(x) == x ^ (x >> 15) ^ (x >> 30)
  {}

  lemma FoldsOfRaw(x: bv32)
    ensures Unfold13(x ^ (x >> 13)) == x
    ensures Fold13(x ^ (x >> 13) ^ (x >> 26)) == x
    ensures Unfold15(x ^ (x >> 15)) == x
    ensures Fold15(x ^ (x >> 15) ^ (x >> 30)) == x
  {}

  lemma Fold13Undone(x: bv32)
    ensures Unfold13(Fold13(x)) == x
    ensures Fold13(Unfold13(x)) == x
  {
    hide *;
    Fold13Is(x);
    FoldsOfRaw(x);
  }

  lemma Fold15Undone(x: bv32)
    ensures Unfold15(Fold15(x)) == x
    ensures Fold15(Unfold15(x)) == x
  {
    hide *;
    Fold15Is(x);
    FoldsOfRaw(x);
  }

  lemma TailWord1(a: bv8)
    ensures Wide(a) == Le32(a, 0, 0, 0)
  {}

  lemma TailWord2(a: bv8, b: bv8)
    ensures Xor(Wide8(b), Wide(a)) == Le32(a, b, 0, 0)
  {}

  lemma TailWord3(a: bv8, b: bv8, c: bv8)
    ensures Xor(Wide16(c), Xor(Wide8(b), Wide(a))) == Le32(a, b, c, 0)
  {}

  // ---------- Reference ----------

  function MixBlock(k: bv32): bv32 { Times(Fold24(Times(k))) }

  function UnmixBlock(k: bv32): bv32 { Over(Fold24(Over(k))) }

  /** One aligned block k mixed into the hash. */
  function Step(h: bv32, k: bv32): bv32 { Xor(Times(h), MixBlock(k)) }

  function Unstep(h: bv32, k: bv32): bv32 { Over(Xor(h, MixBlock(k))) }

  function Finish(h: bv32): bv32 { Fold15(Times(Fold13(h))) }

  function Unfinish(h: bv32): bv32 { Unfold13(Over(Unfold15(h))) }

  function TimesSeed(x: bv32): bv32 { 0xdead_beef * x }

  function Seed(n: nat): bv32 { Xor(TimesSeed(Truncate32(n)), Truncate32(n)) }

  /** A tail of one to three bytes as a little-endian word, missing bytes zero. */
  function TailWord(tail: seq<bv8>): bv32
    requires 1 <= |tail| <= 3
  {
    Le32(tail[0], if |tail| > 1 then tail[1] else 0, if |tail| > 2 then tail[2] else 0, 0)
  }

  /** Whole blocks first to last, then the tail if there is one. */
  function Absorb(h: bv32, key: seq<bv8>): bv32
    decreases key
  {
    if |key| >= 4 then Absorb(Step(h, WordAt(key, 0)), key[4..])
    else if key == [] then h
    else Times(Xor(h, TailWord(key)))
  }

  function HashSpec(key: seq<bv8>): bv32 {
    Finish(Absorb(Seed(|key|), key))
  }

  // ---------- The hash ----------

  method HashMurmur(key: seq<bv8>) returns (h: bv32)
    ensures h == HashSpec(key)
  {
    hide Times, Fold24, Fold13, Fold15, Xor, Wide, Wide8, Wide16, Le32, Truncate32, TailWord;
    var data, length := 0, |key|;
    h := Seed(|key|);
    while length >= 4
      invariant 0 <= data && 0 <= length && data + length == |key|
      invariant Absorb(h, key[data..]) == Absorb(Seed(|key|), key)
    {
      ghost var rest := key[data..];
      assert WordAt(rest, 0) == WordAt(key, data) && rest[4..] == key[data + 4..];
      var k := WordAt(key, data);
      k := Times(k);
      k := Fold24(k);
      k := Times(k);
      h := Times(h);
      h := Xor(h, k);
      data := data + 4;
      length := length - 4;
    }
    ghost var h0, tail := h, key[data..];
    if length == 3 {
      h := Xor(h, Wide16(key[data + 2]));
    }
    if length >= 2 {
      h := Xor(h, Wide8(key[data + 1]));
    }
    if length >= 1 {
      h := Xor(h, Wide(key[data]));
      TailMixed(h0, tail);
      h := Times(h);
    }
    h := Fold13(h);
    h := Times(h);
    h := Fold15(h);
  }

  /** The fall-through cases of the tail switch, byte by byte, mix in the tail as one word. */
  lemma TailMixed(h: bv32, tail: seq<bv8>)
    requires 1 <= |tail| <= 3
    ensures |tail| == 1 ==> Xor(h, Wide(tail[0])) == Xor(h, TailWord(tail))
    ensures |tail| == 2 ==> Xor(Xor(h, Wide8(tail[1])), Wide(tail[0])) == Xor(h, TailWord(tail))
    ensures |tail| == 3 ==>
      Xor(Xor(Xor(h, Wide16(tail[2])), Wide8(tail[1])), Wide(tail[0])) == Xor(h, TailWord(tail))
  {
    hide Xor, Wide, Wide8, Wide16, Le32;
    var a := tail[0];
    if |tail| == 1 {
      TailWord1(a);
    } else if |tail| == 2 {
      TailWord2(a, tail[1]);
      XorAssoc(h, Wide8(tail[1]), Wide(a));
    } else {
      var b, c := Wide8(tail[1]), Wide16(tail[2]);
      TailWord3(a, tail[1], tail[2]);
      XorAssoc(Xor(h, c), b, Wide(a));
      XorAssoc(h, c, Xor(b, Wide(a)));
    }
  }

  // ---------- Every stage is a bijection ----------

  lemma MixBlockUndone(k: bv32)
    ensures UnmixBlock(MixBlock(k)) == k && MixBlock(UnmixBlock(k)) == k
  {
    hide Times, Over, Fold24;
    OverTimes(k); OverTimes(Fold24(Times(k))); FoldsUndone(Times(k));
    OverTimes(Fold24(Over(k))); FoldsUndone(Over(k));
  }

  lemma StepUndone(h: bv32, k: bv32)
    ensures Unstep(Step(h, k), k) == h && Step(Unstep(h, k), k) == h
  {
    hide Times, Over, MixBlock, Xor;
    XorCancel(Times(h), MixBlock(k)); OverTimes(h);
    OverTimes(Xor(h, MixBlock(k))); XorCancel(h, MixBlock(k));
  }

  lemma FinishUndone(h: bv32)
    ensures Unfinish(Finish(h)) == h && Finish(Unfinish(h)) == h
  {
    hide Times, Over, Fold13, Unfold13, Fold15, Unfold15;
    Fold13Undone(h); OverTimes(Fold13(h)); Fold15Undone(Times(Fold13(h)));
    Fold15Undone(h); OverTimes(Unfold15(h)); Fold13Undone(Over(Unfold15(h)));
  }

  /** The state before a key was absorbed, from the state after. */
  function Unabsorb(h: bv32, key: seq<bv8>): bv32
    decreases key
  {
    if |key| >= 4 then Unstep(Unabsorb(h, key[4..]), WordAt(key, 0))
    else if key == [] then h
    else Xor(Over(h), TailWord(key))
  }

  lemma {:induction false} AbsorbUndone(h: bv32, key: seq<bv8>)
    ensures Unabsorb(Absorb(h, key), key) == h && Absorb(Unabsorb(h, key), key) == h
    decreases key
  {
    hide Times, Over, Xor, Step, Unstep, WordAt, TailWord;
    if |key| >= 4 {
      var k := WordAt(key, 0);
      AbsorbUndone(Step(h, k), key[4..]);
      AbsorbUndone(h, key[4..]);
      StepUndone(h, k); StepUndone(Unabsorb(h, key[4..]), k);
    } else if key != [] {
      var t := TailWord(key);
      OverTimes(Xor(h, t)); XorCancel(h, t);
      XorCancel(Over(h), t); OverTimes(h);
    }
  }

  lemma {:induction false} AbsorbConcat(h: bv32, pre: seq<bv8>, rest: seq<bv8>)
    requires |pre| % 4 == 0
    ensures Absorb(h, pre + rest) == Absorb(Absorb(h, pre), rest)
    decreases pre
  {
    hide Times, Xor, Step, TailWord, Le32;
    if pre == [] {
      assert pre + rest == rest;
    } else {
      assert (pre + rest)[4..] == pre[4..] + rest;
      assert WordAt(pre + rest, 0) == WordAt(pre, 0);
      AbsorbConcat(Step(h, WordAt(pre, 0)), pre[4..], rest);
    }
  }

  /** The one value of an aligned block that takes a key to a wanted hash. */
  function SolveBlock(pre: seq<bv8>, post: seq<bv8>, wanted: bv32): bv32 {
    var before := Absorb(Seed(|pre| + 4 + |post|), pre);
    var after := Unabsorb(Unfinish(wanted), post);
    UnmixBlock(Xor(Times(before), after))
  }

  /** With everything else fixed, the hash is a bijection of all 32-bit words in each aligned block:
      every value is hit, by exactly one block. */
  lemma BlockBijection(pre: seq<bv8>, w: bv32, post: seq<bv8>, wanted: bv32)
    requires |pre| % 4 == 0
    ensures HashSpec(pre + LeBytes(w) + post) == wanted <==> w == SolveBlock(pre, post, wanted)
  {
    hide Seed, Absorb, Unabsorb, LeBytes, WordAt, Xor, Times, MixBlock, UnmixBlock, Finish, Unfinish;
    var key := pre + LeBytes(w) + post;
    var before := Absorb(Seed(|key|), pre);
    assert key == pre + (LeBytes(w) + post);
    AbsorbConcat(Seed(|key|), pre, LeBytes(w) + post);
    AbsorbBlock(before, w, post);
    var k := MixBlock(w);
    XorCancel(Times(before), k);
    MixBlockUndone(w);
    AbsorbUndone(Step(before, w), post);
    FinishUndone(Absorb(Step(before, w), post));
    var after := Unabsorb(Unfinish(wanted), post);
    MixBlockUndone(Xor(Times(before), after));
    XorCancel(Times(before), after);
    AbsorbUndone(Unfinish(wanted), post);
    FinishUndone(wanted);
  }

  lemma AbsorbBlock(h: bv32, w: bv32, post: seq<bv8>)
    ensures Absorb(h, LeBytes(w) + post) == Absorb(Step(h, w), post)
  {
    hide LeBytes, Step, Le32;
    var key := LeBytes(w) + post;
    assert WordAt(key, 0) == WordAt(LeBytes(w), 0);
    WordAtLeBytes(w);
    assert key[4..] == post;
  }

  /** On four-byte keys the hash is a permutation of all 32-bit words. */
  lemma FourByteKeyPermutation(w: bv32, wanted: bv32)
    ensures HashSpec(LeBytes(w)) == wanted <==> w == SolveBlock([], [], wanted)
  {
    hide *;
    assert [] + LeBytes(w) + [] == LeBytes(w);
    BlockBijection([], w, [], wanted);
  }

  lemma TailWordInjective(t: seq<bv8>, u: seq<bv8>)
    requires 1 <= |t| == |u| <= 3 && TailWord(t) == TailWord(u)
    ensures t == u
  {
    hide Le32;
    var t1, t2 := if |t| > 1 then t[1] else 0, if |t| > 2 then t[2] else 0;
    var u1, u2 := if |u| > 1 then u[1] else 0, if |u| > 2 then u[2] else 0;
    Le32Injective(t[0], t1, t2, 0, u[0], u1, u2, 0);
  }

  /** With the blocks fixed, different tails of one length give different hashes. */
  lemma TailInjective(pre: seq<bv8>, t: seq<bv8>, u: seq<bv8>)
    requires |pre| % 4 == 0 && 1 <= |t| == |u| <= 3 && t != u
    ensures HashSpec(pre + t) != HashSpec(pre + u)
  {
    hide *;
    if HashSpec(pre + t) == HashSpec(pre + u) {
      var h := Absorb(Seed(|pre| + |t|), pre);
      HashOfTail(pre, t); HashOfTail(pre, u);
      var x, y := Xor(h, TailWord(t)), Xor(h, TailWord(u));
      FinishUndone(Times(x)); FinishUndone(Times(y));
      OverTimes(x); OverTimes(y);
      XorCancel(h, TailWord(t)); XorCancel(h, TailWord(u));
      TailWordInjective(t, u);
    }
  }

  lemma HashOfTail(pre: seq<bv8>, t: seq<bv8>)
    requires |pre| % 4 == 0 && 1 <= |t| <= 3
    ensures HashSpec(pre + t) == Finish(Times(Xor(Absorb(Seed(|pre| + |t|), pre), TailWord(t))))
  {
    hide *;
    HashSpecIs(pre + t);
    AbsorbConcat(Seed(|pre| + |t|), pre, t);
    AbsorbTail(Absorb(Seed(|pre| + |t|), pre), t);
  }

  lemma HashSpecIs(key: seq<bv8>)
    ensures HashSpec(key) == Finish(Absorb(Seed(|key|), key))
  {
    hide Finish, Absorb, Seed;
  }

  lemma AbsorbTail(h: bv32, t: seq<bv8>)
    requires 1 <= |t| <= 3
    ensures Absorb(h, t) == Times(Xor(h, TailWord(t)))
  {
    hide TailWord, Xor, Times, Step, WordAt;
  }

  // ---------- The hash in plain operators, statement by statement ----------

  // In these lemmas every value an assignment of the code leaves is a parameter, bound by the assignment.

  lemma Fold24Is(x: bv32)
    ensures Fold24(x) == x ^ (x >> 24)
  {}

  lemma SeedDef(n: nat)
    ensures Seed(n) == Xor(TimesSeed(Truncate32(n)), Truncate32(n))
  {
    hide Truncate32, Xor, TimesSeed;
  }

  lemma TimesSeedIs(x: bv32)
    ensures TimesSeed(x) == 0xdead_beef * x
  {}

  /** h = (0xdeadbeef * length) ^ length. */
  lemma SeedIs(n: nat, l: bv32, m: bv32)
    requires l == Truncate32(n) && m == 0xdead_beef * l
    ensures Seed(n) == m ^ l
  {
    hide *;
    SeedDef(n);
    TimesSeedIs(l);
    XorIs(m, l);
  }

  lemma StepDef(h: bv32, k: bv32)
    ensures Step(h, k) == Xor(Times(h), Times(Fold24(Times(k))))
  {
    hide Xor, Times, Fold24;
  }

  /** k *= m; k ^= k >> 24; k *= m; h *= m; h ^= k. */
  lemma StepIs(h: bv32, k: bv32, k1: bv32, k2: bv32, k3: bv32, h1: bv32)
    requires k1 == k * 0x5bd1_e995 && k2 == k1 ^ (k1 >> 24) && k3 == k2 * 0x5bd1_e995 && h1 == h * 0x5bd1_e995
    ensures Step(h, k) == h1 ^ k3
  {
    hide *;
    StepDef(h, k);
    TimesIs(h); TimesIs(k); Fold24Is(k1); TimesIs(k2);
    XorIs(h1, k3);
  }

  lemma FinishDef(h: bv32)
    ensures Finish(h) == Fold15(Times(Fold13(h)))
  {
    hide Fold15, Times, Fold13;
  }

  /** h ^= h >> 13; h *= m; h ^= h >> 15. */
  lemma FinishIs(h: bv32, h1: bv32, h2: bv32)
    requires h1 == h ^ (h >> 13) && h2 == h1 * 0x5bd1_e995
    ensures Finish(h) == h2 ^ (h2 >> 15)
  {
    hide *;
    FinishDef(h);
    Fold13Is(h); TimesIs(h1); Fold15Is(h2);
  }

  lemma AbsorbDef(h: bv32, block: seq<bv8>, rest: seq<bv8>)
    requires |block| == 4
    ensures Absorb(h, block + rest) == Absorb(Step(h, Le32(block[0], block[1], block[2], block[3])), rest)
  {
    hide Step, Le32;
    assert (block + rest)[4..] == rest;
  }

  /** The empty key. */
  lemma EmptyKeyHash()
    ensures HashSpec([]) == 0
  {
    hide *;
    HashSpecIs([]);
    LiteralLength(0, 0);
    SeedIs(0, 0, 0);
    NothingAbsorbed(0);
    FinishIs(0, 0, 0);
  }

  lemma NothingAbsorbed(h: bv32)
    ensures Absorb(h, []) == h
  {}

  /** Keys of one to three bytes: s is the seed, t the tail. */
  lemma ShortKeyHash(key: seq<bv8>, s: bv32, t: bv32, h1: bv32, h2: bv32, h3: bv32, h4: bv32)
    requires 1 <= |key| <= 3
    requires s == if |key| == 1 then (0xdead_beef * 1) ^ 1 else if |key| == 2 then (0xdead_beef * 2) ^ 2
                  else (0xdead_beef * 3) ^ 3
    requires t == if |key| == 1 then key[0] as bv32 else if |key| == 2 then key[0] as bv32 | (key[1] as bv32 << 8)
                  else key[0] as bv32 | (key[1] as bv32 << 8) | (key[2] as bv32 << 16)
    requires h1 == s ^ t && h2 == h1 * 0x5bd1_e995 && h3 == h2 ^ (h2 >> 13) && h4 == h3 * 0x5bd1_e995
    ensures HashSpec(key) == h4 ^ (h4 >> 15)
  {
    hide *;
    HashSpecIs(key);
    LiteralLength(1, 1); LiteralLength(2, 2); LiteralLength(3, 3);
    SeedIs(1, 1, 0xdead_beef * 1); SeedIs(2, 2, 0xdead_beef * 2); SeedIs(3, 3, 0xdead_beef * 3);
    AbsorbTail(s, key);
    TailWordIs(key);
    XorIs(s, t); TimesIs(h1);
    FinishIs(h2, h3, h4);
  }

  lemma TailWordIs(t: seq<bv8>)
    requires 1 <= |t| <= 3
    ensures TailWord(t) == if |t| == 1 then t[0] as bv32 else if |t| == 2 then t[0] as bv32 | (t[1] as bv32 << 8)
                           else t[0] as bv32 | (t[1] as bv32 << 8) | (t[2] as bv32 << 16)
  {
    hide Le32;
    if |t| == 1 {
      ShortLe32Is(t[0], 0, 0);
    } else if |t| == 2 {
      ShortLe32Is(t[0], t[1], 0);
    } else {
      ShortLe32Is(t[0], t[1], t[2]);
    }
  }

  /** Keys of four bytes. */
  lemma FourByteKeyHash(key: seq<bv8>, k: bv32, k1: bv32, k2: bv32, k3: bv32,
                        h0: bv32, h1: bv32, h2: bv32, h3: bv32)
    requires |key| == 4
    requires k == key[0] as bv32 | (key[1] as bv32 << 8) | (key[2] as bv32 << 16) | (key[3] as bv32 << 24)
    requires k1 == k * 0x5bd1_e995 && k2 == k1 ^ (k1 >> 24) && k3 == k2 * 0x5bd1_e995
    requires h0 == ((0xdead_beef * 4) ^ 4) * 0x5bd1_e995 && h1 == h0 ^ k3
    requires h2 == h1 ^ (h1 >> 13) && h3 == h2 * 0x5bd1_e995
    ensures HashSpec(key) == h3 ^ (h3 >> 15)
  {
    hide *;
    var s: bv32 := (0xdead_beef * 4) ^ 4;
    HashSpecIs(key);
    LiteralLength(4, 4);
    SeedIs(4, 4, 0xdead_beef * 4);
    assert key + [] == key;
    AbsorbDef(s, key, []);
    Le32Is(key[0], key[1], key[2], key[3]);
    StepIs(s, k, k1, k2, k3, h0);
    NothingAbsorbed(h1);
    FinishIs(h1, h2, h3);
  }

  /** "a" and "user:1". */
  lemma KnownHashes()
    ensures HashSpec([0x61]) == 0x4b41_757c
    ensures HashSpec([0x75, 0x73, 0x65, 0x72, 0x3a, 0x31]) == 0xd5d0_b563
  {
    hide *;
    ShortKeyHash([0x61], 0xdeadbeee, 0x00000061, 0xdeadbe8f, 0x254f103b, 0x254e3a43, 0x4b41e3ff);
    var key: seq<bv8> := [0x75, 0x73, 0x65, 0x72, 0x3a, 0x31];
    HashSpecIs(key);
    LiteralLength(6, 6);
    SeedIs(6, 6, 0x3812799a);
    assert key == [0x75, 0x73, 0x65, 0x72] + [0x3a, 0x31];
    AbsorbDef(0x3812799c, [0x75, 0x73, 0x65, 0x72], [0x3a, 0x31]);
    Le32Is(0x75, 0x73, 0x65, 0x72);
    StepIs(0x3812799c, 0x72657375, 0xc4a6b019, 0xc4a6b0dd, 0x1f6b15a1, 0x2fcbc3cc);
    AbsorbTail(0x30a0d66d, [0x3a, 0x31]);
    TailWordIs([0x3a, 0x31]);
    XorIs(0x30a0d66d, 0x0000313a);
    TimesIs(0x30a0e757);
    FinishIs(0x8b3bd4a3, 0x8b3f8d7d, 0xd5d11ec1);
  }
}
