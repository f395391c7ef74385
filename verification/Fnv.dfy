/** The two FNV hashes with 64-bit constants: one really folds 64 bits and truncates at the end, the
    other folds in 32 bits from the start. Truncation commutes with both folds. */
module Fnv {
  import opened Words

  const FNV_64_INIT: bv64 := 0xcbf2_9ce4_8422_2325

  // ---------- Word arithmetic, named so that proofs can treat it as algebra ----------

  function Low32(x: bv64): bv32 { (x & 0xffff_ffff) as bv32 }

  function Xor64(x: bv64, y: bv64): bv64 { x ^ y }

  function Times64(x: bv64): bv64 { x * 0x100_0000_01b3 }

  /** Multiplication by the 64-bit prime cut down to 32 bits. */
  function Times32(x: bv32): bv32 { x * 0x1b3 }

  function Over32(x: bv32): bv32 { x * 0xaff6_957b }

  lemma LowXor(x: bv64, y: bv64)
    ensures Low32(Xor64(x, y)) == Xor(Low32(x), Low32(y))
  {}

  lemma LowTimes(x: bv64)
    ensures Low32(Times64(x)) == Times32(Low32(x))
  {
    hide *;
    LowProduct(x);
    Times64Is(x); Low32Is(x); Times32OfLow(x);
  }

  lemma LowProduct(x: bv64)
    ensures Low32(x * 0x100_0000_01b3) == ((x & 0xffff_ffff) as bv32) * 0x1b3
  {}

  lemma Times64Is(x: bv64)
    ensures Times64(x) == x * 0x100_0000_01b3
  {}

  lemma Low32Is(x: bv64)
    ensures Low32(x) == (x & 0xffff_ffff) as bv32
  {}

  lemma Times32OfLow(x: bv64)
    ensures Times32((x & 0xffff_ffff) as bv32) == ((x & 0xffff_ffff) as bv32) * 0x1b3
  {}

  lemma LowSignExtend(b: bv8)
    ensures Low32(SignExtend64(b)) == SignExtend32(b)
  {}

  lemma LowInit()
    ensures Low32(FNV_64_INIT) == 0x8422_2325
  {}

  // ---------- The full 64-bit folds and the 32-bit folds ----------

  /** FNV-1a on 64 bits: exclusive-or in the byte, then multiply. */
  function Fold1a64(h: bv64, key: seq<bv8>): bv64
    decreases key
  {
    if key == [] then h else Fold1a64(Times64(Xor64(h, SignExtend64(key[0]))), key[1..])
  }

  function Fold1a32(h: bv32, key: seq<bv8>): bv32
    decreases key
  {
    if key == [] then h else Fold1a32(Times32(Xor(h, SignExtend32(key[0]))), key[1..])
  }

  /** FNV-1 on 64 bits: multiply, then exclusive-or in the byte. */
  function Fold164(h: bv64, key: seq<bv8>): bv64
    decreases key
  {
    if key == [] then h else Fold164(Xor64(Times64(h), SignExtend64(key[0])), key[1..])
  }

  function Fold132(h: bv32, key: seq<bv8>): bv32
    decreases key
  {
    if key == [] then h else Fold132(Xor(Times32(h), SignExtend32(key[0])), key[1..])
  }

  lemma {:induction false} TruncateFold1a(h: bv64, key: seq<bv8>)
    ensures Low32(Fold1a64(h, key)) == Fold1a32(Low32(h), key)
    decreases key
  {
    if key != [] {
      hide Low32, Times64, Times32, Xor64, Xor, SignExtend64, SignExtend32;
      var w := SignExtend64(key[0]);
      LowSignExtend(key[0]); LowXor(h, w); LowTimes(Xor64(h, w));
      TruncateFold1a(Times64(Xor64(h, w)), key[1..]);
    }
  }

  lemma {:induction false} TruncateFold1(h: bv64, key: seq<bv8>)
    ensures Low32(Fold164(h, key)) == Fold132(Low32(h), key)
    decreases key
  {
    if key != [] {
      hide Low32, Times64, Times32, Xor64, Xor, SignExtend64, SignExtend32;
      var w := SignExtend64(key[0]);
      LowSignExtend(key[0]); LowTimes(h); LowXor(Times64(h), w);
      TruncateFold1(Xor64(Times64(h), w), key[1..]);
    }
  }

  // ---------- The hashes ----------

  method HashFnv164(key: seq<bv8>) returns (val: bv32)
    ensures val == Low32(Fold164(FNV_64_INIT, key))
    ensures val == Fold132(0x8422_2325, key)
  {
    hide Low32, Times64, Times32, Xor64, Xor, SignExtend64, SignExtend32;
    var hash := FNV_64_INIT;
    for x := 0 to |key|
      invariant Fold164(hash, key[x..]) == Fold164(FNV_64_INIT, key)
    {
      hash := Times64(hash);
      hash := Xor64(hash, SignExtend64(key[x]));
    }
    assert key[|key|..] == [];
    TruncateFold1(FNV_64_INIT, key);
    LowInit();
    val := Low32(hash);
  }

  method HashFnv1a64(key: seq<bv8>) returns (hash: bv32)
    ensures hash == Low32(Fold1a64(FNV_64_INIT, key))
    ensures hash == Fold1a32(0x8422_2325, key)
  {
    hide Low32, Times64, Times32, Xor64, Xor, SignExtend64, SignExtend32;
    hash := Low32(FNV_64_INIT);
    LowInit();
    for x := 0 to |key|
      invariant Fold1a32(hash, key[x..]) == Fold1a32(0x8422_2325, key)
    {
      var val := SignExtend32(key[x]);
      hash := Xor(hash, val);
      hash := Times32(hash);
    }
    assert key[|key|..] == [];
    TruncateFold1a(FNV_64_INIT, key);
  }

  // ---------- Every step is reversible, so one changed byte always changes the hash ----------

  lemma OverTimes(x: bv32)
    ensures Over32(Times32(x)) == x
  {
    hide *;
    OverProduct(x);
    Times32Is(x);
  }

  lemma OverProduct(x: bv32)
    ensures Over32(x * 0x1b3) == x
  {}

  lemma Times32Is(x: bv32)
    ensures Times32(x) == x * 0x1b3
  {}

  lemma SignExtendInjective(a: bv8, b: bv8)
    requires SignExtend32(a) == SignExtend32(b)
    ensures a == b
  {}

  lemma {:induction false} Fold1a32Injective(g: bv32, h: bv32, key: seq<bv8>)
    requires Fold1a32(g, key) == Fold1a32(h, key)
    ensures g == h
    decreases key
  {
    if key != [] {
      hide Times32, Xor, SignExtend32;
      var w := SignExtend32(key[0]);
      Fold1a32Injective(Times32(Xor(g, w)), Times32(Xor(h, w)), key[1..]);
      OverTimes(Xor(g, w)); OverTimes(Xor(h, w));
      XorCancel(g, w); XorCancel(h, w);
    }
  }

  lemma {:induction false} Fold132Injective(g: bv32, h: bv32, key: seq<bv8>)
    requires Fold132(g, key) == Fold132(h, key)
    ensures g == h
    decreases key
  {
    if key != [] {
      hide Times32, Xor, SignExtend32;
      var w := SignExtend32(key[0]);
      Fold132Injective(Xor(Times32(g), w), Xor(Times32(h), w), key[1..]);
      XorCancel(Times32(g), w); XorCancel(Times32(h), w);
      OverTimes(g); OverTimes(h);
    }
  }

  /** Two keys that differ in exactly one byte never share either hash: the folds run through bijections
      of the 32-bit state before, at and after the changed byte. */
  lemma {:induction false} OneByteChangeDetected(h: bv32, pre: seq<bv8>, a: bv8, b: bv8, post: seq<bv8>)
    requires a != b
    ensures Fold1a32(h, pre + [a] + post) != Fold1a32(h, pre + [b] + post)
    ensures Fold132(h, pre + [a] + post) != Fold132(h, pre + [b] + post)
    decreases pre
  {
    var s, t := pre + [a] + post, pre + [b] + post;
    hide Times32, Xor, SignExtend32;
    if pre == [] {
      assert s[1..] == post && t[1..] == post;
      var x, y := SignExtend32(a), SignExtend32(b);
      if x == y { SignExtendInjective(a, b); }
      XorCancel(h, x); XorCancel(h, y);
      XorCancel(Times32(h), x); XorCancel(Times32(h), y);
      OverTimes(Xor(h, x)); OverTimes(Xor(h, y));
      if Fold1a32(h, s) == Fold1a32(h, t) {
        Fold1a32Injective(Times32(Xor(h, x)), Times32(Xor(h, y)), post);
      }
      if Fold132(h, s) == Fold132(h, t) {
        Fold132Injective(Xor(Times32(h), x), Xor(Times32(h), y), post);
      }
    } else {
      assert s[1..] == pre[1..] + [a] + post && t[1..] == pre[1..] + [b] + post;
      assert s[0] == pre[0] && t[0] == pre[0];
      OneByteChangeDetected(Times32(Xor(h, SignExtend32(pre[0]))), pre[1..], a, b, post);
      OneByteChangeDetected(Xor(Times32(h), SignExtend32(pre[0])), pre[1..], a, b, post);
    }
  }

  // ---------- The hashes in plain operators ----------

  lemma Xor64Is(x: bv64, y: bv64)
    ensures Xor64(x, y) == x ^ y
  {}

  lemma {:induction false} Fold1a32More(h: bv32, key: seq<bv8>, b: bv8)
    ensures Fold1a32(h, key + [b]) == Times32(Xor(Fold1a32(h, key), SignExtend32(b)))
    decreases key
  {
    hide Times32, Xor, SignExtend32;
    if key == [] {
      assert key + [b] == [b] && [b][1..] == [];
      assert Fold1a32(h, [b]) == Fold1a32(Times32(Xor(h, SignExtend32(b))), []);
    } else {
      assert (key + [b])[1..] == key[1..] + [b];
      Fold1a32More(Times32(Xor(h, SignExtend32(key[0]))), key[1..], b);
    }
  }

  /** FNV-1a, byte by byte: hash ^= byte, sign extended; hash *= prime, cut to 32 bits. */
  lemma Fold1a32Step(h: bv32, key: seq<bv8>, b: bv8, g: bv32, v: bv32, u: bv32)
    requires g == Fold1a32(h, key) && u == g ^ v
    requires v == if b < 0x80 then b as bv32 else b as bv32 - 0x100
    ensures Fold1a32(h, key + [b]) == u * 0x1b3
  {
    hide *;
    Fold1a32More(h, key, b);
    SignExtended(b); XorIs(g, v); Times32Is(u);
  }

  lemma {:induction false} Fold164More(h: bv64, key: seq<bv8>, b: bv8)
    ensures Fold164(h, key + [b]) == Xor64(Times64(Fold164(h, key)), SignExtend64(b))
    decreases key
  {
    hide Times64, Xor64, SignExtend64;
    if key == [] {
      assert key + [b] == [b] && [b][1..] == [];
      assert Fold164(h, [b]) == Fold164(Xor64(Times64(h), SignExtend64(b)), []);
    } else {
      assert (key + [b])[1..] == key[1..] + [b];
      Fold164More(Xor64(Times64(h), SignExtend64(key[0])), key[1..], b);
    }
  }

  /** FNV-1: hash *= prime; hash ^= byte, sign extended; all on 64 bits. */
  lemma Fold164Step(h: bv64, key: seq<bv8>, b: bv8, g: bv64, v: bv64, u: bv64)
    requires g == Fold164(h, key) && u == g * 0x100_0000_01b3
    requires v == if b < 0x80 then b as bv64 else b as bv64 - 0x100
    ensures Fold164(h, key + [b]) == u ^ v
  {
    hide *;
    Fold164More(h, key, b);
    Times64At(g, u); SignExtendedTo(b, v); Xor64Is(u, v);
  }

  lemma Times64At(g: bv64, u: bv64)
    requires u == g * 0x100_0000_01b3
    ensures Times64(g) == u
  {
    hide *;
    Times64Is(g);
  }

  lemma SignExtendedTo(b: bv8, v: bv64)
    requires v == if b < 0x80 then b as bv64 else b as bv64 - 0x100
    ensures SignExtend64(b) == v
  {
    hide *;
    SignExtended(b);
  }

  /** The empty key, "a", and "a" and the byte 0xe9. */
  lemma KnownHashes()
    ensures Fold1a32(0x8422_2325, []) == 0x8422_2325
    ensures Fold1a32(0x8422_2325, [0x61]) == 0x8601ec8c && Fold1a32(0x8422_2325, [0x61, 0xe9]) == 0x4abaf49f
    ensures Low32(Fold164(FNV_64_INIT, [])) == 0x8422_2325
    ensures Low32(Fold164(FNV_64_INIT, [0x61])) == 0x8601b7be && Low32(Fold164(FNV_64_INIT, [0x61, 0xe9])) == 0x4b14c833
  {
    hide Times32, Xor, SignExtend32, Times64, Xor64, SignExtend64, Low32, Fold1a32, Fold164;
    NothingFolded(0x8422_2325, 0xcbf29ce484222325);
    var none: seq<bv8>, a: seq<bv8> := [], [0x61];
    assert none + [0x61] == a && a + [0xe9] == [0x61, 0xe9];
    Fold1a32Step(0x8422_2325, none, 0x61, 0x84222325, 0x61, 0x84222344);
    Fold1a32Step(0x8422_2325, a, 0xe9, 0x8601ec8c, 0xffff_ffe9, 0x79fe1365);
    Fold164Step(0xcbf29ce484222325, none, 0x61, 0xcbf29ce484222325, 0x61, 0xaf63bd4c8601b7df);
    Fold164Step(0xcbf29ce484222325, a, 0xe9, 0xaf63bd4c8601b7be, 0xffff_ffff_ffff_ffe9, 0x08326707b4eb37da);
    Low32Is(0xcbf29ce484222325); Low32Is(0xaf63bd4c8601b7be); Low32Is(0xf7cd98f84b14c833);
  }

  lemma NothingFolded(g: bv32, h: bv64)
    ensures Fold1a32(g, []) == g && Fold164(h, []) == h
  {}
}
