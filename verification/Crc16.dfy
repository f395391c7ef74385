/** The CRC-16 key hash: a 16-bit CRC run in a 32-bit register that is never masked. */
module Crc16 {
  import opened BitStrings
  import opened Crc16Table
  import opened Words

  // ---------- Register arithmetic, named so that proofs can treat it as algebra ----------

  function Xor(x: bv16, y: bv16): bv16 { x ^ y }

  function Dbl(x: bv16): bv16 { x << 1 }

  predicate Top(x: bv16) { x & 0x8000 == 0x8000 }

  function TopBit(b: bool): bv16 { if b then 0x8000 else 0 }

  function Rest(x: bv16): bv16 { x & 0x7fff }

  lemma XorZero(x: bv16)
    ensures Xor(x, 0) == x && Xor(0, x) == x && Xor(x, x) == 0
  {}

  lemma XorComm(x: bv16, y: bv16)
    ensures Xor(x, y) == Xor(y, x)
  {}

  lemma XorAssoc(x: bv16, y: bv16, z: bv16)
    ensures Xor(Xor(x, y), z) == Xor(x, Xor(y, z))
  {}

  lemma XorSwap(x: bv16, y: bv16, z: bv16, w: bv16)
    ensures Xor(Xor(x, y), Xor(z, w)) == Xor(Xor(x, z), Xor(y, w))
  {
    hide *;
    XorAssoc(x, y, Xor(z, w));
    XorAssoc(y, z, w);
    XorComm(y, z);
    XorAssoc(z, y, w);
    XorAssoc(x, z, Xor(y, w));
  }

  lemma TopXor(x: bv16, y: bv16)
    ensures Top(Xor(x, y)) <==> Top(x) != Top(y)
  {}

  lemma DblXor(x: bv16, y: bv16)
    ensures Dbl(Xor(x, y)) == Xor(Dbl(x), Dbl(y))
  {}

  lemma SplitTopBit(x: bv16)
    ensures x == Xor(TopBit(Top(x)), Rest(x))
  {
    hide Xor, Rest;
    XorZero(Rest(x));
    if Top(x) {
      SetTop(x);
    } else {
      ClearTop(x);
    }
  }

  lemma SetTop(x: bv16)
    requires Top(x)
    ensures x == Xor(0x8000, Rest(x))
  {}

  lemma ClearTop(x: bv16)
    requires !Top(x)
    ensures x == Rest(x)
  {}

  lemma RestHasNoTop(x: bv16)
    ensures !Top(Rest(x))
  {}

  lemma DblRest(x: bv16)
    ensures Dbl(Rest(x)) == Dbl(x)
  {}

  // ---------- The division step is linear ----------

  lemma BitStepIs(x: bv16)
    ensures BitStep(x) == if Top(x) then Xor(Dbl(x), POLY) else Dbl(x)
  {}

  lemma BitStepXor(x: bv16, y: bv16)
    ensures BitStep(Xor(x, y)) == Xor(BitStep(x), BitStep(y))
  {
    hide *;
    var u, v := Dbl(x), Dbl(y);
    BitStepIs(x); BitStepIs(y); BitStepIs(Xor(x, y));
    TopXor(x, y); DblXor(x, y);
    XorSwap(u, POLY, v, POLY); XorZero(POLY); XorZero(Xor(u, v));
    XorAssoc(u, v, POLY); XorAssoc(u, POLY, v); XorComm(v, POLY);
  }

  /** n division steps in a row. */
  function Shift(x: bv16, n: nat): bv16
    decreases n
  {
    if n == 0 then x else Shift(BitStep(x), n - 1)
  }

  lemma {:induction false} ShiftXor(x: bv16, y: bv16, n: nat)
    ensures Shift(Xor(x, y), n) == Xor(Shift(x, n), Shift(y, n))
    decreases n
  {
    hide BitStep, Xor;
    if n > 0 {
      BitStepXor(x, y);
      ShiftXor(BitStep(x), BitStep(y), n - 1);
    }
  }

  lemma ByteStepIsShift(x: bv16)
    ensures ByteStep(x) == Shift(x, 8)
  {
    hide BitStep;
  }

  // ---------- Reference: the 16-bit register fed one message bit at a time ----------

  function Feed(reg: bv16, bit: bool): bv16 {
    BitStep(Xor(reg, TopBit(bit)))
  }

  function Serial(reg: bv16, bits: seq<bool>): bv16
    decreases bits
  {
    if bits == [] then reg else Serial(Feed(reg, bits[0]), bits[1..])
  }

  lemma {:induction false} SerialConcat(reg: bv16, u: seq<bool>, v: seq<bool>)
    ensures Serial(reg, u + v) == Serial(Serial(reg, u), v)
    decreases u
  {
    hide Feed;
    if u == [] {
      assert u + v == v;
    } else {
      assert (u + v)[1..] == u[1..] + v;
      SerialConcat(Feed(reg, u[0]), u[1..], v);
    }
  }

  /** The n high-order bits of a word, highest first. */
  function HighBits(x: bv16, n: nat): (bits: seq<bool>)
    ensures |bits| == n
    decreases n
  {
    if n == 0 then [] else [Top(x)] + HighBits(Dbl(x), n - 1)
  }

  function HighByte(b: bv8): bv16 { b as bv16 << 8 }

  /** The bits of a key in transmission order: bytes in order, each high-order bit first. */
  function Bits(key: seq<bv8>): (bits: seq<bool>)
    ensures |bits| == 8 * |key|
  {
    if key == [] then [] else Bits(key[..|key| - 1]) + HighBits(HighByte(key[|key| - 1]), 8)
  }

  /** The 16-bit CRC with polynomial 0x1021 and initial value 0. */
  function CrcSpec(key: seq<bv8>): bv16 {
    Serial(0, Bits(key))
  }

  // ---------- One table step is eight serial steps ----------

  function DblN(x: bv16, n: nat): bv16
    decreases n
  {
    if n == 0 then x else DblN(Dbl(x), n - 1)
  }

  lemma {:induction false} SerialIsShift(reg: bv16, x: bv16, n: nat)
    requires DblN(x, n) == 0
    ensures Serial(reg, HighBits(x, n)) == Shift(Xor(reg, x), n)
    decreases n
  {
    if n == 0 {
      XorZero(reg);
    } else {
      hide Xor, Dbl, TopBit, BitStep, Top, Rest;
      var t := TopBit(Top(x));
      assert HighBits(x, n)[1..] == HighBits(Dbl(x), n - 1);
      SerialIsShift(Feed(reg, Top(x)), Dbl(x), n - 1);
      SplitTopBit(x); RestHasNoTop(x); DblRest(x);
      XorAssoc(reg, t, Rest(x));
      BitStepXor(Xor(reg, t), Rest(x));
      BitStepIs(Rest(x));
    }
  }

  lemma HighByteFits(b: bv8)
    ensures DblN(HighByte(b), 8) == 0
  {}

  function High(x: bv16): bv8 { (x >> 8) as bv8 }

  function Low(x: bv16): bv16 { x & 0xff }

  function Shl8(x: bv16): bv16 { x << 8 }

  function TableStep(reg: bv16, b: bv8): bv16 {
    Xor(Shl8(reg), Table(Xor8(High(reg), b)))
  }

  function Xor8(a: bv8, b: bv8): bv8 { a ^ b }

  lemma SplitBytes(x: bv16)
    ensures x == Xor(HighByte(High(x)), Low(x))
  {}

  lemma HighByteXor(a: bv8, b: bv8)
    ensures HighByte(Xor8(a, b)) == Xor(HighByte(a), HighByte(b))
  {}

  lemma SplitHighByte(reg: bv16, b: bv8)
    ensures Xor(reg, HighByte(b)) == Xor(HighByte(Xor8(High(reg), b)), Low(reg))
  {
    hide *;
    var h, l := HighByte(High(reg)), Low(reg);
    SplitBytes(reg);
    HighByteXor(High(reg), b);
    XorAssoc(h, l, HighByte(b));
    XorComm(l, HighByte(b));
    XorAssoc(h, HighByte(b), l);
  }

  lemma ByteStepLow(x: bv16)
    ensures ByteStep(Low(x)) == Shl8(x)
  {}

  lemma TableCorrectHigh(i: bv8)
    ensures Table(i) == ByteStep(HighByte(i))
  {
    hide Table, ByteStep;
    TableCorrect(i);
  }

  lemma TableStepIs(reg: bv16, b: bv8)
    ensures TableStep(reg, b) == Xor(Shl8(reg), Table(Xor8(High(reg), b)))
  {
    hide Xor, Xor8, Shl8, Table, High;
  }

  lemma TableStepIsSerial(reg: bv16, b: bv8)
    ensures TableStep(reg, b) == Serial(reg, HighBits(HighByte(b), 8))
  {
    hide *;
    var i := Xor8(High(reg), b);
    TableStepIs(reg, b);
    TableCorrectHigh(i);
    ByteStepLow(reg);
    ByteStepIsShift(HighByte(i)); ByteStepIsShift(Low(reg));
    ShiftXor(HighByte(i), Low(reg), 8);
    XorComm(Shift(HighByte(i), 8), Shift(Low(reg), 8));
    SplitHighByte(reg, b);
    HighByteFits(b);
    SerialIsShift(reg, HighByte(b), 8);
  }

  lemma CrcSpecStep(key: seq<bv8>, b: bv8)
    ensures CrcSpec(key + [b]) == TableStep(CrcSpec(key), b)
  {
    hide TableStep, HighBits, HighByte;
    var bits := HighBits(HighByte(b), 8);
    assert (key + [b])[..|key|] == key;
    SerialConcat(0, Bits(key), bits);
    TableStepIsSerial(CrcSpec(key), b);
  }

  // ---------- The 32-bit register of the hash ----------

  /** The CRC of a prefix of the key in the low 16 bits, and above it the high bytes of the CRCs of the
      prefixes shorter by one and by two bytes. */
  function Pack(crc: bv16, before: bv16, beforeThat: bv16): bv32 {
    crc as bv32 | (High(before) as bv32 << 16) | (High(beforeThat) as bv32 << 24)
  }

  /** The table index the loop computes, reading the key through a signed char. */
  function Index(crc: bv32, b: bv8): bv8 {
    (((crc >> 8) ^ SignExtend32(b)) & 0xff) as bv8
  }

  /** The new register: shift up by a byte, exclusive-or in the table entry. */
  function Push(crc: bv32, entry: bv16): bv32 {
    (crc << 8) ^ (entry as bv32)
  }

  lemma IndexOfPack(c: bv16, d: bv16, e: bv16, b: bv8)
    ensures Index(Pack(c, d, e), b) == Xor8(High(c), b)
  {
    hide *;
    IndexIgnoresSign(Pack(c, d, e), b);
    SecondByteOfPack(c, d, e);
  }

  function SecondByte(x: bv32): bv8 { ((x >> 8) & 0xff) as bv8 }

  lemma IndexIgnoresSign(crc: bv32, b: bv8)
    ensures Index(crc, b) == Xor8(SecondByte(crc), b)
  {}

  lemma SecondByteOfPack(c: bv16, d: bv16, e: bv16)
    ensures SecondByte(Pack(c, d, e)) == High(c)
  {}

  lemma PushOfPack(c: bv16, d: bv16, e: bv16, entry: bv16)
    ensures Push(Pack(c, d, e), entry) == Pack(Xor(Shl8(c), entry), c, d)
  {}

  /** The CRC of the first i bytes; 0 where there is no such prefix. */
  function CrcOfPrefix(key: seq<bv8>, i: int): bv16
    requires i <= |key|
  {
    if i < 0 then 0 else CrcSpec(key[..i])
  }

  /** The hash: the CRC, under the high bytes of the CRCs of the key without its last one and two bytes. */
  function HashSpec(key: seq<bv8>): bv32 {
    Pack(CrcSpec(key), CrcOfPrefix(key, |key| - 1), CrcOfPrefix(key, |key| - 2))
  }

  lemma LowHalf(key: seq<bv8>)
    ensures (HashSpec(key) & 0xffff) as bv16 == CrcSpec(key)
  {
    hide CrcSpec, CrcOfPrefix, Pack;
    PackParts(CrcSpec(key), CrcOfPrefix(key, |key| - 1), CrcOfPrefix(key, |key| - 2));
  }

  method HashCrc16(key: seq<bv8>) returns (crc: bv32)
    ensures crc == HashSpec(key)
  {
    hide CrcSpec, Table, Index, Push, Pack, High, Xor, Xor8, Shl8, TableStep;
    crc := 0;
    EmptyRegister();
    for x := 0 to |key|
      invariant crc == Pack(CrcOfPrefix(key, x), CrcOfPrefix(key, x - 1), CrcOfPrefix(key, x - 2))
    {
      ghost var c, d, e := CrcOfPrefix(key, x), CrcOfPrefix(key, x - 1), CrcOfPrefix(key, x - 2);
      IndexOfPack(c, d, e, key[x]);
      PushOfPack(c, d, e, Table(Xor8(High(c), key[x])));
      TableStepIs(c, key[x]);
      CrcSpecStep(key[..x], key[x]);
      assert key[..x] + [key[x]] == key[..x + 1];
      crc := Push(crc, Table(Index(crc, key[x])));
    }
    assert key[..|key|] == key;
  }

  lemma EmptyRegister()
    ensures CrcSpec([]) == 0 && Pack(0, 0, 0) == 0
  {}

  lemma PackParts(c: bv16, d: bv16, e: bv16)
    ensures (Pack(c, d, e) & 0xffff) as bv16 == c
    ensures ((Pack(c, d, e) >> 16) & 0xff) as bv8 == High(d)
    ensures (Pack(c, d, e) >> 24) as bv8 == High(e)
  {}

  // ---------- Error detection: division is reversible and linear ----------

  lemma XorCancel(x: bv16, y: bv16)
    ensures Xor(Xor(x, y), y) == x
    ensures Xor(x, Xor(x, y)) == y
  {}

  lemma XorIsZeroIff(x: bv16, y: bv16)
    ensures Xor(x, y) == 0 <==> x == y
  {
    hide *;
    XorCancel(x, y);
    XorZero(y);
  }

  lemma BitStepIsZeroIff(x: bv16)
    ensures BitStep(x) == 0 <==> x == 0
  {}

  lemma BitStepInjective(x: bv16, y: bv16)
    requires BitStep(x) == BitStep(y)
    ensures x == y
  {
    hide *;
    BitStepXor(x, y);
    XorZero(BitStep(x));
    BitStepIsZeroIff(Xor(x, y));
    XorIsZeroIff(x, y);
  }

  lemma XorInjective(x: bv16, y: bv16, z: bv16)
    ensures Xor(x, z) == Xor(y, z) <==> x == y
    ensures Xor(z, x) == Xor(z, y) <==> x == y
  {
    hide *;
    XorCancel(x, z); XorCancel(y, z);
    XorCancel(z, x); XorCancel(z, y);
  }

  lemma {:induction false} ShiftInjective(x: bv16, y: bv16, n: nat)
    requires Shift(x, n) == Shift(y, n)
    ensures x == y
    decreases n
  {
    hide BitStep;
    if n > 0 {
      ShiftInjective(BitStep(x), BitStep(y), n - 1);
      BitStepInjective(x, y);
    }
  }

  lemma {:induction false} SerialInjective(r: bv16, s: bv16, bits: seq<bool>)
    requires Serial(r, bits) == Serial(s, bits)
    ensures r == s
    decreases bits
  {
    if bits != [] {
      hide Xor, TopBit, BitStep;
      var t := TopBit(bits[0]);
      SerialInjective(Feed(r, bits[0]), Feed(s, bits[0]), bits[1..]);
      BitStepInjective(Xor(r, t), Xor(s, t));
      XorInjective(r, s, t);
    }
  }

  lemma TopBitXor(a: bool, b: bool)
    ensures TopBit(a != b) == Xor(TopBit(a), TopBit(b))
  {}

  lemma {:induction false} SerialXor(r: bv16, s: bv16, u: seq<bool>, v: seq<bool>)
    requires |u| == |v|
    ensures Serial(Xor(r, s), XorBits(u, v)) == Xor(Serial(r, u), Serial(s, v))
    decreases u
  {
    if u != [] {
      hide Xor, TopBit, BitStep;
      var w := XorBits(u, v);
      assert w[1..] == XorBits(u[1..], v[1..]);
      SerialXor(Feed(r, u[0]), Feed(s, v[0]), u[1..], v[1..]);
      TopBitXor(u[0], v[0]);
      XorSwap(r, s, TopBit(u[0]), TopBit(v[0]));
      BitStepXor(Xor(r, TopBit(u[0])), Xor(s, TopBit(v[0])));
    }
  }

  lemma SameRegisterIff(r: bv16, u: seq<bool>, v: seq<bool>)
    requires |u| == |v|
    ensures Serial(r, u) == Serial(r, v) <==> Serial(0, XorBits(u, v)) == 0
  {
    hide *;
    SerialXor(r, r, u, v);
    XorZero(r);
    XorIsZeroIff(Serial(r, u), Serial(r, v));
  }

  // ---------- A string of at most sixteen bits as a word, its first bit on top ----------

  function Half(x: bv16): bv16 { x >> 1 }

  predicate LowClear(x: bv16) { x & 1 == 0 }

  function Word(bits: seq<bool>): bv16 {
    if bits == [] then 0 else Xor(TopBit(bits[0]), Half(Word(bits[1..])))
  }

  lemma {:induction false} DblNZero(n: nat)
    ensures DblN(0, n) == 0
  {
    if n > 0 { DblNZero(n - 1); }
  }

  lemma {:induction false} DblNSum(x: bv16, m: nat, n: nat)
    ensures DblN(x, m + n) == DblN(DblN(x, m), n)
    decreases m
  {
    hide Dbl;
    if m > 0 { DblNSum(Dbl(x), m - 1, n); }
  }

  function Shl7(x: bv16): bv16 { x << 7 }

  lemma DblN7(x: bv16)
    ensures DblN(x, 7) == Shl7(x)
  {}

  lemma DblN8(x: bv16)
    ensures DblN(x, 8) == Shl8(x)
  {}

  lemma LowBitLast(x: bv16)
    ensures Shl7(Shl8(x)) == 0 ==> LowClear(x)
    ensures Shl8(Shl8(x)) == 0
  {}

  lemma DblN15(x: bv16)
    requires DblN(x, 15) == 0
    ensures LowClear(x)
  {
    hide *;
    DblNSum(x, 8, 7); DblN8(x); DblN7(Shl8(x));
    LowBitLast(x);
  }

  lemma LowClearIfFits(x: bv16, n: nat)
    requires n <= 15 && DblN(x, n) == 0
    ensures LowClear(x)
  {
    hide *;
    DblNSum(x, n, 15 - n);
    DblNZero(15 - n);
    DblN15(x);
  }

  lemma FirstBit(b: bool, w: bv16)
    requires LowClear(w)
    ensures Top(Xor(TopBit(b), Half(w))) == b && Dbl(Xor(TopBit(b), Half(w))) == w
  {}

  lemma {:induction false} WordBits(bits: seq<bool>)
    requires |bits| <= 16
    ensures DblN(Word(bits), |bits|) == 0 && HighBits(Word(bits), |bits|) == bits
  {
    if bits != [] {
      hide Xor, Dbl, TopBit, Half, Top, LowClear;
      WordBits(bits[1..]);
      LowClearIfFits(Word(bits[1..]), |bits| - 1);
      FirstBit(bits[0], Word(bits[1..]));
      assert bits == [bits[0]] + bits[1..];
    }
  }

  /** Feeding at most sixteen bits is feeding their word at once. */
  lemma SerialIsWord(reg: bv16, bits: seq<bool>)
    requires |bits| <= 16
    ensures Serial(reg, bits) == Shift(Xor(reg, Word(bits)), |bits|)
  {
    hide *;
    WordBits(bits);
    SerialIsShift(reg, Word(bits), |bits|);
  }

  lemma WindowInjective(r: bv16, u: seq<bool>, v: seq<bool>)
    requires |u| == |v| <= 16 && Serial(r, u) == Serial(r, v)
    ensures u == v
  {
    hide *;
    SerialIsWord(r, u); SerialIsWord(r, v);
    ShiftInjective(Xor(r, Word(u)), Xor(r, Word(v)), |u|);
    XorInjective(Word(u), Word(v), r);
    WordBits(u); WordBits(v);
  }

  // ---------- Keys ----------

  lemma TopAndDbl(x: bv16, y: bv16)
    requires Top(x) == Top(y) && Dbl(x) == Dbl(y)
    ensures x == y
  {}

  lemma {:induction false} HighBitsInjective(x: bv16, y: bv16, n: nat)
    requires DblN(x, n) == 0 == DblN(y, n) && HighBits(x, n) == HighBits(y, n)
    ensures x == y
    decreases n
  {
    if n > 0 {
      hide Top, Dbl;
      assert HighBits(x, n)[0] == Top(x) && HighBits(y, n)[0] == Top(y);
      assert HighBits(x, n)[1..] == HighBits(Dbl(x), n - 1) && HighBits(y, n)[1..] == HighBits(Dbl(y), n - 1);
      HighBitsInjective(Dbl(x), Dbl(y), n - 1);
      TopAndDbl(x, y);
    }
  }

  lemma HighByteInjective(a: bv8, b: bv8)
    requires HighBits(HighByte(a), 8) == HighBits(HighByte(b), 8)
    ensures a == b
  {
    HighByteFits(a); HighByteFits(b);
    HighBitsInjective(HighByte(a), HighByte(b), 8);
  }

  lemma SameToTheLast(u: seq<bv8>, v: seq<bv8>)
    requires |u| == |v| > 0 && u[..|u| - 1] == v[..|u| - 1] && u[|u| - 1] == v[|u| - 1]
    ensures u == v
  {
    assert u == u[..|u| - 1] + [u[|u| - 1]] && v == v[..|u| - 1] + [v[|u| - 1]];
  }

  lemma BitsAre(key: seq<bv8>)
    requires key != []
    ensures var m := |key| - 1;
      Bits(key)[..8 * m] == Bits(key[..m]) && Bits(key)[8 * m..] == HighBits(HighByte(key[m]), 8)
  {
    hide HighBits, HighByte;
  }

  lemma {:induction false} BitsInjective(u: seq<bv8>, v: seq<bv8>)
    requires Bits(u) == Bits(v)
    ensures u == v
    decreases u
  {
    if u != [] {
      hide *;
      var m := |u| - 1;
      assert |Bits(u)| == 8 * |u| && |Bits(v)| == 8 * |v|;
      BitsAre(u); BitsAre(v);
      BitsInjective(u[..m], v[..m]);
      HighByteInjective(u[m], v[m]);
      SameToTheLast(u, v);
    }
  }

  lemma CrcSpecIs(key: seq<bv8>)
    ensures CrcSpec(key) == Serial(0, Bits(key))
  {
    hide Serial, Bits;
  }

  /** A change inside a window of any length, anywhere, is missed exactly if the divisor divides it. */
  lemma WindowMissedIff(key: seq<bv8>, other: seq<bv8>, p: nat, n: nat)
    requires |key| == |other| && p + n <= 8 * |key|
    requires Bits(key)[..p] == Bits(other)[..p]
    requires Bits(key)[p + n..] == Bits(other)[p + n..]
    ensures CrcSpec(key) == CrcSpec(other) <==>
      Serial(0, XorBits(Bits(key)[p..p + n], Bits(other)[p..p + n])) == 0
    ensures Bits(key)[p..p + n] == Bits(other)[p..p + n] <==> key == other
  {
    hide *;
    var a, b := Bits(key), Bits(other);
    var pre, u, v, post := a[..p], a[p..p + n], b[p..p + n], a[p + n..];
    Cut(a, p, n); Cut(b, p, n);
    CrcSpecIs(key); CrcSpecIs(other);
    BurstInBitsIff(pre, u, v, post);
    if u == v {
      BitsInjective(key, other);
    }
  }

  lemma BurstInBitsIff(pre: seq<bool>, u: seq<bool>, v: seq<bool>, post: seq<bool>)
    requires |u| == |v|
    ensures Serial(0, pre + (u + post)) == Serial(0, pre + (v + post)) <==> Serial(0, XorBits(u, v)) == 0
  {
    hide *;
    var r := Serial(0, pre);
    SerialConcat(0, pre, u + post); SerialConcat(0, pre, v + post);
    SerialConcat(r, u, post); SerialConcat(r, v, post);
    if Serial(Serial(r, u), post) == Serial(Serial(r, v), post) {
      SerialInjective(Serial(r, u), Serial(r, v), post);
    }
    SameRegisterIff(r, u, v);
  }

  /** Two keys of one length whose bits differ only inside a window of at most 16 consecutive bits never share
      the CRC, nor the hash, whose low half it is. */
  lemma BurstDetected(key: seq<bv8>, other: seq<bv8>, p: nat, n: nat)
    requires |key| == |other| && key != other
    requires n <= 16 && p + n <= 8 * |key|
    requires Bits(key)[..p] == Bits(other)[..p]
    requires Bits(key)[p + n..] == Bits(other)[p + n..]
    ensures CrcSpec(key) != CrcSpec(other)
    ensures HashSpec(key) != HashSpec(other)
  {
    hide *;
    if CrcSpec(key) == CrcSpec(other) {
      var u, v := Bits(key)[p..p + n], Bits(other)[p..p + n];
      WindowMissedIff(key, other, p, n);
      SameRegisterIff(0, u, v);
      WindowInjective(0, u, v);
    }
    LowHalf(key); LowHalf(other);
  }

  /** The divisor's 17 coefficients: the leading one and those of the constant. */
  function Divisor(): (bits: seq<bool>)
    ensures |bits| == 17
  {
    [true] + HighBits(POLY, 16)
  }

  lemma {:induction false} WordNoBits(n: nat)
    ensures Word(NoBits(n)) == 0
  {
    if n > 0 {
      hide Xor, Half;
      assert NoBits(n)[1..] == NoBits(n - 1);
      WordNoBits(n - 1);
      HalfZero();
      XorZero(0);
    }
  }

  lemma HalfZero()
    ensures Half(0) == 0
  {}

  lemma FeedZero(b: bool)
    ensures Feed(0, b) == if b then POLY else 0
  {}

  lemma {:induction false} ShiftIsZeroIff(x: bv16, n: nat)
    ensures Shift(x, n) == 0 <==> x == 0
    decreases n
  {
    if n > 0 {
      hide BitStep;
      ShiftIsZeroIff(BitStep(x), n - 1);
      BitStepIsZeroIff(x);
    }
  }

  lemma ShiftedOut(x: bv16)
    ensures DblN(x, 16) == 0
  {
    hide *;
    DblNSum(x, 8, 8); DblN8(x); DblN8(Shl8(x));
    LowBitLast(x);
  }

  /** A word of sixteen bits is the word of its bits. */
  lemma WordHighBits(x: bv16)
    ensures Word(HighBits(x, 16)) == x
  {
    hide *;
    var bits := HighBits(x, 16);
    WordBits(bits);
    ShiftedOut(x);
    HighBitsInjective(Word(bits), x, 16);
  }

  /** Of the nonzero differences of 17 bits the divisor divides only itself. */
  lemma DividedIff(d: seq<bool>)
    requires |d| == 17
    ensures Serial(0, d) == 0 <==> d == NoBits(17) || d == Divisor()
  {
    hide Feed, HighBits, Xor, Word, Shift, DblN;
    var first, rest := Feed(0, d[0]), d[1..];
    assert d == [d[0]] + rest;
    SerialIsWord(first, rest);
    ShiftIsZeroIff(Xor(first, Word(rest)), 16);
    XorIsZeroIff(first, Word(rest));
    FeedZero(d[0]);
    var same := if d[0] then HighBits(POLY, 16) else NoBits(16);
    WordHighBits(POLY); WordNoBits(16);
    WordBits(rest); WordBits(same);
    assert NoBits(17) == [false] + NoBits(16);
  }

  /** The bound of 16 bits is sharp: a change inside 17 bits is missed only when it is the divisor itself. */
  lemma BurstOf17BitsMissedIff(key: seq<bv8>, other: seq<bv8>, p: nat)
    requires |key| == |other| && p + 17 <= 8 * |key|
    requires Bits(key)[..p] == Bits(other)[..p]
    requires Bits(key)[p + 17..] == Bits(other)[p + 17..]
    ensures CrcSpec(key) == CrcSpec(other) <==>
      key == other || XorBits(Bits(key)[p..p + 17], Bits(other)[p..p + 17]) == Divisor()
  {
    hide *;
    var u, v := Bits(key)[p..p + 17], Bits(other)[p..p + 17];
    WindowMissedIff(key, other, p, 17);
    DividedIff(XorBits(u, v));
    NoDifferenceIff(u, v);
  }

  // ---------- A known answer ----------

  lemma HighIs(x: bv16)
    ensures High(x) == (x >> 8) as bv8
  {}

  lemma Xor8Is(a: bv8, b: bv8)
    ensures Xor8(a, b) == a ^ b
  {}

  lemma Shl8Is(x: bv16)
    ensures Shl8(x) == x << 8
  {}

  lemma XorIs(x: bv16, y: bv16)
    ensures Xor(x, y) == x ^ y
  {}

  lemma TableStepValue(c: bv16, b: bv8, hi: bv8, i: bv8, s: bv16, e: bv16, r: bv16)
    requires hi == (c >> 8) as bv8 && i == hi ^ b && s == c << 8 && e == Table(i) && r == s ^ e
    ensures TableStep(c, b) == r
  {
    hide *;
    TableStepIs(c, b);
    HighIs(c); Xor8Is(hi, b); Shl8Is(c); XorIs(s, e);
  }

  /** One more byte of a text, from a known CRC to a known CRC. */
  lemma CrcAt(text: seq<bv8>, p: nat, c: bv16, hi: bv8, i: bv8, s: bv16, e: bv16, r: bv16)
    requires p < |text| && CrcSpec(text[..p]) == c
    requires hi == (c >> 8) as bv8 && i == hi ^ text[p] && s == c << 8 && e == Table(i) && r == s ^ e
    ensures CrcSpec(text[..p + 1]) == r
  {
    hide *;
    TableStepValue(c, text[p], hi, i, s, e, r);
    CrcSpecStep(text[..p], text[p]);
    assert text[..p] + [text[p]] == text[..p + 1];
  }

  lemma PackIs(c: bv16, d: bv16, e: bv16, hd: bv8, he: bv8)
    requires hd == (d >> 8) as bv8 && he == (e >> 8) as bv8
    ensures Pack(c, d, e) == c as bv32 | (hd as bv32 << 16) | (he as bv32 << 24)
  {
    hide High;
    HighIs(d); HighIs(e);
  }

  /** "123456789". */
  const CHECK_TEXT: seq<bv8> := [0x31, 0x32, 0x33, 0x34, 0x35, 0x36, 0x37, 0x38, 0x39]

  lemma CheckFront()
    ensures CrcSpec(CHECK_TEXT[..5]) == 0x546c
  {
    hide CrcSpec, TableStep, Table;
    EmptyRegister();
    assert CHECK_TEXT[..0] == [];
    TableRow(0x31); CrcAt(CHECK_TEXT, 0, 0x0000, 0x00, 0x31, 0x0000, 0x2672, 0x2672);
    TableRow(0x14); CrcAt(CHECK_TEXT, 1, 0x2672, 0x26, 0x14, 0x7200, 0x52b5, 0x20b5);
    TableRow(0x13); CrcAt(CHECK_TEXT, 2, 0x20b5, 0x20, 0x13, 0xb500, 0x2252, 0x9752);
    TableRow(0xa3); CrcAt(CHECK_TEXT, 3, 0x9752, 0x97, 0xa3, 0x5200, 0x8589, 0xd789);
    TableRow(0xe2); CrcAt(CHECK_TEXT, 4, 0xd789, 0xd7, 0xe2, 0x8900, 0xdd6c, 0x546c);
  }

  /** The check value of the CRC in the low half; above it what the unmasked register keeps. */
  lemma CheckValue()
    ensures CrcSpec(CHECK_TEXT) == 0x31c3 && HashSpec(CHECK_TEXT) == 0x8690_31c3
  {
    hide CrcSpec, TableStep, Table, Pack;
    assert CHECK_TEXT[..9] == CHECK_TEXT;
    CheckFront();
    TableRow(0x62); CrcAt(CHECK_TEXT, 5, 0x546c, 0x54, 0x62, 0x6c00, 0x4ce4, 0x20e4);
    TableRow(0x17); CrcAt(CHECK_TEXT, 6, 0x20e4, 0x20, 0x17, 0xe400, 0x62d6, 0x86d6);
    TableRow(0xbe); CrcAt(CHECK_TEXT, 7, 0x86d6, 0x86, 0xbe, 0xd600, 0x4615, 0x9015);
    TableRow(0xa9); CrcAt(CHECK_TEXT, 8, 0x9015, 0x90, 0xa9, 0x1500, 0x24c3, 0x31c3);
    PackIs(0x31c3, 0x9015, 0x86d6, 0x90, 0x86);
  }
}
