/** CRC-32: the two table-driven key hashes and the sequential-buffer checksum, against the
    bit-serial division they are meant to compute, with the error detection that follows. */
module Crc32 {
  import opened BitStrings
  import opened Crc32Table
  import opened Words

  // ---------- Register arithmetic, named so that proofs can treat it as algebra ----------

  function Half(x: bv32): bv32 { x >> 1 }

  function Dbl(x: bv32): bv32 { x << 1 }

  predicate Odd(x: bv32) { x & 1 == 1 }

  function Bit(b: bool): bv32 { if b then 1 else 0 }

  predicate TopClear(x: bv32) { x & 0x8000_0000 == 0 }

  lemma OddXor(x: bv32, y: bv32)
    ensures Odd(Xor(x, y)) <==> Odd(x) != Odd(y)
  {}

  lemma HalfXor(x: bv32, y: bv32)
    ensures Half(Xor(x, y)) == Xor(Half(x), Half(y))
  {}

  lemma HalfDbl(x: bv32)
    ensures !Odd(Dbl(x))
    ensures TopClear(x) ==> Half(Dbl(x)) == x
  {}

  lemma SplitLowBit(x: bv32)
    ensures x == Xor(Bit(Odd(x)), Dbl(Half(x)))
    ensures TopClear(Half(x))
  {}

  lemma BitParts(b: bool)
    ensures Odd(Bit(b)) == b && Half(Bit(b)) == 0
  {}

  // ---------- The division step is linear and reversible ----------

  lemma BitStepIs(x: bv32)
    ensures BitStep(x) == if Odd(x) then Xor(Half(x), POLY) else Half(x)
  {}

  lemma BitStepXor(x: bv32, y: bv32)
    ensures BitStep(Xor(x, y)) == Xor(BitStep(x), BitStep(y))
  {
    hide *;
    var u, v := Half(x), Half(y);
    BitStepIs(x); BitStepIs(y); BitStepIs(Xor(x, y));
    OddXor(x, y); HalfXor(x, y);
    XorSwap(u, POLY, v, POLY); XorZero(POLY); XorZero(Xor(u, v));
    XorAssoc(u, v, POLY); XorAssoc(u, POLY, v); XorComm(v, POLY);
  }

  lemma BitStepInjective(x: bv32, y: bv32)
    requires BitStep(x) == BitStep(y)
    ensures x == y
  {}

  /** n division steps in a row. */
  function Shift(x: bv32, n: nat): bv32
    decreases n
  {
    if n == 0 then x else Shift(BitStep(x), n - 1)
  }

  lemma {:induction false} ShiftXor(x: bv32, y: bv32, n: nat)
    ensures Shift(Xor(x, y), n) == Xor(Shift(x, n), Shift(y, n))
    decreases n
  {
    hide BitStep, Xor;
    if n > 0 {
      BitStepXor(x, y);
      ShiftXor(BitStep(x), BitStep(y), n - 1);
    }
  }

  lemma {:induction false} ShiftInjective(x: bv32, y: bv32, n: nat)
    requires Shift(x, n) == Shift(y, n)
    ensures x == y
    decreases n
  {
    hide BitStep;
    if n > 0 {
      ShiftInjective(BitStep(x), BitStep(y), n - 1);
      BitStepInjective(x, y);
    }
  }

  lemma ByteStepIsShift(x: bv32)
    ensures ByteStep(x) == Shift(x, 8)
  {
    hide BitStep;
  }

  // ---------- Reference: the register fed one message bit at a time ----------

  function Feed(reg: bv32, bit: bool): bv32 {
    BitStep(Xor(reg, Bit(bit)))
  }

  function Serial(reg: bv32, bits: seq<bool>): bv32
    decreases bits
  {
    if bits == [] then reg else Serial(Feed(reg, bits[0]), bits[1..])
  }

  lemma {:induction false} SerialConcat(reg: bv32, u: seq<bool>, v: seq<bool>)
    ensures Serial(reg, u + v) == Serial(Serial(reg, u), v)
    decreases u
  {
    hide Feed;
    if u == [] {
      assert u + v == v;
    } else {
      assert (u + v)[1..] == u[1..] + v;
      SerialConcat(Feed(reg, u[0]), u[1..], v);
    }
  }

  /** The n low-order bits of a word, lowest first. */
  function LowBits(x: bv32, n: nat): (bits: seq<bool>)
    ensures |bits| == n
  {
    if n == 0 then [] else [Odd(x)] + LowBits(Half(x), n - 1)
  }

  /** The bits of a key in transmission order: bytes in order, each low-order bit first. */
  function Bits(key: seq<bv8>): (bits: seq<bool>)
    ensures |bits| == 8 * |key|
  {
    if key == [] then [] else LowBits(key[0] as bv32, 8) + Bits(key[1..])
  }

  /** CRC-32 of section 8 of RFC 1952: all-ones preset, bit-serial division, final complement. */
  function CrcSpec(key: seq<bv8>): bv32 {
    Not(Serial(0xffff_ffff, Bits(key)))
  }

  // ---------- Feeding bits one by one is feeding a word at once ----------

  function Word(bits: seq<bool>): bv32 {
    if bits == [] then 0 else Xor(Bit(bits[0]), Dbl(Word(bits[1..])))
  }

  function HalfN(x: bv32, n: nat): bv32
    decreases n
  {
    if n == 0 then x else HalfN(Half(x), n - 1)
  }

  lemma {:induction false} HalfNZero(n: nat)
    ensures HalfN(0, n) == 0
  {
    if n > 0 { HalfNZero(n - 1); }
  }

  lemma {:induction false} HalfNSum(x: bv32, m: nat, n: nat)
    ensures HalfN(x, m + n) == HalfN(HalfN(x, m), n)
    decreases m
  {
    hide Half;
    if m > 0 { HalfNSum(Half(x), m - 1, n); }
  }

  function Shr7(x: bv32): bv32 { x >> 7 }

  function Shr8(x: bv32): bv32 { x >> 8 }

  lemma HalfN7(x: bv32)
    ensures HalfN(x, 7) == Shr7(x)
  {}

  lemma HalfN8(x: bv32)
    ensures HalfN(x, 8) == Shr8(x)
  {}

  lemma HalfN31(x: bv32)
    ensures HalfN(x, 31) == Shr7(Shr8(Shr8(Shr8(x))))
  {
    hide *;
    var y, z := Shr8(x), Shr8(Shr8(x));
    HalfNSum(x, 8, 23); HalfN8(x);
    HalfNSum(y, 8, 15); HalfN8(y);
    HalfNSum(z, 8, 7); HalfN8(z);
    HalfN7(Shr8(z));
  }

  lemma TopBitLast(x: bv32)
    ensures Shr7(Shr8(Shr8(Shr8(x)))) == 0 ==> TopClear(x)
  {}

  lemma TopClearIfFits(x: bv32, n: nat)
    requires n <= 31 && HalfN(x, n) == 0
    ensures TopClear(x)
  {
    hide *;
    HalfNSum(x, n, 31 - n);
    HalfNZero(31 - n);
    HalfN31(x);
    TopBitLast(x);
  }

  /** A word built from n <= 32 bits has only n significant bits, and its bits are those it was built from. */
  lemma {:induction false} WordFits(bits: seq<bool>)
    requires |bits| <= 32
    ensures HalfN(Word(bits), |bits|) == 0
    ensures bits != [] ==> Odd(Word(bits)) == bits[0] && Half(Word(bits)) == Word(bits[1..])
  {
    if bits != [] {
      hide Xor, Dbl, Bit, Half, Odd, TopClear;
      var b, w := Bit(bits[0]), Word(bits[1..]);
      WordFits(bits[1..]);
      TopClearIfFits(w, |bits| - 1);
      BitParts(bits[0]); HalfDbl(w);
      OddXor(b, Dbl(w)); HalfXor(b, Dbl(w)); XorZero(w);
    }
  }

  lemma {:induction false} WordInjective(u: seq<bool>, v: seq<bool>)
    requires |u| == |v| <= 32 && Word(u) == Word(v)
    ensures u == v
  {
    if u != [] {
      hide Word;
      WordFits(u); WordFits(v);
      WordInjective(u[1..], v[1..]);
      assert u == [u[0]] + u[1..] && v == [v[0]] + v[1..];
    }
  }

  lemma {:induction false} WordLowBits(x: bv32, n: nat)
    requires HalfN(x, n) == 0
    ensures Word(LowBits(x, n)) == x
  {
    if n > 0 {
      hide Xor, Dbl, Bit, Half, Odd, TopClear;
      assert LowBits(x, n)[1..] == LowBits(Half(x), n - 1);
      WordLowBits(Half(x), n - 1);
      SplitLowBit(x);
    }
  }

  lemma BitStepSkips(x: bv32, w: bv32)
    requires TopClear(w)
    ensures BitStep(Xor(x, Dbl(w))) == Xor(BitStep(x), w)
  {
    hide *;
    BitStepXor(x, Dbl(w));
    HalfDbl(w);
    BitStepIs(Dbl(w));
  }

  lemma {:induction false} SerialIsShift(reg: bv32, bits: seq<bool>)
    requires |bits| <= 32
    ensures Serial(reg, bits) == Shift(Xor(reg, Word(bits)), |bits|)
    decreases bits
  {
    if bits == [] {
      XorZero(reg);
    } else {
      hide Xor, Dbl, Bit, BitStep, TopClear, Half, Odd;
      var b, w := Bit(bits[0]), Word(bits[1..]);
      SerialIsShift(Feed(reg, bits[0]), bits[1..]);
      WordFits(bits[1..]);
      TopClearIfFits(w, |bits| - 1);
      XorAssoc(reg, b, Dbl(w));
      BitStepSkips(Xor(reg, b), w);
    }
  }

  // ---------- The table-driven loop is the bit-serial reference ----------

  /** One iteration of the loop shared by the hashes. */
  function TableStep(crc: bv32, b: bv8): bv32 {
    Xor(Table(Byte0(Xor(crc, Wide(b)))), Shr8(crc))
  }

  function Register(crc: bv32, key: seq<bv8>): bv32
    decreases key
  {
    if key == [] then crc else Register(TableStep(crc, key[0]), key[1..])
  }

  function HighPart(x: bv32): bv32 { x & 0xffff_ff00 }

  lemma SplitByte0(x: bv32)
    ensures x == Xor(Wide(Byte0(x)), HighPart(x))
  {}

  lemma ByteStepHighPart(x: bv32)
    ensures ByteStep(HighPart(x)) == Shr8(x)
  {}

  lemma Shr8IgnoresByte(crc: bv32, b: bv8)
    ensures Shr8(Xor(crc, Wide(b))) == Shr8(crc)
  {}

  lemma TableStepIs(crc: bv32, b: bv8)
    ensures TableStep(crc, b) == Xor(Table(Byte0(Xor(crc, Wide(b)))), Shr8(crc))
  {
    hide Table, Xor, Shr8, Byte0, Wide;
  }

  lemma TableStepIsByteStep(crc: bv32, b: bv8)
    ensures TableStep(crc, b) == Shift(Xor(crc, Wide(b)), 8)
  {
    var x := Xor(crc, Wide(b));
    hide *;
    TableStepIs(crc, b);
    Shr8IgnoresByte(crc, b);
    TableCorrectWide(Byte0(x));
    SplitByte0(x);
    ByteStepIsShift(x); ByteStepIsShift(Wide(Byte0(x))); ByteStepIsShift(HighPart(x));
    ShiftXor(Wide(Byte0(x)), HighPart(x), 8);
    ByteStepHighPart(x);
  }

  lemma TableCorrectWide(i: bv8)
    ensures Table(i) == ByteStep(Wide(i))
  {
    hide Table, ByteStep;
    TableCorrect(i);
  }

  lemma WideFits(b: bv8)
    ensures HalfN(Wide(b), 8) == 0
  {
    HalfN8(Wide(b));
  }

  /** A table step is eight bit-serial steps. */
  lemma TableStepIsSerial(crc: bv32, b: bv8)
    ensures TableStep(crc, b) == Serial(crc, LowBits(Wide(b), 8))
  {
    hide *;
    TableStepIsByteStep(crc, b);
    WideFits(b);
    WordLowBits(Wide(b), 8);
    SerialIsShift(crc, LowBits(Wide(b), 8));
  }

  lemma {:induction false} RegisterIsSerial(crc: bv32, key: seq<bv8>)
    ensures Register(crc, key) == Serial(crc, Bits(key))
    decreases key
  {
    if key != [] {
      hide TableStep, Serial, LowBits;
      var b := LowBits(Wide(key[0]), 8);
      RegisterIsSerial(TableStep(crc, key[0]), key[1..]);
      TableStepIsSerial(crc, key[0]);
      SerialConcat(crc, b, Bits(key[1..]));
    }
  }

  lemma {:induction false} RegisterConcat(crc: bv32, u: seq<bv8>, v: seq<bv8>)
    ensures Register(crc, u + v) == Register(Register(crc, u), v)
    decreases u
  {
    hide TableStep;
    if u == [] {
      assert u + v == v;
    } else {
      assert (u + v)[1..] == u[1..] + v;
      RegisterConcat(TableStep(crc, u[0]), u[1..], v);
    }
  }

  method HashCrc32a(key: seq<bv8>) returns (val: bv32)
    ensures val == CrcSpec(key)
  {
    hide TableStep;
    var crc: bv32 := 0xffff_ffff;
    var p, keyLength := 0, |key|;
    while keyLength > 0
      invariant 0 <= p <= |key| && p + keyLength == |key|
      invariant Register(crc, key[p..]) == Register(0xffff_ffff, key)
    {
      crc := TableStep(crc, key[p]);
      p, keyLength := p + 1, keyLength - 1;
    }
    assert key[p..] == [];
    RegisterIsSerial(0xffff_ffff, key);
    val := crc ^ 0xffff_ffff;
  }

  // ---------- Error detection ----------

  lemma {:induction false} SerialInjective(r: bv32, s: bv32, bits: seq<bool>)
    requires Serial(r, bits) == Serial(s, bits)
    ensures r == s
    decreases bits
  {
    if bits != [] {
      hide Xor, Bit, BitStep;
      var b := Bit(bits[0]);
      SerialInjective(Feed(r, bits[0]), Feed(s, bits[0]), bits[1..]);
      BitStepInjective(Xor(r, b), Xor(s, b));
      XorCancel(r, b); XorCancel(s, b);
    }
  }

  lemma WindowInjective(r: bv32, u: seq<bool>, v: seq<bool>)
    requires |u| == |v| <= 32 && Serial(r, u) == Serial(r, v)
    ensures u == v
  {
    hide *;
    SerialIsShift(r, u); SerialIsShift(r, v);
    ShiftInjective(Xor(r, Word(u)), Xor(r, Word(v)), |u|);
    XorCancel(r, Word(u)); XorCancel(r, Word(v));
    WordInjective(u, v);
  }

  lemma WideInjective(a: bv8, b: bv8)
    requires Wide(a) == Wide(b)
    ensures a == b
  {}

  lemma {:induction false} BitsInjective(u: seq<bv8>, v: seq<bv8>)
    requires Bits(u) == Bits(v)
    ensures u == v
    decreases u
  {
    if u != [] {
      hide LowBits, Wide;
      var x, y := LowBits(Wide(u[0]), 8), LowBits(Wide(v[0]), 8);
      assert x == Bits(u)[..8] && y == Bits(v)[..8];
      assert Bits(u[1..]) == Bits(u)[8..] && Bits(v[1..]) == Bits(v)[8..];
      BitsInjective(u[1..], v[1..]);
      WideFits(u[0]); WordLowBits(Wide(u[0]), 8);
      WideFits(v[0]); WordLowBits(Wide(v[0]), 8);
      WideInjective(u[0], v[0]);
      assert u == [u[0]] + u[1..] && v == [v[0]] + v[1..];
    }
  }

  lemma {:induction false} BitsConcat(u: seq<bv8>, v: seq<bv8>)
    ensures Bits(u + v) == Bits(u) + Bits(v)
    decreases u
  {
    hide LowBits;
    if u == [] {
      assert u + v == v;
    } else {
      assert (u + v)[1..] == u[1..] + v;
      BitsConcat(u[1..], v);
    }
  }

  lemma CrcSpecIs(key: seq<bv8>)
    ensures CrcSpec(key) == Xor(Serial(0xffff_ffff, Bits(key)), 0xffff_ffff)
  {
    hide *;
    CrcSpecNot(key);
    NotIsXor(Serial(0xffff_ffff, Bits(key)));
  }

  lemma CrcSpecNot(key: seq<bv8>)
    ensures CrcSpec(key) == Not(Serial(0xffff_ffff, Bits(key)))
  {
    hide Serial, Bits, Not;
  }

  lemma NotIsXor(x: bv32)
    ensures Not(x) == Xor(x, 0xffff_ffff)
  {}

  lemma NotInjective(x: bv32, y: bv32)
    requires Not(x) == Not(y)
    ensures x == y
  {}

  // ---------- The checksum is affine over exclusive or ----------

  function XorKeys(u: seq<bv8>, v: seq<bv8>): (w: seq<bv8>)
    requires |u| == |v|
    ensures |w| == |u|
  {
    seq(|u|, i requires 0 <= i < |u| => u[i] ^ v[i])
  }

  lemma WideXor(a: bv8, b: bv8)
    ensures Wide(a ^ b) == Xor(Wide(a), Wide(b))
  {}

  lemma {:induction false} RegisterXor(r: bv32, s: bv32, u: seq<bv8>, v: seq<bv8>)
    requires |u| == |v|
    ensures Register(Xor(r, s), XorKeys(u, v)) == Xor(Register(r, u), Register(s, v))
    decreases u
  {
    if u != [] {
      hide TableStep, Xor, Wide;
      var w := XorKeys(u, v);
      assert w[1..] == XorKeys(u[1..], v[1..]);
      RegisterXor(TableStep(r, u[0]), TableStep(s, v[0]), u[1..], v[1..]);
      TableStepIsByteStep(r, u[0]); TableStepIsByteStep(s, v[0]);
      TableStepIsByteStep(Xor(r, s), w[0]);
      WideXor(u[0], v[0]);
      XorSwap(r, s, Wide(u[0]), Wide(v[0]));
      ShiftXor(Xor(r, Wide(u[0])), Xor(s, Wide(v[0])), 8);
    }
  }

  /** CRCs of equal-length keys are affine: the CRC of a three-way exclusive or is that of the CRCs. */
  lemma CrcAffine(a: seq<bv8>, b: seq<bv8>, c: seq<bv8>)
    requires |a| == |b| == |c|
    ensures CrcSpec(XorKeys(XorKeys(a, b), c)) == Xor(Xor(CrcSpec(a), CrcSpec(b)), CrcSpec(c))
  {
    hide *;
    var f: bv32, ab := 0xffff_ffff, XorKeys(a, b);
    var x, y, z := Register(f, a), Register(f, b), Register(f, c);
    RegisterXor(f, f, a, b); RegisterXor(Xor(f, f), f, ab, c);
    XorZero(f);
    RegisterIsSerial(f, a); RegisterIsSerial(f, b); RegisterIsSerial(f, c); RegisterIsSerial(f, XorKeys(ab, c));
    CrcSpecIs(a); CrcSpecIs(b); CrcSpecIs(c); CrcSpecIs(XorKeys(ab, c));
    XorSwap(x, f, y, f); XorZero(Xor(x, y));
    XorAssoc(Xor(x, y), z, f);
  }

  // ---------- Which changes are missed ----------

  lemma BitXor(a: bool, b: bool)
    ensures Bit(a != b) == Xor(Bit(a), Bit(b))
  {}

  lemma XorIsZeroIff(x: bv32, y: bv32)
    ensures Xor(x, y) == 0 <==> x == y
  {
    hide *;
    XorCancel(x, y);
    XorZero(y);
  }

  lemma {:induction false} SerialXor(r: bv32, s: bv32, u: seq<bool>, v: seq<bool>)
    requires |u| == |v|
    ensures Serial(Xor(r, s), XorBits(u, v)) == Xor(Serial(r, u), Serial(s, v))
    decreases u
  {
    if u != [] {
      hide Xor, Bit, BitStep;
      var w := XorBits(u, v);
      assert w[1..] == XorBits(u[1..], v[1..]);
      SerialXor(Feed(r, u[0]), Feed(s, v[0]), u[1..], v[1..]);
      BitXor(u[0], v[0]);
      XorSwap(r, s, Bit(u[0]), Bit(v[0]));
      BitStepXor(Xor(r, Bit(u[0])), Xor(s, Bit(v[0])));
    }
  }

  /** From one register, two strings of bits of one length leave the same register exactly if their difference
      leaves the remainder zero. */
  lemma SameRegisterIff(r: bv32, u: seq<bool>, v: seq<bool>)
    requires |u| == |v|
    ensures Serial(r, u) == Serial(r, v) <==> Serial(0, XorBits(u, v)) == 0
  {
    hide *;
    SerialXor(r, r, u, v);
    XorZero(r);
    XorIsZeroIff(Serial(r, u), Serial(r, v));
  }

  /** Two keys of one length share a CRC-32 exactly if the divisor divides their difference. */
  lemma SameCrcIff(key: seq<bv8>, other: seq<bv8>)
    requires |key| == |other|
    ensures CrcSpec(key) == CrcSpec(other) <==> Serial(0, XorBits(Bits(key), Bits(other))) == 0
  {
    hide *;
    var a, b := Bits(key), Bits(other);
    CrcSpecNot(key); CrcSpecNot(other);
    if CrcSpec(key) == CrcSpec(other) {
      NotInjective(Serial(0xffff_ffff, a), Serial(0xffff_ffff, b));
    }
    SameRegisterIff(0xffff_ffff, a, b);
  }

  /** The 33 coefficients of the divisor in transmission order: the one the table's constant leaves out first. */
  function Divisor(): (bits: seq<bool>)
    ensures |bits| == 33
  {
    [true] + LowBits(POLY, 32)
  }

  lemma {:induction false} WordNoBits(n: nat)
    ensures Word(NoBits(n)) == 0
  {
    if n > 0 {
      hide Xor, Dbl;
      assert NoBits(n)[1..] == NoBits(n - 1);
      WordNoBits(n - 1);
      XorZero(0);
      DblZero();
    }
  }

  lemma DblZero()
    ensures Dbl(0) == 0
  {}

  lemma FeedZero(b: bool)
    ensures Feed(0, b) == if b then POLY else 0
  {}

  lemma {:induction false} ShiftIsZeroIff(x: bv32, n: nat)
    ensures Shift(x, n) == 0 <==> x == 0
    decreases n
  {
    if n > 0 {
      hide BitStep;
      ShiftIsZeroIff(BitStep(x), n - 1);
      BitStepIsZeroIff(x);
    }
  }

  lemma BitStepIsZeroIff(x: bv32)
    ensures BitStep(x) == 0 <==> x == 0
  {}

  lemma PolyFits()
    ensures HalfN(POLY, 32) == 0
  {
    hide HalfN, Shr8;
    HalfNSum(POLY, 8, 24); HalfN8(POLY);
    HalfNSum(Shr8(POLY), 8, 16); HalfN8(Shr8(POLY));
    HalfNSum(Shr8(Shr8(POLY)), 8, 8); HalfN8(Shr8(Shr8(POLY)));
    HalfN8(Shr8(Shr8(Shr8(POLY))));
    ShiftedOut(POLY);
  }

  lemma ShiftedOut(x: bv32)
    ensures Shr8(Shr8(Shr8(Shr8(x)))) == 0
  {}

  /** Of the nonzero differences of 33 bits the divisor divides only itself. */
  lemma DividedIff(d: seq<bool>)
    requires |d| == 33
    ensures Serial(0, d) == 0 <==> d == NoBits(33) || d == Divisor()
  {
    hide Feed, LowBits, Xor, Word, Shift, HalfN;
    var first, rest := Feed(0, d[0]), d[1..];
    assert d == [d[0]] + rest;
    SerialIsShift(first, rest);
    ShiftIsZeroIff(Xor(first, Word(rest)), 32);
    XorIsZeroIff(first, Word(rest));
    FeedZero(d[0]);
    var same := if d[0] then LowBits(POLY, 32) else NoBits(32);
    PolyFits(); WordLowBits(POLY, 32); WordNoBits(32);
    if Word(rest) == Word(same) { WordInjective(rest, same); }
    assert NoBits(33) == [false] + NoBits(32);
  }

  lemma BurstInBitsIff(init: bv32, pre: seq<bool>, u: seq<bool>, v: seq<bool>, post: seq<bool>)
    requires |u| == |v|
    ensures Serial(init, pre + (u + post)) == Serial(init, pre + (v + post)) <==> Serial(0, XorBits(u, v)) == 0
  {
    hide *;
    var r := Serial(init, pre);
    SerialConcat(init, pre, u + post); SerialConcat(init, pre, v + post);
    SerialConcat(r, u, post); SerialConcat(r, v, post);
    if Serial(Serial(r, u), post) == Serial(Serial(r, v), post) {
      SerialInjective(Serial(r, u), Serial(r, v), post);
    }
    SameRegisterIff(r, u, v);
  }

  /** A change inside a window of any length, anywhere, is missed exactly if the divisor divides it. */
  lemma WindowMissedIff(key: seq<bv8>, other: seq<bv8>, p: nat, n: nat)
    requires |key| == |other| && p + n <= 8 * |key|
    requires Bits(key)[..p] == Bits(other)[..p]
    requires Bits(key)[p + n..] == Bits(other)[p + n..]
    ensures CrcSpec(key) == CrcSpec(other) <==>
      Serial(0, XorBits(Bits(key)[p..p + n], Bits(other)[p..p + n])) == 0
    ensures Bits(key)[p..p + n] == Bits(other)[p..p + n] <==> key == other
  {
    hide *;
    var a, b := Bits(key), Bits(other);
    var pre, u, v, post := a[..p], a[p..p + n], b[p..p + n], a[p + n..];
    Cut(a, p, n); Cut(b, p, n);
    SameCrcIff(key, other);
    SameRegisterIff(0xffff_ffff, a, b);
    BurstInBitsIff(0xffff_ffff, pre, u, v, post);
    if u == v {
      BitsInjective(key, other);
    }
  }

  /** Two keys of one length whose bits differ only inside a window of at most 32 consecutive bits
      (anywhere, byte-aligned or not) never share a CRC-32. */
  lemma BurstDetected(key: seq<bv8>, other: seq<bv8>, p: nat, n: nat)
    requires |key| == |other| && key != other
    requires n <= 32 && p + n <= 8 * |key|
    requires Bits(key)[..p] == Bits(other)[..p]
    requires Bits(key)[p + n..] == Bits(other)[p + n..]
    ensures CrcSpec(key) != CrcSpec(other)
  {
    hide *;
    if CrcSpec(key) == CrcSpec(other) {
      var u, v := Bits(key)[p..p + n], Bits(other)[p..p + n];
      WindowMissedIff(key, other, p, n);
      SameRegisterIff(0, u, v);
      WindowInjective(0, u, v);
    }
  }

  /** In particular every change confined to four consecutive bytes is detected. */
  lemma FourByteChangeDetected(pre: seq<bv8>, u: seq<bv8>, v: seq<bv8>, post: seq<bv8>)
    requires |u| == |v| <= 4 && u != v
    ensures CrcSpec(pre + u + post) != CrcSpec(pre + v + post)
  {
    hide *;
    var x, y := pre + u + post, pre + v + post;
    BitsConcat(pre + u, post); BitsConcat(pre, u);
    BitsConcat(pre + v, post); BitsConcat(pre, v);
    var p, n := 8 * |pre|, 8 * |u|;
    assert Bits(x)[..p] == Bits(pre) == Bits(y)[..p];
    assert Bits(x)[p + n..] == Bits(post) == Bits(y)[p + n..];
    assert x[|pre|..|pre| + |u|] == u && y[|pre|..|pre| + |u|] == v;
    BurstDetected(x, y, p, n);
  }

  /** The bound of 32 bits is sharp. A change inside 33 consecutive bits, anywhere, is missed in one case
      only: when the difference is the divisor itself. */
  lemma BurstOf33BitsMissedIff(key: seq<bv8>, other: seq<bv8>, p: nat)
    requires |key| == |other| && p + 33 <= 8 * |key|
    requires Bits(key)[..p] == Bits(other)[..p]
    requires Bits(key)[p + 33..] == Bits(other)[p + 33..]
    ensures CrcSpec(key) == CrcSpec(other) <==>
      key == other || XorBits(Bits(key)[p..p + 33], Bits(other)[p..p + 33]) == Divisor()
  {
    hide *;
    var u, v := Bits(key)[p..p + 33], Bits(other)[p..p + 33];
    WindowMissedIff(key, other, p, 33);
    DividedIff(XorBits(u, v));
    NoDifferenceIff(u, v);
  }

  /** The divisor as five bytes, with nothing around it. */
  const DIVISOR_BYTES: seq<bv8> := [0x41, 0x06, 0x71, 0xdb, 0x01]

  function NoBytes(n: nat): (s: seq<bv8>)
    ensures |s| == n
  {
    seq(n, _ => 0)
  }

  lemma DivisorDividesItself()
    ensures Register(0, DIVISOR_BYTES) == 0
  {
    assert TableStep(0, 0x41) == 0x01db7106;
    assert TableStep(0x01db7106, 0x06) == 0x0001db71;
    assert TableStep(0x0001db71, 0x71) == 0x000001db;
    assert TableStep(0x000001db, 0xdb) == 0x00000001;
    assert TableStep(0x00000001, 0x01) == 0;
  }

  lemma {:induction false} LowBitsZero(n: nat)
    ensures LowBits(0, n) == NoBits(n)
  {
    if n > 0 { LowBitsZero(n - 1); }
  }

  lemma {:induction false} SerialNoBits(n: nat)
    ensures Serial(0, NoBits(n)) == 0
  {
    if n > 0 {
      hide Feed;
      assert NoBits(n)[1..] == NoBits(n - 1);
      FeedZero(false);
      SerialNoBits(n - 1);
    }
  }

  lemma LastByte()
    ensures Bits([0x01]) == [true] + NoBits(7)
  {
    LowBitsZero(7);
    assert Half(1) == 0;
  }

  /** They are its 33 bits and seven more to fill the last byte. */
  lemma DivisorBytesAre()
    ensures Bits(DIVISOR_BYTES) == Divisor() + NoBits(7)
  {
    var front: seq<bv8> := [0x41, 0x06, 0x71, 0xdb];
    var d := Bits(front) + [true];
    assert Odd(Wide(0x41));
    assert d[0];
    hide Bits, Serial, Register, LowBits;
    assert DIVISOR_BYTES == front + [0x01];
    BitsConcat(front, [0x01]);
    LastByte();
    assert Bits(DIVISOR_BYTES) == d + NoBits(7);
    DivisorDividesItself();
    RegisterIsSerial(0, DIVISOR_BYTES);
    SerialConcat(0, d, NoBits(7));
    SerialNoBits(7);
    SerialInjective(Serial(0, d), 0, NoBits(7));
    DividedIff(d);
  }

  lemma NoLowBits(x: bv32)
    ensures LowBits(x, 0) == [] == XorBits([], [])
  {}

  lemma LowBitsStep(x: bv32, n: nat)
    requires n > 0
    ensures LowBits(x, n) == [Odd(x)] + LowBits(Half(x), n - 1)
  {
    hide Odd, Half;
  }

  lemma {:induction false} LowBitsXor(x: bv32, y: bv32, n: nat)
    ensures LowBits(Xor(x, y), n) == XorBits(LowBits(x, n), LowBits(y, n))
    decreases n
  {
    hide *;
    if n == 0 {
      NoLowBits(x); NoLowBits(y); NoLowBits(Xor(x, y));
    } else {
      OddXor(x, y); HalfXor(x, y);
      LowBitsXor(Half(x), Half(y), n - 1);
      LowBitsStep(x, n); LowBitsStep(y, n); LowBitsStep(Xor(x, y), n);
      XorBitsConcat([Odd(x)], [Odd(y)], LowBits(Half(x), n - 1), LowBits(Half(y), n - 1));
      XorBit(Odd(x), Odd(y));
    }
  }

  lemma BitsStep(key: seq<bv8>)
    requires key != []
    ensures Bits(key) == LowBits(Wide(key[0]), 8) + Bits(key[1..])
  {
    hide LowBits;
  }

  lemma XorKeysStep(u: seq<bv8>, v: seq<bv8>)
    requires |u| == |v| > 0
    ensures Wide(XorKeys(u, v)[0]) == Xor(Wide(u[0]), Wide(v[0]))
    ensures XorKeys(u, v)[1..] == XorKeys(u[1..], v[1..])
  {
    hide Wide, Xor;
    WideXor(u[0], v[0]);
  }

  /** The bits of an exclusive or of keys are where the keys' bits differ. */
  lemma {:induction false} BitsXor(u: seq<bv8>, v: seq<bv8>)
    requires |u| == |v|
    ensures Bits(XorKeys(u, v)) == XorBits(Bits(u), Bits(v))
    decreases u
  {
    if u != [] {
      hide *;
      var x, y := Wide(u[0]), Wide(v[0]);
      XorKeysStep(u, v);
      BitsXor(u[1..], v[1..]);
      BitsStep(u); BitsStep(v); BitsStep(XorKeys(u, v));
      LowBitsXor(x, y, 8);
      XorBitsConcat(LowBits(x, 8), LowBits(y, 8), Bits(u[1..]), Bits(v[1..]));
    }
  }

  lemma {:induction false} BitsNoBytes(n: nat)
    ensures Bits(NoBytes(n)) == NoBits(8 * n)
  {
    if n > 0 {
      hide LowBits;
      assert NoBytes(n)[1..] == NoBytes(n - 1);
      BitsNoBytes(n - 1);
      LowBitsZero(8);
      assert NoBits(8 * n) == NoBits(8) + NoBits(8 * (n - 1));
    }
  }

  function DivisorAt(i: nat, length: nat): (d: seq<bv8>)
    requires i + 5 <= length
    ensures |d| == length
  {
    NoBytes(i) + DIVISOR_BYTES + NoBytes(length - i - 5)
  }

  lemma BitsOfDivisorAt(i: nat, length: nat)
    requires i + 5 <= length
    ensures Bits(DivisorAt(i, length)) == NoBits(8 * i) + Divisor() + NoBits(8 * (length - i) - 33)
  {
    hide Bits, Divisor;
    var n := length - i - 5;
    BitsConcat(NoBytes(i) + DIVISOR_BYTES, NoBytes(n));
    BitsConcat(NoBytes(i), DIVISOR_BYTES);
    BitsNoBytes(i); BitsNoBytes(n); DivisorBytesAre();
    assert NoBits(8 * (length - i) - 33) == NoBits(7) + NoBits(8 * n);
  }

  lemma DivisorBurst(key: seq<bv8>, i: nat)
    requires i + 5 <= |key|
    ensures ChangedBy(Bits(key), Bits(XorKeys(key, DivisorAt(i, |key|))), 8 * i, 33, Divisor())
  {
    hide *;
    var d := DivisorAt(i, |key|);
    BitsXor(key, d);
    XorBitsTwice(Bits(key), Bits(d));
    BitsOfDivisorAt(i, |key|);
    DifferenceIn(Bits(key), Bits(XorKeys(key, d)), Bits(d), 8 * i, Divisor(), 8 * (|key| - i) - 33);
  }

  lemma DivisorIsSome(u: seq<bool>)
    requires |u| == 33
    ensures XorBits(u, u) != Divisor()
  {
    assert XorBits(u, u)[0] != Divisor()[0];
  }

  lemma ChangedByDivisor(key: seq<bv8>, other: seq<bv8>, p: nat)
    requires |key| == |other| && ChangedBy(Bits(key), Bits(other), p, 33, Divisor())
    ensures other != key && CrcSpec(other) == CrcSpec(key)
  {
    hide Bits, Divisor, XorBits, CrcSpec;
    BurstOf33BitsMissedIff(key, other, p);
    DivisorIsSome(Bits(key)[p..p + 33]);
  }

  /** The case does occur: in any key with five more bytes at position i, changing 33 bits by the divisor. */
  lemma DivisorBurstMissed(key: seq<bv8>, i: nat)
    requires i + 5 <= |key|
    ensures var other := XorKeys(key, DivisorAt(i, |key|));
      && other != key && CrcSpec(other) == CrcSpec(key)
      && ChangedBy(Bits(key), Bits(other), 8 * i, 33, Divisor())
  {
    hide *;
    DivisorBurst(key, i);
    ChangedByDivisor(key, XorKeys(key, DivisorAt(i, |key|)), 8 * i);
  }

  // ---------- Known answers ----------

  lemma TableStepValue(crc: bv32, b: bv8, w: bv32, i: bv8, q: bv32, e: bv32, r: bv32)
    requires w == crc ^ (b as bv32) && i == (w & 0xff) as bv8 && q == crc >> 8 && e == Table(i) && r == e ^ q
    ensures TableStep(crc, b) == r
  {
    hide *;
    TableStepIs(crc, b);
    PiecesAre(b); XorIs(crc, b as bv32); Byte0Is(w); Shr8Is(crc); XorIs(e, q);
  }

  lemma Byte0Is(x: bv32)
    ensures Byte0(x) == (x & 0xff) as bv8
  {}

  lemma Shr8Is(x: bv32)
    ensures Shr8(x) == x >> 8
  {}

  /** One byte of a text, from a known register to a known register. */
  lemma RegisterAt(text: seq<bv8>, crc: bv32, p: nat, w: bv32, i: bv8, q: bv32, e: bv32, r: bv32)
    requires p < |text| && w == crc ^ (text[p] as bv32) && i == (w & 0xff) as bv8 && q == crc >> 8
    requires e == Table(i) && r == e ^ q
    ensures Register(crc, text[p..]) == Register(r, text[p + 1..])
  {
    hide TableStep, Table;
    TableStepValue(crc, text[p], w, i, q, e, r);
    assert text[p..][1..] == text[p + 1..];
  }

  lemma RegisterEnd(text: seq<bv8>, crc: bv32)
    ensures Register(crc, text[|text|..]) == crc
    ensures text[0..] == text
  {}

  /** "123456789". */
  const CHECK_TEXT: seq<bv8> := [0x31, 0x32, 0x33, 0x34, 0x35, 0x36, 0x37, 0x38, 0x39]

  lemma CheckRegister()
    ensures Register(0xffff_ffff, CHECK_TEXT) == 0x340bc6d9
  {
    hide *;
    CheckFront();
    CheckBack();
  }

  lemma CheckFront()
    ensures Register(0xffff_ffff, CHECK_TEXT) == Register(0x340ac5e3, CHECK_TEXT[5..])
  {
    hide Register, TableStep, Table;
    RegisterEnd(CHECK_TEXT, 0);
    TableRow(0xce); RegisterAt(CHECK_TEXT, 0xffffffff, 0, 0xffffffce, 0xce, 0x00ffffff, 0x7cdcefb7, 0x7c231048);
    TableRow(0x7a); RegisterAt(CHECK_TEXT, 0x7c231048, 1, 0x7c23107a, 0x7a, 0x007c2310, 0xb0d09822, 0xb0acbb32);
    TableRow(0x01); RegisterAt(CHECK_TEXT, 0xb0acbb32, 2, 0xb0acbb01, 0x01, 0x00b0acbb, 0x77073096, 0x77b79c2d);
    TableRow(0x19); RegisterAt(CHECK_TEXT, 0x77b79c2d, 3, 0x77b79c19, 0x19, 0x0077b79c, 0x646ba8c0, 0x641c1f5c);
    TableRow(0x69); RegisterAt(CHECK_TEXT, 0x641c1f5c, 4, 0x641c1f69, 0x69, 0x00641c1f, 0x346ed9fc, 0x340ac5e3);
  }

  lemma CheckBack()
    ensures Register(0x340ac5e3, CHECK_TEXT[5..]) == 0x340bc6d9
  {
    hide Register, TableStep, Table;
    TableRow(0xd5); RegisterAt(CHECK_TEXT, 0x340ac5e3, 5, 0x340ac5d5, 0xd5, 0x00340ac5, 0xf6b9265b, 0xf68d2c9e);
    TableRow(0xa9); RegisterAt(CHECK_TEXT, 0xf68d2c9e, 6, 0xf68d2ca9, 0xa9, 0x00f68d2c, 0xaf0a1b4c, 0xaffc9660);
    TableRow(0x58); RegisterAt(CHECK_TEXT, 0xaffc9660, 7, 0xaffc9658, 0x58, 0x00affc96, 0x65b0d9c6, 0x651f2550);
    TableRow(0x69); RegisterAt(CHECK_TEXT, 0x651f2550, 8, 0x651f2569, 0x69, 0x00651f25, 0x346ed9fc, 0x340bc6d9);
    RegisterEnd(CHECK_TEXT, 0x340bc6d9);
  }

  /** The check value of the CRC-32, and its bits 16 to 30. */
  lemma CheckValue()
    ensures CrcSpec(CHECK_TEXT) == 0xcbf4_3926
    ensures (CrcSpec(CHECK_TEXT) >> 16) & 0x7fff == 0x4bf4
  {
    hide *;
    CheckRegister();
    RegisterIsSerial(0xffff_ffff, CHECK_TEXT);
    CrcSpecNot(CHECK_TEXT);
    NotIs(0x340bc6d9);
  }

  lemma NotIs(x: bv32)
    ensures Not(x) == !x
  {}

  // ---------- hash_crc32: the same register, read through a signed char, 15 bits kept ----------

  function SignedIndex(crc: bv32, b: bv8): bv8 {
    ((crc as bv64 ^ SignExtend64(b)) & 0xff) as bv8
  }

  lemma SignExtensionMaskedOff(crc: bv32, b: bv8)
    ensures SignedIndex(crc, b) == Byte0(Xor(crc, Wide(b)))
  {}

  method HashCrc32(key: seq<bv8>) returns (val: bv32)
    ensures val == (CrcSpec(key) >> 16) & 0x7fff
  {
    hide TableStep, Table, SignedIndex, Byte0, Xor, Shr8, Wide;
    var crc: bv32 := 0xffff_ffff;
    for x := 0 to |key|
      invariant Register(crc, key[x..]) == Register(0xffff_ffff, key)
    {
      SignExtensionMaskedOff(crc, key[x]);
      TableStepIs(crc, key[x]);
      XorComm(Shr8(crc), Table(SignedIndex(crc, key[x])));
      crc := Xor(Shr8(crc), Table(SignedIndex(crc, key[x])));
    }
    assert key[|key|..] == [];
    RegisterIsSerial(0xffff_ffff, key);
    val := (!crc >> 16) & 0x7fff;
  }

  // ---------- crc32_sz: sequential buffers of text, case-insensitive ----------

  predicate Ascii(buf: seq<bv8>) {
    forall i :: 0 <= i < |buf| ==> buf[i] < 0x80
  }

  /** tolower on ASCII characters. */
  function ToLower(ch: bv8): bv8 {
    if 0x41 <= ch <= 0x5a then ch + 0x20 else ch
  }

  /** From 'A' to 'Z' and nothing else; the order of the letters stays. */
  lemma ToLowerIs(ch: bv8)
    ensures ToLower(ch) != ch <==> 'A' as int <= ch as int <= 'Z' as int
    ensures ToLower(ch) != ch ==> ToLower(ch) as int - 'a' as int == ch as int - 'A' as int
    ensures ToLower(ToLower(ch)) == ToLower(ch)
  {}

  /** The low byte of what the library's tolower makes of a key byte passed on with its sign extended. The C
      standard settles it for ASCII characters in the "C" locale only. */
  ghost predicate CLocale(tolower: bv8 -> bv8) {
    forall ch :: ch < 0x80 ==> tolower(ch) == ToLower(ch)
  }

  function Mapped(buf: seq<bv8>, tolower: bv8 -> bv8): (text: seq<bv8>)
    ensures |text| == |buf|
  {
    seq(|buf|, i requires 0 <= i < |buf| => tolower(buf[i]))
  }

  function Lower(buf: seq<bv8>): (text: seq<bv8>)
    ensures |text| == |buf|
  {
    seq(|buf|, i requires 0 <= i < |buf| => ToLower(buf[i]))
  }

  lemma MappedAscii(buf: seq<bv8>, tolower: bv8 -> bv8)
    requires Ascii(buf) && CLocale(tolower)
    ensures Mapped(buf, tolower) == Lower(buf)
  {
    hide ToLower;
  }

  function SzSpec(buf: seq<bv8>, inCrc32: bv32, tolower: bv8 -> bv8): bv32 {
    Not(Register(Not(inCrc32), Mapped(buf, tolower)))
  }

  method Crc32Sz(buf: seq<bv8>, inCrc32: bv32, tolower: bv8 -> bv8) returns (r: bv32)
    ensures r == SzSpec(buf, inCrc32, tolower)
    ensures Ascii(buf) && CLocale(tolower) ==> r == Not(Serial(Not(inCrc32), Bits(Lower(buf))))
  {
    hide TableStep, ToLower, Serial, Bits, CLocale;
    ghost var text := Mapped(buf, tolower);
    var crc, p, nr := Not(inCrc32), 0, |buf|;
    while nr > 0
      invariant 0 <= p <= |buf| && p + nr == |buf|
      invariant Register(crc, text[p..]) == Register(Not(inCrc32), text)
    {
      crc := TableStep(crc, tolower(buf[p]));
      p, nr := p + 1, nr - 1;
    }
    assert text[p..] == [];
    r := Not(crc);
    RegisterIsSerial(Not(inCrc32), text);
    if Ascii(buf) && CLocale(tolower) {
      MappedAscii(buf, tolower);
    }
  }

  /** Checksumming buffers one after another, each seeded with the result so far. */
  function SzChain(bufs: seq<seq<bv8>>, seed: bv32, tolower: bv8 -> bv8): bv32
    decreases bufs
  {
    if bufs == [] then seed else SzChain(bufs[1..], SzSpec(bufs[0], seed, tolower), tolower)
  }

  lemma SzConcat(u: seq<bv8>, v: seq<bv8>, seed: bv32, tolower: bv8 -> bv8)
    ensures SzSpec(u + v, seed, tolower) == SzSpec(v, SzSpec(u, seed, tolower), tolower)
  {
    hide Register;
    assert Mapped(u + v, tolower) == Mapped(u, tolower) + Mapped(v, tolower);
    RegisterConcat(Not(seed), Mapped(u, tolower), Mapped(v, tolower));
    NotNot(Register(Not(seed), Mapped(u, tolower)));
  }

  /** However a text is cut into buffers, chaining equals one pass over the whole text; seeded with zero it is
      the CRC-32 of the mapped text, which for ASCII is the lower-cased text. */
  lemma {:induction false} SzChainIsWhole(bufs: seq<seq<bv8>>, seed: bv32, tolower: bv8 -> bv8)
    ensures SzChain(bufs, seed, tolower) == SzSpec(Flatten(bufs), seed, tolower)
    ensures seed == 0 ==> SzChain(bufs, seed, tolower) == CrcSpec(Mapped(Flatten(bufs), tolower))
    ensures Ascii(Flatten(bufs)) && CLocale(tolower) ==> Mapped(Flatten(bufs), tolower) == Lower(Flatten(bufs))
    decreases bufs
  {
    if bufs == [] {
      NotNot(seed);
    } else {
      hide SzSpec, Mapped, CrcSpec, Ascii, CLocale;
      SzChainIsWhole(bufs[1..], SzSpec(bufs[0], seed, tolower), tolower);
      SzConcat(bufs[0], Flatten(bufs[1..]), seed, tolower);
    }
    if seed == 0 {
      SzZeroSeed(Flatten(bufs), tolower);
    }
    if Ascii(Flatten(bufs)) && CLocale(tolower) {
      MappedAscii(Flatten(bufs), tolower);
    }
  }

  lemma SzZeroSeed(buf: seq<bv8>, tolower: bv8 -> bv8)
    ensures SzSpec(buf, 0, tolower) == CrcSpec(Mapped(buf, tolower))
  {
    hide Mapped, Register, Serial, Bits, Not;
    NotNot(0);
    RegisterIsSerial(0xffff_ffff, Mapped(buf, tolower));
  }

  /** "hello", and in other letters "HeLlO". */
  const HELLO: seq<bv8> := [0x68, 0x65, 0x6c, 0x6c, 0x6f]
  const HELLO_MIXED: seq<bv8> := [0x48, 0x65, 0x4c, 0x6c, 0x4f]

  /** The checksum of a text in mixed case is the CRC-32 of it in lower case. */
  lemma HelloChecksum(tolower: bv8 -> bv8)
    requires CLocale(tolower)
    ensures SzSpec(HELLO_MIXED, 0, tolower) == 0x3610a686
  {
    hide *;
    LowerHello(tolower);
    HelloRegister();
    SzIs(HELLO_MIXED, 0, tolower);
    NotIs(0); NotIs(0xc9ef5979);
  }

  lemma LowerHello(tolower: bv8 -> bv8)
    requires CLocale(tolower)
    ensures Mapped(HELLO_MIXED, tolower) == HELLO
  {}

  lemma SzIs(buf: seq<bv8>, inCrc32: bv32, tolower: bv8 -> bv8)
    ensures SzSpec(buf, inCrc32, tolower) == Not(Register(Not(inCrc32), Mapped(buf, tolower)))
  {
    hide Not, Register, Mapped;
  }

  lemma HelloRegister()
    ensures Register(0xffff_ffff, HELLO) == 0xc9ef5979
  {
    hide Register, TableStep, Table;
    TableRow(0x97); RegisterAt(HELLO, 0xffffffff, 0, 0xffffff97, 0x97, 0x00ffffff, 0x6e6b06e7, 0x6e94f918);
    TableRow(0x7d); RegisterAt(HELLO, 0x6e94f918, 1, 0x6e94f97d, 0x7d, 0x006e94f9, 0x2eb40d81, 0x2eda9978);
    TableRow(0x14); RegisterAt(HELLO, 0x2eda9978, 2, 0x2eda9914, 0x14, 0x002eda99, 0x1adad47d, 0x1af40ee4);
    TableRow(0x88); RegisterAt(HELLO, 0x1af40ee4, 3, 0x1af40e88, 0x88, 0x001af40e, 0xe3630b12, 0xe379ff1c);
    TableRow(0x73); RegisterAt(HELLO, 0xe379ff1c, 4, 0xe379ff73, 0x73, 0x00e379ff, 0xc90c2086, 0xc9ef5979);
    RegisterEnd(HELLO, 0xc9ef5979);
  }
}
