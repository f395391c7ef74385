/** The streaming MD5 implementation, proved to compute the digest of RFC 1321. */
module Md5 {
  import opened Words
  import Spec = Md5Spec

  // ---------- The basic functions and the step macro ----------

  function F(x: bv32, y: bv32, z: bv32): (r: bv32)
    ensures r == Spec.F(x, y, z)
  {
    FRaw(x, y, z);
    z ^ (x & (y ^ z))
  }

  function G(x: bv32, y: bv32, z: bv32): (r: bv32)
    ensures r == Spec.G(x, y, z)
  {
    GRaw(x, y, z);
    y ^ (z & (x ^ y))
  }

  function H(x: bv32, y: bv32, z: bv32): (r: bv32)
    ensures r == Spec.H(x, y, z)
  {
    x ^ y ^ z
  }

  function I(x: bv32, y: bv32, z: bv32): (r: bv32)
    ensures r == Spec.I(x, y, z)
  {
    y ^ (x | !z)
  }

  lemma FRaw(x: bv32, y: bv32, z: bv32)
    ensures Spec.F(x, y, z) == z ^ (x & (y ^ z))
  {}

  lemma GRaw(x: bv32, y: bv32, z: bv32)
    ensures Spec.G(x, y, z) == y ^ (z & (x ^ y))
  {}

  lemma StepIsNewWord(f: bv32, a: bv32, b: bv32, x: bv32, t: bv32, s: nat)
    requires 0 < s < 32
    ensures Add(Rot(Add(a, Add(Add(f, x), t)), s), b) == Spec.NewWord(a, b, f, x, t, s)
  {
    hide Add, Rot, CircularShift;
    AddAssoc(a, Add(f, x), t); AddAssoc(a, f, x);
    var sum := Add(a, Add(Add(f, x), t));
    RotIsCircular(sum, s);
    AddComm(Rot(sum, s), b);
  }

  /** The step macro: a += f + x + t; a = a rotated left by s; a += b. */
  function Step(f: bv32, a: bv32, b: bv32, x: bv32, t: bv32, s: nat): (r: bv32)
    requires 0 < s < 32
    ensures r == Spec.NewWord(a, b, f, x, t, s)
  {
    StepIsNewWord(f, a, b, x, t, s);
    Add(Rot(Add(a, Add(Add(f, x), t)), s), b)
  }

  /** Whether word k, constant t and shift s are those of operation i. */
  predicate Uses(i: nat, k: nat, t: bv32, s: nat) {
    k == Spec.WordIndex(i) && t == Spec.SineTable(i) && s == Spec.Amount(i)
  }

  lemma OperationIs(st: Spec.State, block: Spec.Block, i: nat, f: bv32, k: nat, t: bv32, s: nat)
    requires f == Spec.Auxiliary(i, st.b, st.c, st.d) && Uses(i, k, t, s)
    ensures 0 < s < 32 && k < 16
    ensures Spec.Operation(st, block, i)
         == Spec.State(st.d, Spec.NewWord(st.a, st.b, f, Spec.X(block, k), t, s), st.b, st.c)
  {
    hide Spec.NewWord, Spec.X, Spec.SineTable, Spec.WordIndex, Spec.Amount, Spec.Auxiliary;
  }

  lemma XIs(block: Spec.Block, k: nat)
    requires k < 16
    ensures Spec.X(block, k) == WordAt(block, 4 * k)
  {
    hide WordAt;
  }

  /** Word k of a block is the one whose bytes, low-order first, are the block's bytes from 4 * k on (section 2). */
  lemma XDecodes(block: Spec.Block, k: nat)
    requires k < 16
    ensures LeBytes(Spec.X(block, k)) == block[4 * k..4 * k + 4]
  {
    hide Le32, Byte0, Byte1, Byte2, Byte3;
    BytesOfLe32(block[4 * k], block[4 * k + 1], block[4 * k + 2], block[4 * k + 3]);
  }

  // One step of each round, for operation i of the RFC: [abcd k s i] with T[i + 1] = t.

  function StepF(a: bv32, b: bv32, c: bv32, d: bv32, block: Spec.Block, k: nat, t: bv32, s: nat, ghost i: nat)
    : (r: bv32)
    requires 0 <= i < 16 && Uses(i, k, t, s)
    ensures Spec.State(d, r, b, c) == Spec.Operation(Spec.State(a, b, c, d), block, i)
  {
    hide Step, Uses, Spec.Operation, Spec.NewWord, Spec.X, WordAt, F, Spec.F, G, Spec.G, H, Spec.H, I, Spec.I;
    OperationIs(Spec.State(a, b, c, d), block, i, F(b, c, d), k, t, s);
    XIs(block, k);
    Step(F(b, c, d), a, b, WordAt(block, 4 * k), t, s)
  }

  function StepG(a: bv32, b: bv32, c: bv32, d: bv32, block: Spec.Block, k: nat, t: bv32, s: nat, ghost i: nat)
    : (r: bv32)
    requires 16 <= i < 32 && Uses(i, k, t, s)
    ensures Spec.State(d, r, b, c) == Spec.Operation(Spec.State(a, b, c, d), block, i)
  {
    hide Step, Uses, Spec.Operation, Spec.NewWord, Spec.X, WordAt, F, Spec.F, G, Spec.G, H, Spec.H, I, Spec.I;
    OperationIs(Spec.State(a, b, c, d), block, i, G(b, c, d), k, t, s);
    XIs(block, k);
    Step(G(b, c, d), a, b, WordAt(block, 4 * k), t, s)
  }

  function StepH(a: bv32, b: bv32, c: bv32, d: bv32, block: Spec.Block, k: nat, t: bv32, s: nat, ghost i: nat)
    : (r: bv32)
    requires 32 <= i < 48 && Uses(i, k, t, s)
    ensures Spec.State(d, r, b, c) == Spec.Operation(Spec.State(a, b, c, d), block, i)
  {
    hide Step, Uses, Spec.Operation, Spec.NewWord, Spec.X, WordAt, F, Spec.F, G, Spec.G, H, Spec.H, I, Spec.I;
    OperationIs(Spec.State(a, b, c, d), block, i, H(b, c, d), k, t, s);
    XIs(block, k);
    Step(H(b, c, d), a, b, WordAt(block, 4 * k), t, s)
  }

  function StepI(a: bv32, b: bv32, c: bv32, d: bv32, block: Spec.Block, k: nat, t: bv32, s: nat, ghost i: nat)
    : (r: bv32)
    requires 48 <= i < 64 && Uses(i, k, t, s)
    ensures Spec.State(d, r, b, c) == Spec.Operation(Spec.State(a, b, c, d), block, i)
  {
    hide Step, Uses, Spec.Operation, Spec.NewWord, Spec.X, WordAt, F, Spec.F, G, Spec.G, H, Spec.H, I, Spec.I;
    OperationIs(Spec.State(a, b, c, d), block, i, I(b, c, d), k, t, s);
    XIs(block, k);
    Step(I(b, c, d), a, b, WordAt(block, 4 * k), t, s)
  }

  // ---------- The four unrolled rounds ----------

  lemma FourOperations(st: Spec.State, x: Spec.Block, i: nat, n: nat)
    requires n >= 4
    ensures
      var s1 := Spec.Operation(st, x, i);
      var s2 := Spec.Operation(s1, x, i + 1);
      var s3 := Spec.Operation(s2, x, i + 2);
      var s4 := Spec.Operation(s3, x, i + 3);
      Spec.Operations(st, x, i, n) == Spec.Operations(s4, x, i + 4, n - 4)
  {
    hide Spec.Operation;
    var s2 := Spec.Operation(Spec.Operation(st, x, i), x, i + 1);
    assert Spec.Operations(st, x, i, n) == Spec.Operations(s2, x, i + 2, n - 2);
  }

  lemma NoOperations(st: Spec.State, x: Spec.Block, i: nat)
    ensures Spec.Operations(st, x, i, 0) == st
  {}

  lemma Constants1A()
    ensures Uses(0, 0, 0xd76aa478, 7) && Uses(1, 1, 0xe8c7b756, 12)
    ensures Uses(2, 2, 0x242070db, 17) && Uses(3, 3, 0xc1bdceee, 22)
    ensures Uses(4, 4, 0xf57c0faf, 7) && Uses(5, 5, 0x4787c62a, 12)
    ensures Uses(6, 6, 0xa8304613, 17) && Uses(7, 7, 0xfd469501, 22)
  {}

  lemma Constants1B()
    ensures Uses(8, 8, 0x698098d8, 7) && Uses(9, 9, 0x8b44f7af, 12)
    ensures Uses(10, 10, 0xffff5bb1, 17) && Uses(11, 11, 0x895cd7be, 22)
    ensures Uses(12, 12, 0x6b901122, 7) && Uses(13, 13, 0xfd987193, 12)
    ensures Uses(14, 14, 0xa679438e, 17) && Uses(15, 15, 0x49b40821, 22)
  {}

  method Round1(a0: bv32, b0: bv32, c0: bv32, d0: bv32, x: Spec.Block)
    returns (a: bv32, b: bv32, c: bv32, d: bv32)
    ensures Spec.State(a, b, c, d) == Spec.Operations(Spec.State(a0, b0, c0, d0), x, 0, 16)
  {
    hide *;
    Constants1A(); Constants1B();
    a, b, c, d := a0, b0, c0, d0;
    FourOperations(Spec.State(a, b, c, d), x, 0, 16);
    a := StepF(a, b, c, d, x, 0, 0xd76aa478, 7, 0);
    d := StepF(d, a, b, c, x, 1, 0xe8c7b756, 12, 1);
    c := StepF(c, d, a, b, x, 2, 0x242070db, 17, 2);
    b := StepF(b, c, d, a, x, 3, 0xc1bdceee, 22, 3);
    FourOperations(Spec.State(a, b, c, d), x, 4, 12);
    a := StepF(a, b, c, d, x, 4, 0xf57c0faf, 7, 4);
    d := StepF(d, a, b, c, x, 5, 0x4787c62a, 12, 5);
    c := StepF(c, d, a, b, x, 6, 0xa8304613, 17, 6);
    b := StepF(b, c, d, a, x, 7, 0xfd469501, 22, 7);
    FourOperations(Spec.State(a, b, c, d), x, 8, 8);
    a := StepF(a, b, c, d, x, 8, 0x698098d8, 7, 8);
    d := StepF(d, a, b, c, x, 9, 0x8b44f7af, 12, 9);
    c := StepF(c, d, a, b, x, 10, 0xffff5bb1, 17, 10);
    b := StepF(b, c, d, a, x, 11, 0x895cd7be, 22, 11);
    FourOperations(Spec.State(a, b, c, d), x, 12, 4);
    a := StepF(a, b, c, d, x, 12, 0x6b901122, 7, 12);
    d := StepF(d, a, b, c, x, 13, 0xfd987193, 12, 13);
    c := StepF(c, d, a, b, x, 14, 0xa679438e, 17, 14);
    b := StepF(b, c, d, a, x, 15, 0x49b40821, 22, 15);
    NoOperations(Spec.State(a, b, c, d), x, 16);
  }

  lemma Constants2A()
    ensures Uses(16, 1, 0xf61e2562, 5) && Uses(17, 6, 0xc040b340, 9)
    ensures Uses(18, 11, 0x265e5a51, 14) && Uses(19, 0, 0xe9b6c7aa, 20)
    ensures Uses(20, 5, 0xd62f105d, 5) && Uses(21, 10, 0x02441453, 9)
    ensures Uses(22, 15, 0xd8a1e681, 14) && Uses(23, 4, 0xe7d3fbc8, 20)
  {}

  lemma Constants2B()
    ensures Uses(24, 9, 0x21e1cde6, 5) && Uses(25, 14, 0xc33707d6, 9)
    ensures Uses(26, 3, 0xf4d50d87, 14) && Uses(27, 8, 0x455a14ed, 20)
    ensures Uses(28, 13, 0xa9e3e905, 5) && Uses(29, 2, 0xfcefa3f8, 9)
    ensures Uses(30, 7, 0x676f02d9, 14) && Uses(31, 12, 0x8d2a4c8a, 20)
  {}

  method Round2(a0: bv32, b0: bv32, c0: bv32, d0: bv32, x: Spec.Block)
    returns (a: bv32, b: bv32, c: bv32, d: bv32)
    ensures Spec.State(a, b, c, d) == Spec.Operations(Spec.State(a0, b0, c0, d0), x, 16, 16)
  {
    hide *;
    Constants2A(); Constants2B();
    a, b, c, d := a0, b0, c0, d0;
    FourOperations(Spec.State(a, b, c, d), x, 16, 16);
    a := StepG(a, b, c, d, x, 1, 0xf61e2562, 5, 16);
    d := StepG(d, a, b, c, x, 6, 0xc040b340, 9, 17);
    c := StepG(c, d, a, b, x, 11, 0x265e5a51, 14, 18);
    b := StepG(b, c, d, a, x, 0, 0xe9b6c7aa, 20, 19);
    FourOperations(Spec.State(a, b, c, d), x, 20, 12);
    a := StepG(a, b, c, d, x, 5, 0xd62f105d, 5, 20);
    d := StepG(d, a, b, c, x, 10, 0x02441453, 9, 21);
    c := StepG(c, d, a, b, x, 15, 0xd8a1e681, 14, 22);
    b := StepG(b, c, d, a, x, 4, 0xe7d3fbc8, 20, 23);
    FourOperations(Spec.State(a, b, c, d), x, 24, 8);
    a := StepG(a, b, c, d, x, 9, 0x21e1cde6, 5, 24);
    d := StepG(d, a, b, c, x, 14, 0xc33707d6, 9, 25);
    c := StepG(c, d, a, b, x, 3, 0xf4d50d87, 14, 26);
    b := StepG(b, c, d, a, x, 8, 0x455a14ed, 20, 27);
    FourOperations(Spec.State(a, b, c, d), x, 28, 4);
    a := StepG(a, b, c, d, x, 13, 0xa9e3e905, 5, 28);
    d := StepG(d, a, b, c, x, 2, 0xfcefa3f8, 9, 29);
    c := StepG(c, d, a, b, x, 7, 0x676f02d9, 14, 30);
    b := StepG(b, c, d, a, x, 12, 0x8d2a4c8a, 20, 31);
    NoOperations(Spec.State(a, b, c, d), x, 32);
  }

  lemma Constants3A()
    ensures Uses(32, 5, 0xfffa3942, 4) && Uses(33, 8, 0x8771f681, 11)
    ensures Uses(34, 11, 0x6d9d6122, 16) && Uses(35, 14, 0xfde5380c, 23)
    ensures Uses(36, 1, 0xa4beea44, 4) && Uses(37, 4, 0x4bdecfa9, 11)
    ensures Uses(38, 7, 0xf6bb4b60, 16) && Uses(39, 10, 0xbebfbc70, 23)
  {}

  lemma Constants3B()
    ensures Uses(40, 13, 0x289b7ec6, 4) && Uses(41, 0, 0xeaa127fa, 11)
    ensures Uses(42, 3, 0xd4ef3085, 16) && Uses(43, 6, 0x04881d05, 23)
    ensures Uses(44, 9, 0xd9d4d039, 4) && Uses(45, 12, 0xe6db99e5, 11)
    ensures Uses(46, 15, 0x1fa27cf8, 16) && Uses(47, 2, 0xc4ac5665, 23)
  {}

  method Round3(a0: bv32, b0: bv32, c0: bv32, d0: bv32, x: Spec.Block)
    returns (a: bv32, b: bv32, c: bv32, d: bv32)
    ensures Spec.State(a, b, c, d) == Spec.Operations(Spec.State(a0, b0, c0, d0), x, 32, 16)
  {
    hide *;
    Constants3A(); Constants3B();
    a, b, c, d := a0, b0, c0, d0;
    FourOperations(Spec.State(a, b, c, d), x, 32, 16);
    a := StepH(a, b, c, d, x, 5, 0xfffa3942, 4, 32);
    d := StepH(d, a, b, c, x, 8, 0x8771f681, 11, 33);
    c := StepH(c, d, a, b, x, 11, 0x6d9d6122, 16, 34);
    b := StepH(b, c, d, a, x, 14, 0xfde5380c, 23, 35);
    FourOperations(Spec.State(a, b, c, d), x, 36, 12);
    a := StepH(a, b, c, d, x, 1, 0xa4beea44, 4, 36);
    d := StepH(d, a, b, c, x, 4, 0x4bdecfa9, 11, 37);
    c := StepH(c, d, a, b, x, 7, 0xf6bb4b60, 16, 38);
    b := StepH(b, c, d, a, x, 10, 0xbebfbc70, 23, 39);
    FourOperations(Spec.State(a, b, c, d), x, 40, 8);
    a := StepH(a, b, c, d, x, 13, 0x289b7ec6, 4, 40);
    d := StepH(d, a, b, c, x, 0, 0xeaa127fa, 11, 41);
    c := StepH(c, d, a, b, x, 3, 0xd4ef3085, 16, 42);
    b := StepH(b, c, d, a, x, 6, 0x04881d05, 23, 43);
    FourOperations(Spec.State(a, b, c, d), x, 44, 4);
    a := StepH(a, b, c, d, x, 9, 0xd9d4d039, 4, 44);
    d := StepH(d, a, b, c, x, 12, 0xe6db99e5, 11, 45);
    c := StepH(c, d, a, b, x, 15, 0x1fa27cf8, 16, 46);
    b := StepH(b, c, d, a, x, 2, 0xc4ac5665, 23, 47);
    NoOperations(Spec.State(a, b, c, d), x, 48);
  }

  lemma Constants4A()
    ensures Uses(48, 0, 0xf4292244, 6) && Uses(49, 7, 0x432aff97, 10)
    ensures Uses(50, 14, 0xab9423a7, 15) && Uses(51, 5, 0xfc93a039, 21)
    ensures Uses(52, 12, 0x655b59c3, 6) && Uses(53, 3, 0x8f0ccc92, 10)
    ensures Uses(54, 10, 0xffeff47d, 15) && Uses(55, 1, 0x85845dd1, 21)
  {}

  lemma Constants4B()
    ensures Uses(56, 8, 0x6fa87e4f, 6) && Uses(57, 15, 0xfe2ce6e0, 10)
    ensures Uses(58, 6, 0xa3014314, 15) && Uses(59, 13, 0x4e0811a1, 21)
    ensures Uses(60, 4, 0xf7537e82, 6) && Uses(61, 11, 0xbd3af235, 10)
    ensures Uses(62, 2, 0x2ad7d2bb, 15) && Uses(63, 9, 0xeb86d391, 21)
  {}

  method Round4(a0: bv32, b0: bv32, c0: bv32, d0: bv32, x: Spec.Block)
    returns (a: bv32, b: bv32, c: bv32, d: bv32)
    ensures Spec.State(a, b, c, d) == Spec.Operations(Spec.State(a0, b0, c0, d0), x, 48, 16)
  {
    hide *;
    Constants4A(); Constants4B();
    a, b, c, d := a0, b0, c0, d0;
    FourOperations(Spec.State(a, b, c, d), x, 48, 16);
    a := StepI(a, b, c, d, x, 0, 0xf4292244, 6, 48);
    d := StepI(d, a, b, c, x, 7, 0x432aff97, 10, 49);
    c := StepI(c, d, a, b, x, 14, 0xab9423a7, 15, 50);
    b := StepI(b, c, d, a, x, 5, 0xfc93a039, 21, 51);
    FourOperations(Spec.State(a, b, c, d), x, 52, 12);
    a := StepI(a, b, c, d, x, 12, 0x655b59c3, 6, 52);
    d := StepI(d, a, b, c, x, 3, 0x8f0ccc92, 10, 53);
    c := StepI(c, d, a, b, x, 10, 0xffeff47d, 15, 54);
    b := StepI(b, c, d, a, x, 1, 0x85845dd1, 21, 55);
    FourOperations(Spec.State(a, b, c, d), x, 56, 8);
    a := StepI(a, b, c, d, x, 8, 0x6fa87e4f, 6, 56);
    d := StepI(d, a, b, c, x, 15, 0xfe2ce6e0, 10, 57);
    c := StepI(c, d, a, b, x, 6, 0xa3014314, 15, 58);
    b := StepI(b, c, d, a, x, 13, 0x4e0811a1, 21, 59);
    FourOperations(Spec.State(a, b, c, d), x, 60, 4);
    a := StepI(a, b, c, d, x, 4, 0xf7537e82, 6, 60);
    d := StepI(d, a, b, c, x, 11, 0xbd3af235, 10, 61);
    c := StepI(c, d, a, b, x, 2, 0x2ad7d2bb, 15, 62);
    b := StepI(b, c, d, a, x, 9, 0xeb86d391, 21, 63);
    NoOperations(Spec.State(a, b, c, d), x, 64);
  }

  // ---------- Processing blocks ----------

  lemma {:induction false} OperationsSplit(st: Spec.State, x: Spec.Block, i: nat, m: nat, n: nat)
    ensures Spec.Operations(st, x, i, m + n) == Spec.Operations(Spec.Operations(st, x, i, m), x, i + m, n)
    decreases m
  {
    hide Spec.Operation;
    if m > 0 {
      OperationsSplit(Spec.Operation(st, x, i), x, i + 1, m - 1, n);
    }
  }

  lemma CompressIs(st: Spec.State, x: Spec.Block)
    ensures var r1 := Spec.Operations(st, x, 0, 16);
      var r2 := Spec.Operations(r1, x, 16, 16);
      var r3 := Spec.Operations(r2, x, 32, 16);
      var r := Spec.Operations(r3, x, 48, 16);
      Spec.Compress(st, x) == Spec.State(Add(r.a, st.a), Add(r.b, st.b), Add(r.c, st.c), Add(r.d, st.d))
  {
    hide Spec.Operations, Add;
    OperationsSplit(st, x, 0, 16, 48);
    var r1 := Spec.Operations(st, x, 0, 16);
    OperationsSplit(r1, x, 16, 16, 32);
    OperationsSplit(Spec.Operations(r1, x, 16, 16), x, 32, 16, 16);
  }

  lemma {:induction false} ProcessConcat(st: Spec.State, u: seq<bv8>, v: seq<bv8>)
    requires |u| % 64 == |v| % 64 == 0
    ensures (|u| + |v|) % 64 == 0
    ensures Spec.Process(st, u + v) == Spec.Process(Spec.Process(st, u), v)
    decreases u
  {
    hide Spec.Compress;
    if u == [] {
      assert u + v == v;
    } else {
      assert (u + v)[..64] == u[..64] && (u + v)[64..] == u[64..] + v;
      ProcessConcat(Spec.Compress(st, u[..64]), u[64..], v);
    }
  }

  lemma ProcessOne(st: Spec.State, block: Spec.Block)
    ensures Spec.Process(st, block) == Spec.Compress(st, block)
  {
    hide Spec.Compress;
    assert block[..64] == block && block[64..] == [];
  }

  // ---------- The context ----------

  lemma PaddedTwice(done: seq<bv8>, tail: seq<bv8>, zeros: seq<bv8>, more: seq<bv8>)
    ensures done + (tail + zeros) + more == done + tail + (zeros + more)
  {}

  class Context {
    var lo: u32
    var hi: u32
    var a: bv32
    var b: bv32
    var c: bv32
    var d: bv32
    const buffer: array<bv8>

    /** Everything fed in since initialisation. */
    ghost var message: seq<bv8>

    ghost function State(): Spec.State
      reads `a, `b, `c, `d
    {
      Spec.State(a, b, c, d)
    }

    /** The blocks in done have been compressed, and the buffer starts with tail. */
    ghost predicate Holds(done: seq<bv8>, tail: seq<bv8>)
      reads `a, `b, `c, `d, buffer
    {
      && buffer.Length == 64 && |done| % 64 == 0 && |tail| < 64
      && buffer[..|tail|] == tail
      && State() == Spec.Process(Spec.INITIAL, done)
    }

    /** lo and hi are the low 29 and the next 32 bits of a number of bytes. */
    ghost predicate Counts(total: nat)
      reads `lo, `hi
    {
      lo < 0x2000_0000 && hi * 0x2000_0000 + lo == total % 0x2000_0000_0000_0000
    }

    ghost predicate Valid()
      reads this, buffer
    {
      Counts(|message|) && Holds(WholeBlocks(message), Remainder(message))
    }

    /** Processes one or more blocks; the counters are not touched. */
    method Body(data: seq<bv8>, size: nat) returns (consumed: nat)
      requires 0 < size <= |data| && size % 64 == 0
      modifies this`a, this`b, this`c, this`d
      ensures State() == Spec.Process(old(State()), data[..size])
      ensures consumed == size
    {
      hide Spec.Compress, Spec.Operations, Add;
      var ptr, rest := 0, size;
      var a, b, c, d := this.a, this.b, this.c, this.d;
      ghost var start := State();
      while rest > 0
        invariant 0 <= ptr && 0 <= rest && ptr + rest == size && ptr % 64 == 0
        invariant Spec.State(a, b, c, d) == Spec.Process(start, data[..ptr])
        decreases rest
      {
        var block := data[ptr..ptr + 64];
        ghost var before := Spec.State(a, b, c, d);
        var savedA, savedB, savedC, savedD := a, b, c, d;
        a, b, c, d := Round1(a, b, c, d, block);
        a, b, c, d := Round2(a, b, c, d, block);
        a, b, c, d := Round3(a, b, c, d, block);
        a, b, c, d := Round4(a, b, c, d, block);
        a, b, c, d := Add(a, savedA), Add(b, savedB), Add(c, savedC), Add(d, savedD);
        CompressIs(before, block);
        ProcessOne(before, block);
        ProcessConcat(start, data[..ptr], block);
        assert data[..ptr] + block == data[..ptr + 64];
        ptr, rest := ptr + 64, rest - 64;
      }
      this.a, this.b, this.c, this.d := a, b, c, d;
      consumed := ptr;
    }

    constructor ()
      ensures Valid() && message == [] && fresh(buffer)
    {
      buffer := new bv8[64];
      a, b, c, d := 0x6745_2301, 0xefcd_ab89, 0x98ba_dcfe, 0x1032_5476;
      lo, hi := 0, 0;
      message := [];
    }

    /** memcpy of a chunk into the buffer. */
    method CopyIn(at: nat, data: seq<bv8>)
      requires at + |data| <= buffer.Length
      modifies buffer
      ensures buffer[..at] == old(buffer[..at])
      ensures buffer[at..at + |data|] == data
      ensures buffer[at + |data|..] == old(buffer[at + |data|..])
    {
      forall i | 0 <= i < |data| {
        buffer[at + i] := data[i];
      }
    }

    /** memset of n bytes of the buffer to zero. */
    method ZeroFill(at: nat, n: nat)
      requires at + n <= buffer.Length
      modifies buffer
      ensures buffer[..at] == old(buffer[..at])
      ensures buffer[at..at + n] == Spec.Zeros(n)
      ensures buffer[at + n..] == old(buffer[at + n..])
    {
      forall i | 0 <= i < n {
        buffer[at + i] := 0;
      }
    }

    /** Counts a chunk: the low 29 bits in lo, the rest in hi. */
    method CountBytes(size: nat, ghost total: nat) returns (savedLo: u32)
      requires Counts(total)
      modifies this`lo, this`hi
      ensures savedLo % 64 == total % 64
      ensures Counts(total + size)
    {
      savedLo := lo;
      UsedBytes(lo, hi, total);
      CounterStep(lo, hi, size, total);
      TwoAdds(hi + 1, size / 0x2000_0000);
      lo := (savedLo + size) % 0x2000_0000;
      if lo < savedLo {
        hi := (hi + 1) % 0x1_0000_0000;
      }
      hi := (hi + size / 0x2000_0000) % 0x1_0000_0000;
    }

    /** An update too small to fill up the buffer. */
    method UpdateWithinBuffer(data: seq<bv8>, used: nat, ghost done: seq<bv8>, ghost tail: seq<bv8>)
      requires Holds(done, tail) && |tail| == used && used + |data| < 64
      modifies buffer
      ensures Holds(done, tail + data)
    {
      hide Spec.Process;
      CopyIn(used, data);
      assert buffer[..used + |data|] == buffer[..used] + buffer[used..used + |data|];
    }

    /** The end of an update, with nothing buffered: whole blocks straight from the data, the rest kept. */
    method UpdateFromBlockBoundary(data: seq<bv8>, ghost done: seq<bv8>)
      returns (ghost done': seq<bv8>, ghost tail: seq<bv8>)
      requires Holds(done, [])
      modifies this`a, this`b, this`c, this`d, buffer
      ensures Holds(done', tail) && done' + tail == done + data
      ensures |done'| % 64 == 0 && |tail| < 64
    {
      hide Spec.Process;
      var data, size := data, |data|;
      done' := done;
      if size >= 64 {
        var whole := size - size % 64;
        ProcessConcat(Spec.INITIAL, done, data[..whole]);
        var consumed := Body(data, whole);
        done' := done + data[..whole];
        data := data[consumed..];
        size := size % 64;
      }
      CopyIn(0, data);
      tail := data;
    }

    /** The start of an update that fills up the buffer: one block goes through, the rest of the data is left. */
    method UpdateFullBuffer(data: seq<bv8>, free: nat, ghost done: seq<bv8>, ghost tail: seq<bv8>)
      returns (rest: seq<bv8>)
      requires Holds(done, tail) && |tail| + free == 64 && free <= |data|
      modifies this`a, this`b, this`c, this`d, buffer
      ensures rest == data[free..]
      ensures Holds(done + tail + data[..free], [])
    {
      hide Spec.Process;
      CopyIn(64 - free, data[..free]);
      assert buffer[..] == buffer[..|tail|] + buffer[|tail|..|tail| + free] == tail + data[..free];
      assert buffer[..][..64] == buffer[..];
      ProcessConcat(Spec.INITIAL, done, buffer[..]);
      var _ := Body(buffer[..], 64);
      assert done + (tail + data[..free]) == done + tail + data[..free];
      rest := data[free..];
    }

    /** Feeds in a chunk of any size, the empty one included. */
    method Update(data: seq<bv8>)
      requires Valid()
      modifies this, buffer
      ensures Valid() && message == old(message) + data
    {
      hide Holds, Counts, WholeBlocks, Remainder;
      ghost var done, tail := WholeBlocks(message), Remainder(message);
      SplitIsWhole(message);
      var savedLo := CountBytes(|data|, |message|);
      message := message + data;
      assert Counts(|message|);
      var used := savedLo % 64;
      var rest := data;
      if used != 0 {
        var free := 64 - used;
        if |data| < free {
          UpdateWithinBuffer(data, used, done, tail);
          assert message == done + (tail + data);
          SplitIsUnique(done, tail + data, message);
          return;
        }
        rest := UpdateFullBuffer(data, free, done, tail);
        done := done + tail + data[..free];
      }
      assert Holds(done, []);
      assert message == done + rest;
      done, tail := UpdateFromBlockBoundary(rest, done);
      SplitIsUnique(done, tail, message);
    }

    /** The end of the block the message ends in: one 0x80 byte, then zeros; if no room for the length is
        left the block goes through and a fresh one of zeros follows. */
    method PadBuffer(used: nat, ghost done: seq<bv8>, ghost tail: seq<bv8>) returns (ghost done': seq<bv8>)
      requires Holds(done, tail) && |tail| == used
      modifies this`a, this`b, this`c, this`d, buffer
      ensures buffer.Length == 64 && |done'| % 64 == 0
      ensures State() == Spec.Process(Spec.INITIAL, done')
      ensures done' + buffer[..56] == done + tail + [0x80] + Spec.Zeros(Spec.PadLength(|done| + used))
    {
      hide Spec.Process, Spec.PadLength;
      PadLengthIs(|done|, used);
      buffer[used] := 0x80;
      assert buffer[..used + 1] == tail + [0x80];
      done' := done;
      var used, free := used + 1, 64 - used - 1;
      if free < 8 {
        ZeroFill(used, free);
        assert buffer[..] == buffer[..used] + buffer[used..used + free] == tail + [0x80] + Spec.Zeros(free);
        assert buffer[..][..64] == buffer[..];
        ProcessConcat(Spec.INITIAL, done, buffer[..]);
        var _ := Body(buffer[..], 64);
        done' := done + buffer[..];
        used := 0;
        ghost var zeros := Spec.Zeros(free);
        ZeroFill(0, 56);
        assert buffer[..56] == buffer[0..0 + 56];
        assert zeros + Spec.Zeros(56) == Spec.Zeros(free + 56);
        PaddedTwice(done, tail + [0x80], zeros, Spec.Zeros(56));
      } else {
        ZeroFill(used, free - 8);
        assert buffer[..56] == buffer[..used] + buffer[used..used + (free - 8)];
        PaddedTwice(done, tail + [0x80], Spec.Zeros(free - 8), []);
      }
    }

    /** Stores a word in four bytes of the buffer, low-order byte first. */
    method StoreWord(at: nat, x: u32)
      requires at + 4 <= buffer.Length
      modifies buffer
      ensures buffer[..at] == old(buffer[..at]) && buffer[at + 4..] == old(buffer[at + 4..])
      ensures buffer[at..at + 4] == WordBytes(x)
    {
      hide ByteOf;
      buffer[at], buffer[at + 1] := ByteOf(x, 1), ByteOf(x, 0x100);
      buffer[at + 2], buffer[at + 3] := ByteOf(x, 0x1_0000), ByteOf(x, 0x100_0000);
    }

    /** The bit length, low word shifted up by three, into the last eight bytes of the buffer. */
    method StoreLength(ghost total: nat)
      requires Counts(total) && buffer.Length == 64
      modifies `lo, buffer
      ensures buffer[..] == old(buffer[..56]) + Spec.LittleEndian(8 * total, 8)
    {
      hide WordBytes, Spec.LittleEndian;
      LengthBytes(lo, hi, total);
      lo := lo * 8;
      StoreWord(56, lo);
      ghost var low := buffer[56..60];
      StoreWord(60, hi);
      assert buffer[56..60] == low;
      assert buffer[..] == buffer[..56] + (buffer[56..60] + buffer[60..64]);
    }

    /** Pads, appends the bit length, and reads out the digest; the context is wiped. */
    method Final() returns (result: seq<bv8>)
      requires Valid()
      modifies this, buffer
      ensures result == Spec.Digest(old(message))
      ensures State() == Spec.State(0, 0, 0, 0) && lo == hi == 0 && buffer[..] == Spec.Zeros(buffer.Length)
    {
      hide Spec.Process, Spec.Pad, Spec.PadLength, Spec.LittleEndian, WholeBlocks, Remainder, LeBytes;
      ghost var done, tail := WholeBlocks(message), Remainder(message);
      SplitIsWhole(message);
      UsedBytes(lo, hi, |message|);
      var used := lo % 64;
      done := PadBuffer(used, done, tail);
      StoreLength(|message|);
      PadIs(message, done, buffer[..]);
      ProcessConcat(Spec.INITIAL, done, buffer[..]);
      assert buffer[..][..64] == buffer[..];
      var _ := Body(buffer[..], 64);
      result := LeBytes(a) + LeBytes(b) + LeBytes(c) + LeBytes(d);
      Wipe();
    }

    /** memset of the whole context to zero. */
    method Wipe()
      requires buffer.Length == 64
      modifies this, buffer
      ensures State() == Spec.State(0, 0, 0, 0) && lo == hi == 0 && buffer[..] == Spec.Zeros(buffer.Length)
    {
      lo, hi := 0, 0;
      a, b, c, d := 0, 0, 0, 0;
      ZeroFill(0, 64);
      assert buffer[..] == buffer[0..0 + 64];
    }
  }

  lemma SplitLast(done: seq<bv8>, last: seq<bv8>, front: seq<bv8>, back: seq<bv8>)
    requires |last| == 64 && done + last[..56] == front && last[56..] == back
    ensures done + last == front + back
  {
    assert last == last[..56] + last[56..];
  }

  lemma PadIs(message: seq<bv8>, done: seq<bv8>, last: seq<bv8>)
    requires |last| == 64
    requires done + last[..56] == message + [0x80] + Spec.Zeros(Spec.PadLength(|message|))
    requires last[56..] == Spec.LittleEndian(8 * |message|, 8)
    ensures done + last == Spec.Pad(message)
  {
    hide *;
    PadParts(message);
    var front := message + [0x80] + Spec.Zeros(Spec.PadLength(|message|));
    SplitLast(done, last, front, Spec.LittleEndian(8 * |message|, 8));
  }

  lemma PadParts(message: seq<bv8>)
    ensures Spec.Pad(message)
         == message + [0x80] + Spec.Zeros(Spec.PadLength(|message|)) + Spec.LittleEndian(8 * |message|, 8)
  {
    hide Spec.Zeros, Spec.PadLength, Spec.LittleEndian;
  }

  lemma PadLengthIs(done: nat, used: nat)
    requires done % 64 == 0 && used < 64
    ensures Spec.PadLength(done + used) == if used < 56 then 55 - used else 119 - used
  {}

  /** The part of a message that makes up whole blocks, and what is left over. */
  ghost function WholeBlocks(message: seq<bv8>): seq<bv8> {
    message[..|message| - |message| % 64]
  }

  ghost function Remainder(message: seq<bv8>): seq<bv8> {
    message[|message| - |message| % 64..]
  }

  /** The counter's low six bits say how much of the buffer is in use. */
  lemma UsedBytes(lo: nat, hi: nat, total: nat)
    requires lo < 0x2000_0000 && hi < 0x1_0000_0000
    requires hi * 0x2000_0000 + lo == total % 0x2000_0000_0000_0000
    ensures lo % 64 == total % 64
  {
    var k := total / 0x2000_0000_0000_0000;
    assert total == lo + 64 * (hi * 0x80_0000 + k * 0x80_0000_0000_0000);
  }

  lemma SplitIsWhole(message: seq<bv8>)
    ensures WholeBlocks(message) + Remainder(message) == message
    ensures |WholeBlocks(message)| % 64 == 0 && |Remainder(message)| == |message| % 64
  {}

  lemma SplitIsUnique(done: seq<bv8>, tail: seq<bv8>, message: seq<bv8>)
    requires |done| % 64 == 0 && |tail| < 64 && message == done + tail
    ensures WholeBlocks(message) == done && Remainder(message) == tail
  {}

  /** A byte of a 32-bit number, the one of weight unit. */
  function ByteOf(x: u32, unit: nat): bv8
    requires unit > 0
  {
    Spec.LowByte(x / unit)
  }

  function WordBytes(x: u32): (s: seq<bv8>)
    ensures |s| == 4
  {
    [ByteOf(x, 1), ByteOf(x, 0x100), ByteOf(x, 0x1_0000), ByteOf(x, 0x100_0000)]
  }

  function Power256(i: nat): (p: nat)
    ensures p > 0
  {
    if i == 0 then 1 else 256 * Power256(i - 1)
  }

  lemma DivideTwice(x: nat, d: nat)
    requires d > 0
    ensures x / 256 / d == x / (256 * d)
  {
    var q, r, s := x / 256 / d, x / 256 % d, x % 256;
    assert x == 256 * (x / 256) + s && x / 256 == q * d + r;
    assert x == q * (256 * d) + (256 * r + s) by {
      assert 256 * (q * d) == q * (256 * d);
    }
    DivideBy(256 * d, q, 256 * r + s);
  }

  /** Byte i of the length field is the digit of 256^i of the number. */
  lemma {:induction false} LittleEndianDigit(x: nat, n: nat, i: nat)
    requires i < n
    ensures Spec.LittleEndian(x, n)[i] as nat == x / Power256(i) % 256
    decreases n
  {
    hide Spec.LowByte;
    if i == 0 {
      LowByteValue(x);
    } else {
      LittleEndianDigit(x / 256, n - 1, i - 1);
      DivideTwice(x, Power256(i - 1));
    }
  }

  lemma LowByteValue(x: nat)
    ensures Spec.LowByte(x) as nat == x % 256
  {
    ByteValue(x % 256);
  }

  lemma LowByteMod(x: nat, y: nat)
    requires x % 256 == y % 256
    ensures Spec.LowByte(x) == Spec.LowByte(y)
  {}

  lemma FourBytesOf(x: nat)
    ensures Spec.LittleEndian(x, 4)
         == [Spec.LowByte(x), Spec.LowByte(x / 0x100), Spec.LowByte(x / 0x1_0000), Spec.LowByte(x / 0x100_0000)]
  {
    hide Spec.LowByte;
    var x1, x2, x3 := x / 0x100, x / 0x1_0000, x / 0x100_0000;
    assert x1 / 256 == x2 && x2 / 256 == x3;
    assert Spec.LittleEndian(x, 4) == [Spec.LowByte(x)] + Spec.LittleEndian(x1, 3);
    assert Spec.LittleEndian(x1, 3) == [Spec.LowByte(x1)] + Spec.LittleEndian(x2, 2);
    assert Spec.LittleEndian(x2, 2) == [Spec.LowByte(x2)] + Spec.LittleEndian(x3, 1);
    assert Spec.LittleEndian(x3, 1) == [Spec.LowByte(x3)];
  }

  lemma TimesMonotone(a: nat, b: nat, d: nat)
    requires a <= b
    ensures a * d <= b * d
  {
    assert (b - a) * d >= 0;
  }

  lemma DivideBy(d: nat, q: nat, r: nat)
    requires r < d
    ensures (q * d + r) / d == q
  {
    var x := q * d + r;
    var p := x / d;
    assert x == p * d + x % d;
    if p < q {
      TimesMonotone(p + 1, q, d);
    } else if p > q {
      TimesMonotone(q + 1, p, d);
    }
  }

  lemma WholeTurns(q: nat, j: nat)
    ensures (q + j * 256) % 256 == q % 256
  {}

  lemma SecondByteMod(y: u32, k: nat)
    ensures (y + k * 0x1_0000_0000) / 0x100 % 256 == y / 0x100 % 256
  {
    var q, r := y / 0x100, y % 0x100;
    DivideBy(0x100, q + k * 0x100_0000, r);
    WholeTurns(q, k * 0x1_0000);
  }

  lemma ThirdByteMod(y: u32, k: nat)
    ensures (y + k * 0x1_0000_0000) / 0x1_0000 % 256 == y / 0x1_0000 % 256
  {
    var q, r := y / 0x1_0000, y % 0x1_0000;
    DivideBy(0x1_0000, q + k * 0x1_0000, r);
    WholeTurns(q, k * 0x100);
  }

  lemma FourthByteMod(y: u32, k: nat)
    ensures (y + k * 0x1_0000_0000) / 0x100_0000 % 256 == y / 0x100_0000 % 256
  {
    var q, r := y / 0x100_0000, y % 0x100_0000;
    DivideBy(0x100_0000, q + k * 0x100, r);
    WholeTurns(q, k);
  }

  lemma FourBytes(x: nat, y: u32, k: nat)
    requires x == y + k * 0x1_0000_0000
    ensures Spec.LittleEndian(x, 4) == WordBytes(y)
  {
    hide Spec.LowByte, Spec.LittleEndian;
    FourBytesOf(x);
    assert Spec.LowByte(x) == Spec.LowByte(y) by { WholeTurns(y, k * 0x100_0000); LowByteMod(x, y); }
    assert Spec.LowByte(x / 0x100) == Spec.LowByte(y / 0x100) by {
      SecondByteMod(y, k); LowByteMod(x / 0x100, y / 0x100);
    }
    assert Spec.LowByte(x / 0x1_0000) == Spec.LowByte(y / 0x1_0000) by {
      ThirdByteMod(y, k); LowByteMod(x / 0x1_0000, y / 0x1_0000);
    }
    assert Spec.LowByte(x / 0x100_0000) == Spec.LowByte(y / 0x100_0000) by {
      FourthByteMod(y, k); LowByteMod(x / 0x100_0000, y / 0x100_0000);
    }
  }

  lemma {:induction false} LittleEndianSplit(x: nat, n: nat)
    ensures Spec.LittleEndian(x, n + 4) == Spec.LittleEndian(x, 4) + Spec.LittleEndian(x / 0x1_0000_0000, n)
  {
    hide Spec.LowByte;
    var x1, x2, x3, x4 := x / 0x100, x / 0x1_0000, x / 0x100_0000, x / 0x1_0000_0000;
    assert x1 / 256 == x2 && x2 / 256 == x3 && x3 / 256 == x4;
    FourBytesOf(x);
    assert Spec.LittleEndian(x, n + 4) == [Spec.LowByte(x)] + Spec.LittleEndian(x1, n + 3);
    assert Spec.LittleEndian(x1, n + 3) == [Spec.LowByte(x1)] + Spec.LittleEndian(x2, n + 2);
    assert Spec.LittleEndian(x2, n + 2) == [Spec.LowByte(x2)] + Spec.LittleEndian(x3, n + 1);
    assert Spec.LittleEndian(x3, n + 1) == [Spec.LowByte(x3)] + Spec.LittleEndian(x4, n);
  }

  /** The eight bytes stored from the two counter words are the bit length modulo 2^64 (section 3.2). */
  lemma LengthBytes(lo: u32, hi: u32, total: nat)
    requires lo < 0x2000_0000 && hi * 0x2000_0000 + lo == total % 0x2000_0000_0000_0000
    ensures Spec.LittleEndian(8 * total, 8)
         == WordBytes(lo * 8) + WordBytes(hi)
  {
    hide WordBytes, Spec.LittleEndian;
    var k := total / 0x2000_0000_0000_0000;
    var x := 8 * total;
    assert x == lo * 8 + (hi + k * 0x1_0000_0000) * 0x1_0000_0000;
    assert x / 0x1_0000_0000 == hi + k * 0x1_0000_0000;
    LittleEndianSplit(x, 4);
    FourBytes(x, lo * 8, hi + k * 0x1_0000_0000);
    FourBytes(x / 0x1_0000_0000, hi, k);
  }

  lemma Wrap32(x: nat, k: nat)
    ensures (x + 0x1_0000_0000 * k) % 0x1_0000_0000 == x % 0x1_0000_0000
  {}

  lemma Wrap61(x: nat, k: nat)
    requires x < 0x2000_0000_0000_0000
    ensures (x + 0x2000_0000_0000_0000 * k) % 0x2000_0000_0000_0000 == x
  {}

  lemma TwoAdds(x: nat, y: nat)
    ensures (x % 0x1_0000_0000 + y) % 0x1_0000_0000 == (x + y) % 0x1_0000_0000
  {
    Wrap32(x % 0x1_0000_0000 + y, x / 0x1_0000_0000);
  }

  /** The split counter: adding a chunk's size to the low 29 bits with the carry into the high word. */
  lemma CounterStep(lo: nat, hi: nat, size: nat, total: nat)
    requires lo < 0x2000_0000 && hi < 0x1_0000_0000
    requires hi * 0x2000_0000 + lo == total % 0x2000_0000_0000_0000
    ensures var newLo := (lo + size) % 0x2000_0000;
      var newHi := (hi + (if newLo < lo then 1 else 0) + size / 0x2000_0000) % 0x1_0000_0000;
      newHi * 0x2000_0000 + newLo == (total + size) % 0x2000_0000_0000_0000
  {
    var m := 0x2000_0000;
    var q, r := size / m, size % m;
    var newLo := (lo + size) % m;
    var carry := if newLo < lo then 1 else 0;
    assert lo + r == carry * m + newLo;
    var high := hi + carry + q;
    assert hi * m + lo + size == high * m + newLo;
    var k, newHi := high / 0x1_0000_0000, high % 0x1_0000_0000;
    var j := total / 0x2000_0000_0000_0000;
    assert total + size == newHi * m + newLo + 0x2000_0000_0000_0000 * (k + j);
    Wrap61(newHi * m + newLo, k + j);
  }

  // ---------- Whole digests ----------

  /** However a message is cut into chunks, the digest is the RFC's digest of the whole message. */
  method DigestChunks(chunks: seq<seq<bv8>>) returns (result: seq<bv8>)
    ensures result == Spec.Digest(Flatten(chunks))
  {
    hide *;
    var ctx := new Context();
    assert chunks[0..] == chunks;
    for i := 0 to |chunks|
      invariant ctx.Valid() && fresh(ctx) && fresh(ctx.buffer)
      invariant ctx.message + Flatten(chunks[i..]) == Flatten(chunks)
    {
      ghost var before := ctx.message;
      ctx.Update(chunks[i]);
      FlattenStep(chunks, i);
      assert before + (chunks[i] + Flatten(chunks[i + 1..])) == before + chunks[i] + Flatten(chunks[i + 1..]);
    }
    FlattenNone();
    assert chunks[|chunks|..] == [] && ctx.message + [] == ctx.message;
    result := ctx.Final();
  }

  /** md5_signature: the digest of a key in one chunk. */
  method Signature(key: seq<bv8>) returns (result: seq<bv8>)
    ensures result == Spec.Digest(key)
  {
    hide Spec.Digest;
    var ctx := new Context();
    ctx.Update(key);
    assert [] + key == key;
    result := ctx.Final();
  }

  /** The key hash: word A of the digest. */
  method HashMd5(key: seq<bv8>) returns (val: bv32)
    ensures val == Spec.Process(Spec.INITIAL, Spec.Pad(key)).a
  {
    hide Spec.Process, Spec.Pad, LeBytes, Le32;
    var results := Signature(key);
    ghost var st := Spec.Process(Spec.INITIAL, Spec.Pad(key));
    assert results[..4] == LeBytes(st.a);
    WordAtLeBytes(st.a);
    val := Le32(results[0], results[1], results[2], results[3]);
  }

  // ---------- For a fixed block the 64 steps are a permutation of the state ----------

  function BackShift(x: bv32, s: nat): bv32
    requires 0 < s < 32
  {
    x.RotateRight(s)
  }

  lemma ShiftsAre(x: bv32, s: nat)
    requires 0 < s < 32
    ensures CircularShift(x, s) == x.RotateLeft(s)
    ensures BackShift(x, s) == x.RotateRight(s)
  {}

  lemma ShiftsRaw(x: bv32, s: nat)
    requires 0 < s < 32
    ensures BackShift(x.RotateLeft(s), s) == x
    ensures CircularShift(x.RotateRight(s), s) == x
  {}

  lemma BackShifted(x: bv32, s: nat)
    requires 0 < s < 32
    ensures BackShift(CircularShift(x, s), s) == x
    ensures CircularShift(BackShift(x, s), s) == x
  {
    hide *;
    ShiftsAre(x, s);
    ShiftsRaw(x, s);
  }

  /** The word a step replaced, from the word it put there. */
  function OldWord(n: bv32, b: bv32, f: bv32, x: bv32, t: bv32, s: nat): bv32
    requires 0 < s < 32
  {
    Sub(Sub(Sub(BackShift(Sub(n, b), s), t), x), f)
  }

  lemma NewWordUndone(a: bv32, b: bv32, f: bv32, x: bv32, t: bv32, s: nat)
    requires 0 < s < 32
    ensures OldWord(Spec.NewWord(a, b, f, x, t, s), b, f, x, t, s) == a
    ensures Spec.NewWord(OldWord(a, b, f, x, t, s), b, f, x, t, s) == a
  {
    hide Add, Sub, BackShift, CircularShift;
    var u, v := Add(a, f), Add(Add(a, f), x);
    var sum := Add(v, t);
    SubAdd(a, f); SubAdd(u, x); SubAdd(v, t);
    BackShifted(sum, s);
    AddComm(b, CircularShift(sum, s)); SubAdd(CircularShift(sum, s), b);
    var p := BackShift(Sub(a, b), s);
    BackShifted(Sub(a, b), s);
    SubAdd(Sub(Sub(p, t), x), f); SubAdd(Sub(p, t), x); SubAdd(p, t);
    AddComm(b, Sub(a, b)); SubAdd(a, b);
  }

  function Unoperation(st: Spec.State, block: Spec.Block, i: nat): Spec.State {
    var f := Spec.Auxiliary(i, st.c, st.d, st.a);
    var x := Spec.X(block, Spec.WordIndex(i));
    Spec.State(OldWord(st.b, st.c, f, x, Spec.SineTable(i), Spec.Amount(i)), st.c, st.d, st.a)
  }

  lemma OperationUndone(st: Spec.State, block: Spec.Block, i: nat)
    ensures Unoperation(Spec.Operation(st, block, i), block, i) == st
    ensures Spec.Operation(Unoperation(st, block, i), block, i) == st
  {
    hide OldWord, Spec.NewWord, Spec.Auxiliary, Spec.X, Spec.WordIndex, Spec.SineTable, Spec.Amount;
    var x, t, s := Spec.X(block, Spec.WordIndex(i)), Spec.SineTable(i), Spec.Amount(i);
    NewWordUndone(st.a, st.b, Spec.Auxiliary(i, st.b, st.c, st.d), x, t, s);
    NewWordUndone(st.b, st.c, Spec.Auxiliary(i, st.c, st.d, st.a), x, t, s);
  }

  function Unoperations(st: Spec.State, block: Spec.Block, i: nat, n: nat): Spec.State
    decreases n, block
  {
    if n == 0 then st else Unoperation(Unoperations(st, block, i + 1, n - 1), block, i)
  }

  /** The steps of the compression, before the saved state is added, are a bijection of (a, b, c, d). */
  lemma {:induction false} OperationsUndone(st: Spec.State, block: Spec.Block, i: nat, n: nat)
    ensures Unoperations(Spec.Operations(st, block, i, n), block, i, n) == st
    ensures Spec.Operations(Unoperations(st, block, i, n), block, i, n) == st
    decreases n
  {
    hide Unoperation, Spec.Operation;
    if n > 0 {
      OperationUndone(st, block, i);
      OperationsUndone(Spec.Operation(st, block, i), block, i + 1, n - 1);
      var r := Unoperations(st, block, i + 1, n - 1);
      OperationUndone(r, block, i);
      OperationsUndone(st, block, i + 1, n - 1);
    }
  }
}
