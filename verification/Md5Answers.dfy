/** The digests of appendix A.5 of RFC 1321 for the empty message and for "a", operation by operation. They fix
    the constants, word order and byte order that definition and implementation share. */
module Md5Answers {
  import opened Md5
  import opened Words
  import Spec = Md5Spec

  // ---------- Four operations on known words ----------

  lemma StepIs(f: bv32, a: bv32, b: bv32, x: bv32, t: bv32, s: nat)
    requires 0 < s < 32
    ensures Step(f, a, b, x, t, s) == Spec.NewWord(a, b, f, x, t, s)
  {
    hide Spec.NewWord;
  }

  lemma One(block: Spec.Block, i: nat, a: bv32, b: bv32, c: bv32, d: bv32, k: nat, x: bv32, t: bv32, s: nat, r: bv32)
    requires Uses(i, k, t, s) && k < 16 && 0 < s < 32 && Spec.X(block, k) == x
    requires r == Step(Spec.Auxiliary(i, b, c, d), a, b, x, t, s)
    ensures Spec.Operation(Spec.State(a, b, c, d), block, i) == Spec.State(d, r, b, c)
  {
    hide *;
    OperationIs(Spec.State(a, b, c, d), block, i, Spec.Auxiliary(i, b, c, d), k, t, s);
    StepIs(Spec.Auxiliary(i, b, c, d), a, b, x, t, s);
  }

  /** Operations i to i + 3, which read words k0 to k3 of the block, take a, b, c, d to a1, b1, c1, d1. */
  lemma Four(block: Spec.Block, i: nat, n: nat, a: bv32, b: bv32, c: bv32, d: bv32,
             k0: nat, k1: nat, k2: nat, k3: nat, x0: bv32, x1: bv32, x2: bv32, x3: bv32,
             t0: bv32, t1: bv32, t2: bv32, t3: bv32, s0: nat, s1: nat, s2: nat, s3: nat,
             a1: bv32, b1: bv32, c1: bv32, d1: bv32)
    requires n >= 4 && k0 < 16 && k1 < 16 && k2 < 16 && k3 < 16
    requires 0 < s0 < 32 && 0 < s1 < 32 && 0 < s2 < 32 && 0 < s3 < 32
    requires Uses(i, k0, t0, s0) && Uses(i + 1, k1, t1, s1) && Uses(i + 2, k2, t2, s2) && Uses(i + 3, k3, t3, s3)
    requires Spec.X(block, k0) == x0 && Spec.X(block, k1) == x1 && Spec.X(block, k2) == x2 && Spec.X(block, k3) == x3
    requires a1 == Step(Spec.Auxiliary(i, b, c, d), a, b, x0, t0, s0)
    requires d1 == Step(Spec.Auxiliary(i + 1, a1, b, c), d, a1, x1, t1, s1)
    requires c1 == Step(Spec.Auxiliary(i + 2, d1, a1, b), c, d1, x2, t2, s2)
    requires b1 == Step(Spec.Auxiliary(i + 3, c1, d1, a1), b, c1, x3, t3, s3)
    ensures Spec.Operations(Spec.State(a, b, c, d), block, i, n)
         == Spec.Operations(Spec.State(a1, b1, c1, d1), block, i + 4, n - 4)
  {
    hide *;
    FourOperations(Spec.State(a, b, c, d), block, i, n);
    One(block, i, a, b, c, d, k0, x0, t0, s0, a1);
    One(block, i + 1, d, a1, b, c, k1, x1, t1, s1, d1);
    One(block, i + 2, c, d1, a1, b, k2, x2, t2, s2, c1);
    One(block, i + 3, b, c1, d1, a1, k3, x3, t3, s3, b1);
  }

  // ---------- The words of a block that ends a short message ----------

  /** A block whose words are zero but for the first and the low word of the length. */
  ghost predicate ShortBlock(x: Spec.Block, first: bv32, length: bv32) {
    Spec.X(x, 0) == first && Spec.X(x, 14) == length && forall k :: 1 <= k < 16 && k != 14 ==> Spec.X(x, k) == 0
  }

  lemma ZeroWord()
    ensures Le32(0, 0, 0, 0) == 0
  {}

  lemma {:induction false} LittleEndianZero(n: nat)
    ensures Spec.LittleEndian(0, n) == Spec.Zeros(n)
  {
    if n > 0 {
      hide Spec.LowByte;
      LittleEndianZero(n - 1);
      LowByteValue(0);
    }
  }

  lemma ShortWords(x: Spec.Block, p: bv8, q: bv8, length: bv8)
    requires x == [p, q] + Spec.Zeros(54) + [length] + Spec.Zeros(7)
    ensures ShortBlock(x, Le32(p, q, 0, 0), Le32(length, 0, 0, 0))
  {
    hide Le32;
    ZeroWord();
  }

  /** The increment by the starting values. */
  lemma CompressEnds(x: Spec.Block, a: bv32, b: bv32, c: bv32, d: bv32, a1: bv32, b1: bv32, c1: bv32, d1: bv32)
    requires Spec.Operations(Spec.INITIAL, x, 0, 64) == Spec.State(a, b, c, d)
    requires a1 == a + 0x6745_2301 && b1 == b + 0xefcd_ab89 && c1 == c + 0x98ba_dcfe && d1 == d + 0x1032_5476
    ensures Spec.Compress(Spec.INITIAL, x) == Spec.State(a1, b1, c1, d1)
  {
    hide Spec.Operations, Add;
    AddIs(a, 0x6745_2301); AddIs(b, 0xefcd_ab89); AddIs(c, 0x98ba_dcfe); AddIs(d, 0x1032_5476);
  }

  lemma DigestIs(message: seq<bv8>)
    ensures var st := Spec.Process(Spec.INITIAL, Spec.Pad(message));
      Spec.Digest(message) == LeBytes(st.a) + LeBytes(st.b) + LeBytes(st.c) + LeBytes(st.d)
  {
    hide Spec.Process, Spec.Pad, LeBytes;
  }

  lemma WordBytesOf(w: bv32)
    ensures LeBytes(w) == [(w & 0xff) as bv8, ((w >> 8) & 0xff) as bv8, ((w >> 16) & 0xff) as bv8, (w >> 24) as bv8]
  {}

  lemma LittleEndianEight()
    ensures Spec.LittleEndian(8, 8) == [8] + Spec.Zeros(7)
  {
    hide Spec.LowByte;
    LittleEndianZero(7);
    LowByteValue(8);
  }

  // ---------- The empty message ----------

  lemma Empty1A(x: Spec.Block)
    requires ShortBlock(x, 0x80, 0)
    ensures Spec.Operations(Spec.State(0x67452301, 0xefcdab89, 0x98badcfe, 0x10325476), x, 0, 8)
         == Spec.State(0x32033344, 0x9bc13ce9, 0xf5b158db, 0x2f35d494)
  {
    hide Uses, Spec.X, Spec.Operations, Spec.Operation;
    Constants1A();
    Four(x, 0, 8, 0x67452301, 0xefcdab89, 0x98badcfe, 0x10325476,
         0, 1, 2, 3, 0x80, 0, 0, 0, 0xd76aa478, 0xe8c7b756, 0x242070db, 0xc1bdceee, 7, 12, 17, 22,
         0xa5202774, 0x1b163203, 0xe7f06b23, 0xf59592dd);
    Four(x, 4, 4, 0xa5202774, 0x1b163203, 0xe7f06b23, 0xf59592dd,
         4, 5, 6, 7, 0, 0, 0, 0, 0xf57c0faf, 0x4787c62a, 0xa8304613, 0xfd469501, 7, 12, 17, 22,
         0x32033344, 0x9bc13ce9, 0xf5b158db, 0x2f35d494);
    NoOperations(Spec.State(0x32033344, 0x9bc13ce9, 0xf5b158db, 0x2f35d494), x, 8);
  }

  lemma Empty1B(x: Spec.Block)
    requires ShortBlock(x, 0x80, 0)
    ensures Spec.Operations(Spec.State(0x32033344, 0x9bc13ce9, 0xf5b158db, 0x2f35d494), x, 8, 8)
         == Spec.State(0xf56c7cf1, 0xd6819c6a, 0x5aa53f75, 0x374943a7)
  {
    hide Uses, Spec.X, Spec.Operations, Spec.Operation;
    Constants1B();
    Four(x, 8, 8, 0x32033344, 0x9bc13ce9, 0xf5b158db, 0x2f35d494,
         8, 9, 10, 11, 0, 0, 0, 0, 0x698098d8, 0x8b44f7af, 0xffff5bb1, 0x895cd7be, 7, 12, 17, 22,
         0x3893b991, 0x70768a29, 0xe1ef0576, 0xfce4a312);
    Four(x, 12, 4, 0x3893b991, 0x70768a29, 0xe1ef0576, 0xfce4a312,
         12, 13, 14, 15, 0, 0, 0, 0, 0x6b901122, 0xfd987193, 0xa679438e, 0x49b40821, 7, 12, 17, 22,
         0xf56c7cf1, 0xd6819c6a, 0x5aa53f75, 0x374943a7);
    NoOperations(Spec.State(0xf56c7cf1, 0xd6819c6a, 0x5aa53f75, 0x374943a7), x, 16);
  }

  lemma Empty2A(x: Spec.Block)
    requires ShortBlock(x, 0x80, 0)
    ensures Spec.Operations(Spec.State(0xf56c7cf1, 0xd6819c6a, 0x5aa53f75, 0x374943a7), x, 16, 8)
         == Spec.State(0x3d1e3e6c, 0xe422531a, 0xeb41643e, 0x68b7b3e3)
  {
    hide Uses, Spec.X, Spec.Operations, Spec.Operation;
    Constants2A();
    Four(x, 16, 8, 0xf56c7cf1, 0xd6819c6a, 0x5aa53f75, 0x374943a7,
         1, 6, 11, 0, 0, 0, 0, 0x80, 0xf61e2562, 0xc040b340, 0x265e5a51, 0xe9b6c7aa, 5, 9, 14, 20,
         0x1c7d7513, 0xbd782e17, 0xc095f13a, 0x7bd57a3a);
    Four(x, 20, 4, 0x1c7d7513, 0xbd782e17, 0xc095f13a, 0x7bd57a3a,
         5, 10, 15, 4, 0, 0, 0, 0, 0xd62f105d, 0x02441453, 0xd8a1e681, 0xe7d3fbc8, 5, 9, 14, 20,
         0x3d1e3e6c, 0xe422531a, 0xeb41643e, 0x68b7b3e3);
    NoOperations(Spec.State(0x3d1e3e6c, 0xe422531a, 0xeb41643e, 0x68b7b3e3), x, 24);
  }

  lemma Empty2B(x: Spec.Block)
    requires ShortBlock(x, 0x80, 0)
    ensures Spec.Operations(Spec.State(0x3d1e3e6c, 0xe422531a, 0xeb41643e, 0x68b7b3e3), x, 24, 8)
         == Spec.State(0x13707036, 0xa2205f1f, 0x1c31c384, 0xae7813db)
  {
    hide Uses, Spec.X, Spec.Operations, Spec.Operation;
    Constants2B();
    Four(x, 24, 8, 0x3d1e3e6c, 0xe422531a, 0xeb41643e, 0x68b7b3e3,
         9, 14, 3, 8, 0, 0, 0, 0, 0x21e1cde6, 0xc33707d6, 0xf4d50d87, 0x455a14ed, 5, 9, 14, 20,
         0x306ec122, 0xa0572807, 0xa3c663da, 0xd28c77c2);
    Four(x, 28, 4, 0x306ec122, 0xa0572807, 0xa3c663da, 0xd28c77c2,
         13, 2, 7, 12, 0, 0, 0, 0, 0xa9e3e905, 0xfcefa3f8, 0x676f02d9, 0x8d2a4c8a, 5, 9, 14, 20,
         0x13707036, 0xa2205f1f, 0x1c31c384, 0xae7813db);
    NoOperations(Spec.State(0x13707036, 0xa2205f1f, 0x1c31c384, 0xae7813db), x, 32);
  }

  lemma Empty3A(x: Spec.Block)
    requires ShortBlock(x, 0x80, 0)
    ensures Spec.Operations(Spec.State(0x13707036, 0xa2205f1f, 0x1c31c384, 0xae7813db), x, 32, 8)
         == Spec.State(0x5f7a9b2e, 0xc5dc8c15, 0x91ca4cb7, 0xabc34e16)
  {
    hide Uses, Spec.X, Spec.Operations, Spec.Operation;
    Constants3A();
    Four(x, 32, 8, 0x13707036, 0xa2205f1f, 0x1c31c384, 0xae7813db,
         5, 8, 11, 14, 0, 0, 0, 0, 0xfffa3942, 0x8771f681, 0x6d9d6122, 0xfde5380c, 4, 11, 16, 23,
         0xdf63eaa1, 0x004b6669, 0x12f3e755, 0xc3689f5b);
    Four(x, 36, 4, 0xdf63eaa1, 0x004b6669, 0x12f3e755, 0xc3689f5b,
         1, 4, 7, 10, 0, 0, 0, 0, 0xa4beea44, 0x4bdecfa9, 0xf6bb4b60, 0xbebfbc70, 4, 11, 16, 23,
         0x5f7a9b2e, 0xc5dc8c15, 0x91ca4cb7, 0xabc34e16);
    NoOperations(Spec.State(0x5f7a9b2e, 0xc5dc8c15, 0x91ca4cb7, 0xabc34e16), x, 40);
  }

  lemma Empty3B(x: Spec.Block)
    requires ShortBlock(x, 0x80, 0)
    ensures Spec.Operations(Spec.State(0x5f7a9b2e, 0xc5dc8c15, 0x91ca4cb7, 0xabc34e16), x, 40, 8)
         == Spec.State(0x3f55edfd, 0xca7d2dbd, 0x68d84ea2, 0x22a31f54)
  {
    hide Uses, Spec.X, Spec.Operations, Spec.Operation;
    Constants3B();
    Four(x, 40, 8, 0x5f7a9b2e, 0xc5dc8c15, 0x91ca4cb7, 0xabc34e16,
         13, 0, 3, 6, 0, 0x80, 0, 0, 0x289b7ec6, 0xeaa127fa, 0xd4ef3085, 0x04881d05, 4, 11, 16, 23,
         0x4497169d, 0x0fe32453, 0xfd95f243, 0x76fd93d4);
    Four(x, 44, 4, 0x4497169d, 0x0fe32453, 0xfd95f243, 0x76fd93d4,
         9, 12, 15, 2, 0, 0, 0, 0, 0xd9d4d039, 0xe6db99e5, 0x1fa27cf8, 0xc4ac5665, 4, 11, 16, 23,
         0x3f55edfd, 0xca7d2dbd, 0x68d84ea2, 0x22a31f54);
    NoOperations(Spec.State(0x3f55edfd, 0xca7d2dbd, 0x68d84ea2, 0x22a31f54), x, 48);
  }

  lemma Empty4A(x: Spec.Block)
    requires ShortBlock(x, 0x80, 0)
    ensures Spec.Operations(Spec.State(0x3f55edfd, 0xca7d2dbd, 0x68d84ea2, 0x22a31f54), x, 48, 8)
         == Spec.State(0x5625a114, 0x1e77fa61, 0x392ad0d0, 0x3450f42b)
  {
    hide Uses, Spec.X, Spec.Operations, Spec.Operation;
    Constants4A();
    Four(x, 48, 8, 0x3f55edfd, 0xca7d2dbd, 0x68d84ea2, 0x22a31f54,
         0, 7, 14, 5, 0x80, 0, 0, 0, 0xf4292244, 0x432aff97, 0xab9423a7, 0xfc93a039, 6, 10, 15, 21,
         0x93aa2577, 0x561e0689, 0xcd85b8cb, 0x1688dc85);
    Four(x, 52, 4, 0x93aa2577, 0x561e0689, 0xcd85b8cb, 0x1688dc85,
         12, 3, 10, 1, 0, 0, 0, 0, 0x655b59c3, 0x8f0ccc92, 0xffeff47d, 0x85845dd1, 6, 10, 15, 21,
         0x5625a114, 0x1e77fa61, 0x392ad0d0, 0x3450f42b);
    NoOperations(Spec.State(0x5625a114, 0x1e77fa61, 0x392ad0d0, 0x3450f42b), x, 56);
  }

  lemma Empty4B(x: Spec.Block)
    requires ShortBlock(x, 0x80, 0)
    ensures Spec.Operations(Spec.State(0x5625a114, 0x1e77fa61, 0x392ad0d0, 0x3450f42b), x, 56, 8)
         == Spec.State(0x7246fad3, 0x14e45506, 0xff4ea3eb, 0x6e10a476)
  {
    hide Uses, Spec.X, Spec.Operations, Spec.Operation;
    Constants4B();
    Four(x, 56, 8, 0x5625a114, 0x1e77fa61, 0x392ad0d0, 0x3450f42b,
         8, 15, 6, 13, 0, 0, 0, 0, 0x6fa87e4f, 0xfe2ce6e0, 0xa3014314, 0x4e0811a1, 6, 10, 15, 21,
         0x474a9c8c, 0x30130182, 0x36594b14, 0xdfce00bc);
    Four(x, 60, 4, 0x474a9c8c, 0x30130182, 0x36594b14, 0xdfce00bc,
         4, 11, 2, 9, 0, 0, 0, 0, 0xf7537e82, 0xbd3af235, 0x2ad7d2bb, 0xeb86d391, 6, 10, 15, 21,
         0x7246fad3, 0x14e45506, 0xff4ea3eb, 0x6e10a476);
    NoOperations(Spec.State(0x7246fad3, 0x14e45506, 0xff4ea3eb, 0x6e10a476), x, 64);
  }

  lemma EmptyOperations(x: Spec.Block)
    requires ShortBlock(x, 0x80, 0)
    ensures Spec.Operations(Spec.INITIAL, x, 0, 64) == Spec.State(0x7246fad3, 0x14e45506, 0xff4ea3eb, 0x6e10a476)
  {
    hide Spec.Operations, ShortBlock;
    Empty1A(x);
    Empty1B(x); OperationsSplit(Spec.INITIAL, x, 0, 8, 8);
    Empty2A(x); OperationsSplit(Spec.INITIAL, x, 0, 16, 8);
    Empty2B(x); OperationsSplit(Spec.INITIAL, x, 0, 24, 8);
    Empty3A(x); OperationsSplit(Spec.INITIAL, x, 0, 32, 8);
    Empty3B(x); OperationsSplit(Spec.INITIAL, x, 0, 40, 8);
    Empty4A(x); OperationsSplit(Spec.INITIAL, x, 0, 48, 8);
    Empty4B(x); OperationsSplit(Spec.INITIAL, x, 0, 56, 8);
  }

  lemma EmptyPadded()
    ensures |Spec.Pad([])| == 64 && ShortBlock(Spec.Pad([]), 0x80, 0)
  {
    hide Spec.LittleEndian, Spec.PadLength, Le32, Spec.X;
    var x := Spec.Pad([]);
    PadLengthIs(0, 0);
    LittleEndianZero(8);
    ShortWords(x, 0x80, 0, 0);
    ShortLe32Is(0x80, 0, 0); ShortLe32Is(0, 0, 0);
  }

  /** MD5 ("") = d41d8cd98f00b204e9800998ecf8427e. */
  lemma EmptyDigest()
    ensures Spec.Process(Spec.INITIAL, Spec.Pad([])) == Spec.State(0xd98c1dd4, 0x04b2008f, 0x980980e9, 0x7e42f8ec)
    ensures Spec.Digest([]) == [0xd4, 0x1d, 0x8c, 0xd9, 0x8f, 0x00, 0xb2, 0x04,
                                  0xe9, 0x80, 0x09, 0x98, 0xec, 0xf8, 0x42, 0x7e]
  {
    hide *;
    var x := Spec.Pad([]);
    EmptyPadded();
    EmptyOperations(x);
    ProcessOne(Spec.INITIAL, x);
    CompressEnds(x, 0x7246fad3, 0x14e45506, 0xff4ea3eb, 0x6e10a476,
                 0xd98c1dd4, 0x04b2008f, 0x980980e9, 0x7e42f8ec);
    DigestIs([]);
    WordBytesOf(0xd98c1dd4); WordBytesOf(0x04b2008f);
    WordBytesOf(0x980980e9); WordBytesOf(0x7e42f8ec);
  }

  // ---------- The message "a" ----------

  lemma A1A(x: Spec.Block)
    requires ShortBlock(x, 0x8061, 0x8)
    ensures Spec.Operations(Spec.State(0x67452301, 0xefcdab89, 0x98badcfe, 0x10325476), x, 0, 8)
         == Spec.State(0x3a9d5bcc, 0xa8af6da5, 0xd31ddc83, 0xe0a07db7)
  {
    hide Uses, Spec.X, Spec.Operations, Spec.Operation;
    Constants1A();
    Four(x, 0, 8, 0x67452301, 0xefcdab89, 0x98badcfe, 0x10325476,
         0, 1, 2, 3, 0x8061, 0, 0, 0, 0xd76aa478, 0xe8c7b756, 0x242070db, 0xc1bdceee, 7, 12, 17, 22,
         0xa56017f4, 0x607d9686, 0xe65857a7, 0xf2d58361);
    Four(x, 4, 4, 0xa56017f4, 0x607d9686, 0xe65857a7, 0xf2d58361,
         4, 5, 6, 7, 0, 0, 0, 0, 0xf57c0faf, 0x4787c62a, 0xa8304613, 0xfd469501, 7, 12, 17, 22,
         0x3a9d5bcc, 0xa8af6da5, 0xd31ddc83, 0xe0a07db7);
    NoOperations(Spec.State(0x3a9d5bcc, 0xa8af6da5, 0xd31ddc83, 0xe0a07db7), x, 8);
  }

  lemma A1B(x: Spec.Block)
    requires ShortBlock(x, 0x8061, 0x8)
    ensures Spec.Operations(Spec.State(0x3a9d5bcc, 0xa8af6da5, 0xd31ddc83, 0xe0a07db7), x, 8, 8)
         == Spec.State(0x44244cf8, 0xf01e3ce2, 0x6360a45f, 0xd0fe9b27)
  {
    hide Uses, Spec.X, Spec.Operations, Spec.Operation;
    Constants1B();
    Four(x, 8, 8, 0x3a9d5bcc, 0xa8af6da5, 0xd31ddc83, 0xe0a07db7,
         8, 9, 10, 11, 0, 0, 0, 0, 0x698098d8, 0x8b44f7af, 0xffff5bb1, 0x895cd7be, 7, 12, 17, 22,
         0xbe580957, 0x68493d6a, 0xf5fdd933, 0xf386bea6);
    Four(x, 12, 4, 0xbe580957, 0x68493d6a, 0xf5fdd933, 0xf386bea6,
         12, 13, 14, 15, 0, 0, 0x8, 0, 0x6b901122, 0xfd987193, 0xa679438e, 0x49b40821, 7, 12, 17, 22,
         0x44244cf8, 0xf01e3ce2, 0x6360a45f, 0xd0fe9b27);
    NoOperations(Spec.State(0x44244cf8, 0xf01e3ce2, 0x6360a45f, 0xd0fe9b27), x, 16);
  }

  lemma A2A(x: Spec.Block)
    requires ShortBlock(x, 0x8061, 0x8)
    ensures Spec.Operations(Spec.State(0x44244cf8, 0xf01e3ce2, 0x6360a45f, 0xd0fe9b27), x, 16, 8)
         == Spec.State(0x8c444930, 0x373beab0, 0x2dacb8a3, 0x7267097a)
  {
    hide Uses, Spec.X, Spec.Operations, Spec.Operation;
    Constants2A();
    Four(x, 16, 8, 0x44244cf8, 0xf01e3ce2, 0x6360a45f, 0xd0fe9b27,
         1, 6, 11, 0, 0, 0, 0, 0x8061, 0xf61e2562, 0xc040b340, 0x265e5a51, 0xe9b6c7aa, 5, 9, 14, 20,
         0x9c341767, 0x8d25cc66, 0xe39ffd23, 0x970ab3a9);
    Four(x, 20, 4, 0x9c341767, 0x8d25cc66, 0xe39ffd23, 0x970ab3a9,
         5, 10, 15, 4, 0, 0, 0, 0, 0xd62f105d, 0x02441453, 0xd8a1e681, 0xe7d3fbc8, 5, 9, 14, 20,
         0x8c444930, 0x373beab0, 0x2dacb8a3, 0x7267097a);
    NoOperations(Spec.State(0x8c444930, 0x373beab0, 0x2dacb8a3, 0x7267097a), x, 24);
  }

  lemma A2B(x: Spec.Block)
    requires ShortBlock(x, 0x8061, 0x8)
    ensures Spec.Operations(Spec.State(0x8c444930, 0x373beab0, 0x2dacb8a3, 0x7267097a), x, 24, 8)
         == Spec.State(0x93842e98, 0x3745961f, 0x94a2ebee, 0xc7043b64)
  {
    hide Uses, Spec.X, Spec.Operations, Spec.Operation;
    Constants2B();
    Four(x, 24, 8, 0x8c444930, 0x373beab0, 0x2dacb8a3, 0x7267097a,
         9, 14, 3, 8, 0, 0x8, 0, 0, 0x21e1cde6, 0xc33707d6, 0xf4d50d87, 0x455a14ed, 5, 9, 14, 20,
         0xf175e3ad, 0xc8f891b4, 0x87b7f475, 0x9d5df67e);
    Four(x, 28, 4, 0xf175e3ad, 0xc8f891b4, 0x87b7f475, 0x9d5df67e,
         13, 2, 7, 12, 0, 0, 0, 0, 0xa9e3e905, 0xfcefa3f8, 0x676f02d9, 0x8d2a4c8a, 5, 9, 14, 20,
         0x93842e98, 0x3745961f, 0x94a2ebee, 0xc7043b64);
    NoOperations(Spec.State(0x93842e98, 0x3745961f, 0x94a2ebee, 0xc7043b64), x, 32);
  }

  lemma A3A(x: Spec.Block)
    requires ShortBlock(x, 0x8061, 0x8)
    ensures Spec.Operations(Spec.State(0x93842e98, 0x3745961f, 0x94a2ebee, 0xc7043b64), x, 32, 8)
         == Spec.State(0x35a82a7a, 0xcf7e60db, 0x5abe099c, 0x89e0ec97)
  {
    hide Uses, Spec.X, Spec.Operations, Spec.Operation;
    Constants3A();
    Four(x, 32, 8, 0x93842e98, 0x3745961f, 0x94a2ebee, 0xc7043b64,
         5, 8, 11, 14, 0, 0, 0, 0x8, 0xfffa3942, 0x8771f681, 0x6d9d6122, 0xfde5380c, 4, 11, 16, 23,
         0xbd607d1e, 0xdaf7f308, 0xbf8b4f98, 0xa6f72085);
    Four(x, 36, 4, 0xbd607d1e, 0xdaf7f308, 0xbf8b4f98, 0xa6f72085,
         1, 4, 7, 10, 0, 0, 0, 0, 0xa4beea44, 0x4bdecfa9, 0xf6bb4b60, 0xbebfbc70, 4, 11, 16, 23,
         0x35a82a7a, 0xcf7e60db, 0x5abe099c, 0x89e0ec97);
    NoOperations(Spec.State(0x35a82a7a, 0xcf7e60db, 0x5abe099c, 0x89e0ec97), x, 40);
  }

  lemma A3B(x: Spec.Block)
    requires ShortBlock(x, 0x8061, 0x8)
    ensures Spec.Operations(Spec.State(0x35a82a7a, 0xcf7e60db, 0x5abe099c, 0x89e0ec97), x, 40, 8)
         == Spec.State(0x0ac50e18, 0x918f93bb, 0x8a4a6356, 0x79ca7845)
  {
    hide Uses, Spec.X, Spec.Operations, Spec.Operation;
    Constants3B();
    Four(x, 40, 8, 0x35a82a7a, 0xcf7e60db, 0x5abe099c, 0x89e0ec97,
         13, 0, 3, 6, 0, 0x8061, 0, 0, 0x289b7ec6, 0xeaa127fa, 0xd4ef3085, 0x04881d05, 4, 11, 16, 23,
         0x75c151e2, 0xcc6f5e9e, 0x0c0e6ac4, 0x942e0c86);
    Four(x, 44, 4, 0x75c151e2, 0xcc6f5e9e, 0x0c0e6ac4, 0x942e0c86,
         9, 12, 15, 2, 0, 0, 0, 0, 0xd9d4d039, 0xe6db99e5, 0x1fa27cf8, 0xc4ac5665, 4, 11, 16, 23,
         0x0ac50e18, 0x918f93bb, 0x8a4a6356, 0x79ca7845);
    NoOperations(Spec.State(0x0ac50e18, 0x918f93bb, 0x8a4a6356, 0x79ca7845), x, 48);
  }

  lemma A4A(x: Spec.Block)
    requires ShortBlock(x, 0x8061, 0x8)
    ensures Spec.Operations(Spec.State(0x0ac50e18, 0x918f93bb, 0x8a4a6356, 0x79ca7845), x, 48, 8)
         == Spec.State(0x982c7861, 0x893501c0, 0x71fc7709, 0x6812a362)
  {
    hide Uses, Spec.X, Spec.Operations, Spec.Operation;
    Constants4A();
    Four(x, 48, 8, 0x0ac50e18, 0x918f93bb, 0x8a4a6356, 0x79ca7845,
         0, 7, 14, 5, 0x8061, 0, 0x8, 0, 0xf4292244, 0x432aff97, 0xab9423a7, 0xfc93a039, 6, 10, 15, 21,
         0xcab8fe42, 0x1ee405eb, 0x36269c3f, 0x6a4daeee);
    Four(x, 52, 4, 0xcab8fe42, 0x1ee405eb, 0x36269c3f, 0x6a4daeee,
         12, 3, 10, 1, 0, 0, 0, 0, 0x655b59c3, 0x8f0ccc92, 0xffeff47d, 0x85845dd1, 6, 10, 15, 21,
         0x982c7861, 0x893501c0, 0x71fc7709, 0x6812a362);
    NoOperations(Spec.State(0x982c7861, 0x893501c0, 0x71fc7709, 0x6812a362), x, 56);
  }

  lemma A4B(x: Spec.Block)
    requires ShortBlock(x, 0x8061, 0x8)
    ensures Spec.Operations(Spec.State(0x982c7861, 0x893501c0, 0x71fc7709, 0x6812a362), x, 56, 8)
         == Spec.State(0x52309e0b, 0xb8e94637, 0x49dee633, 0x50f422f3)
  {
    hide Uses, Spec.X, Spec.Operations, Spec.Operation;
    Constants4B();
    Four(x, 56, 8, 0x982c7861, 0x893501c0, 0x71fc7709, 0x6812a362,
         8, 15, 6, 13, 0, 0, 0, 0, 0x6fa87e4f, 0xfe2ce6e0, 0xa3014314, 0x4e0811a1, 6, 10, 15, 21,
         0xfebd62fd, 0xaa4d8ae3, 0x53e33526, 0x28936a74);
    Four(x, 60, 4, 0xfebd62fd, 0xaa4d8ae3, 0x53e33526, 0x28936a74,
         4, 11, 2, 9, 0, 0, 0, 0, 0xf7537e82, 0xbd3af235, 0x2ad7d2bb, 0xeb86d391, 6, 10, 15, 21,
         0x52309e0b, 0xb8e94637, 0x49dee633, 0x50f422f3);
    NoOperations(Spec.State(0x52309e0b, 0xb8e94637, 0x49dee633, 0x50f422f3), x, 64);
  }

  lemma AOperations(x: Spec.Block)
    requires ShortBlock(x, 0x8061, 0x8)
    ensures Spec.Operations(Spec.INITIAL, x, 0, 64) == Spec.State(0x52309e0b, 0xb8e94637, 0x49dee633, 0x50f422f3)
  {
    hide Spec.Operations, ShortBlock;
    A1A(x);
    A1B(x); OperationsSplit(Spec.INITIAL, x, 0, 8, 8);
    A2A(x); OperationsSplit(Spec.INITIAL, x, 0, 16, 8);
    A2B(x); OperationsSplit(Spec.INITIAL, x, 0, 24, 8);
    A3A(x); OperationsSplit(Spec.INITIAL, x, 0, 32, 8);
    A3B(x); OperationsSplit(Spec.INITIAL, x, 0, 40, 8);
    A4A(x); OperationsSplit(Spec.INITIAL, x, 0, 48, 8);
    A4B(x); OperationsSplit(Spec.INITIAL, x, 0, 56, 8);
  }

  lemma APadded()
    ensures |Spec.Pad([0x61])| == 64 && ShortBlock(Spec.Pad([0x61]), 0x8061, 0x8)
  {
    hide Spec.LittleEndian, Spec.PadLength, Le32, Spec.X;
    var x := Spec.Pad([0x61]);
    PadLengthIs(0, 1);
    LittleEndianEight();
    ShortWords(x, 0x61, 0x80, 8);
    ShortLe32Is(0x61, 0x80, 0); ShortLe32Is(8, 0, 0);
  }

  /** MD5 ("a") = 0cc175b9c0f1b6a831c399e269772661. */
  lemma ADigest()
    ensures Spec.Process(Spec.INITIAL, Spec.Pad([0x61])) == Spec.State(0xb975c10c, 0xa8b6f1c0, 0xe299c331, 0x61267769)
    ensures Spec.Digest([0x61]) == [0x0c, 0xc1, 0x75, 0xb9, 0xc0, 0xf1, 0xb6, 0xa8,
                                  0x31, 0xc3, 0x99, 0xe2, 0x69, 0x77, 0x26, 0x61]
  {
    hide *;
    var x := Spec.Pad([0x61]);
    APadded();
    AOperations(x);
    ProcessOne(Spec.INITIAL, x);
    CompressEnds(x, 0x52309e0b, 0xb8e94637, 0x49dee633, 0x50f422f3,
                 0xb975c10c, 0xa8b6f1c0, 0xe299c331, 0x61267769);
    DigestIs([0x61]);
    WordBytesOf(0xb975c10c); WordBytesOf(0xa8b6f1c0);
    WordBytesOf(0xe299c331); WordBytesOf(0x61267769);
  }
}
