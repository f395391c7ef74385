/** The MD5 message digest as sections 3.1 to 3.5 of RFC 1321 define it. */
module Md5Spec {
  import opened Words

  /** The four-word digest state. */
  datatype State = State(a: bv32, b: bv32, c: bv32, d: bv32)

  // ---------- Section 3.4: the auxiliary functions and the table ----------

  function F(x: bv32, y: bv32, z: bv32): bv32 { (x & y) | (!x & z) }

  function G(x: bv32, y: bv32, z: bv32): bv32 { (x & z) | (y & !z) }

  function H(x: bv32, y: bv32, z: bv32): bv32 { x ^ y ^ z }

  function I(x: bv32, y: bv32, z: bv32): bv32 { y ^ (x | !z) }

  /** The function of the round that operation i belongs to. */
  function Auxiliary(i: nat, x: bv32, y: bv32, z: bv32): bv32 {
    if i < 16 then F(x, y, z) else if i < 32 then G(x, y, z) else if i < 48 then H(x, y, z) else I(x, y, z)
  }

  /** Which of the sixteen words of the block operation i reads. */
  function WordIndex(i: nat): (k: nat)
    ensures k < 16
  {
    if i < 16 then i % 16 else if i < 32 then (5 * i + 1) % 16 else if i < 48 then (3 * i + 5) % 16 else 7 * i % 16
  }

  /** By how many bits operation i rotates. */
  function Amount(i: nat): (s: nat)
    ensures 0 < s < 32
  {
    if i < 16 then [7, 12, 17, 22][i % 4]
    else if i < 32 then [5, 9, 14, 20][i % 4]
    else if i < 48 then [4, 11, 16, 23][i % 4]
    else [6, 10, 15, 21][i % 4]
  }

  /** T[i + 1] of the RFC: the integer part of 4294967296 times the absolute value of sin(i + 1). */
  function SineTable(i: nat): bv32 {
    if i < 16 then Sines1(i) else if i < 32 then Sines2(i) else if i < 48 then Sines3(i) else Sines4(i)
  }

  function Sines1(i: nat): bv32 {
    match i
    case 0 => 0xd76aa478 case 1 => 0xe8c7b756 case 2 => 0x242070db case 3 => 0xc1bdceee
    case 4 => 0xf57c0faf case 5 => 0x4787c62a case 6 => 0xa8304613 case 7 => 0xfd469501
    case 8 => 0x698098d8 case 9 => 0x8b44f7af case 10 => 0xffff5bb1 case 11 => 0x895cd7be
    case 12 => 0x6b901122 case 13 => 0xfd987193 case 14 => 0xa679438e case _ => 0x49b40821
  }

  function Sines2(i: nat): bv32 {
    match i
    case 16 => 0xf61e2562 case 17 => 0xc040b340 case 18 => 0x265e5a51 case 19 => 0xe9b6c7aa
    case 20 => 0xd62f105d case 21 => 0x02441453 case 22 => 0xd8a1e681 case 23 => 0xe7d3fbc8
    case 24 => 0x21e1cde6 case 25 => 0xc33707d6 case 26 => 0xf4d50d87 case 27 => 0x455a14ed
    case 28 => 0xa9e3e905 case 29 => 0xfcefa3f8 case 30 => 0x676f02d9 case _ => 0x8d2a4c8a
  }

  function Sines3(i: nat): bv32 {
    match i
    case 32 => 0xfffa3942 case 33 => 0x8771f681 case 34 => 0x6d9d6122 case 35 => 0xfde5380c
    case 36 => 0xa4beea44 case 37 => 0x4bdecfa9 case 38 => 0xf6bb4b60 case 39 => 0xbebfbc70
    case 40 => 0x289b7ec6 case 41 => 0xeaa127fa case 42 => 0xd4ef3085 case 43 => 0x04881d05
    case 44 => 0xd9d4d039 case 45 => 0xe6db99e5 case 46 => 0x1fa27cf8 case _ => 0xc4ac5665
  }

  function Sines4(i: nat): bv32 {
    match i
    case 48 => 0xf4292244 case 49 => 0x432aff97 case 50 => 0xab9423a7 case 51 => 0xfc93a039
    case 52 => 0x655b59c3 case 53 => 0x8f0ccc92 case 54 => 0xffeff47d case 55 => 0x85845dd1
    case 56 => 0x6fa87e4f case 57 => 0xfe2ce6e0 case 58 => 0xa3014314 case 59 => 0x4e0811a1
    case 60 => 0xf7537e82 case 61 => 0xbd3af235 case 62 => 0x2ad7d2bb case _ => 0xeb86d391
  }

  /** The operation [abcd k s i]: a = b + ((a + f(b, c, d) + X[k] + T[i]) <<< s). */
  function NewWord(a: bv32, b: bv32, f: bv32, x: bv32, t: bv32, s: nat): bv32
    requires 0 < s < 32
  {
    Add(b, CircularShift(Add(Add(Add(a, f), x), t), s))
  }

  type Block = s: seq<bv8> | |s| == 64 witness seq(64, _ => 0)

  /** Word k of a block, decoded low-order byte first (section 2). */
  function X(block: Block, k: nat): bv32
    requires k < 16
  {
    WordAt(block, 4 * k)
  }

  /** Operation i, after which the four words have moved up one role. */
  function Operation(st: State, block: Block, i: nat): State {
    var f := Auxiliary(i, st.b, st.c, st.d);
    State(st.d, NewWord(st.a, st.b, f, X(block, WordIndex(i)), SineTable(i), Amount(i)), st.b, st.c)
  }

  /** n operations from operation i on. */
  function Operations(st: State, block: Block, i: nat, n: nat): State
    decreases n, block
  {
    if n == 0 then st else Operations(Operation(st, block, i), block, i + 1, n - 1)
  }

  /** All four rounds, then the increment by the values the words had before the block. */
  function Compress(st: State, block: Block): State {
    var r := Operations(st, block, 0, 64);
    State(Add(r.a, st.a), Add(r.b, st.b), Add(r.c, st.c), Add(r.d, st.d))
  }

  // ---------- Sections 3.1 to 3.3 and 3.5 ----------

  const INITIAL := State(0x6745_2301, 0xefcd_ab89, 0x98ba_dcfe, 0x1032_5476)

  /** The message processed in 64-byte blocks. */
  function Process(st: State, data: seq<bv8>): State
    requires |data| % 64 == 0
    decreases data
  {
    if data == [] then st else Process(Compress(st, data[..64]), data[64..])
  }

  function Zeros(n: nat): (s: seq<bv8>)
    ensures |s| == n && forall i :: 0 <= i < n ==> s[i] == 0
  {
    seq(n, _ => 0)
  }

  function LowByte(x: nat): bv8 { (x % 256) as bv8 }

  /** A number modulo 256^n as n bytes, low-order byte first. */
  function LittleEndian(x: nat, n: nat): (s: seq<bv8>)
    ensures |s| == n
    decreases n, x
  {
    if n == 0 then [] else [LowByte(x)] + LittleEndian(x / 256, n - 1)
  }

  /** How many zero bytes bring the message and the 0x80 byte to 56 modulo 64 bytes. */
  function PadLength(n: nat): (k: nat)
    ensures k < 64 && (n + 1 + k) % 64 == 56
  {
    (119 - n % 64) % 64
  }

  lemma PaddedWhole(n: nat)
    ensures (n + 1 + PadLength(n) + 8) % 64 == 0
  {}

  /** The padded message: a one bit, zero bits, and the bit length modulo 2^64. */
  function Pad(message: seq<bv8>): (s: seq<bv8>)
    ensures |s| % 64 == 0
  {
    PaddedWhole(|message|);
    message + [0x80] + Zeros(PadLength(|message|)) + LittleEndian(8 * |message|, 8)
  }

  /** The digest: the words A, B, C, D, each low-order byte first. */
  function Digest(message: seq<bv8>): (digest: seq<bv8>)
    ensures |digest| == 16
  {
    var st := Process(INITIAL, Pad(message));
    LeBytes(st.a) + LeBytes(st.b) + LeBytes(st.c) + LeBytes(st.d)
  }
}
