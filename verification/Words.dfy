/** 32-bit words as the hashes use them. Operators get names so that a proof can hide their meaning and
    reason about them as algebra; the laws it needs are stated here, each checked on the bits once. */
module Words {
  /** A 32-bit unsigned integer, for counters and tokens. */
  type u32 = x: int | 0 <= x < 0x1_0000_0000

  /** Pieces of text put together again. */
  function Flatten(chunks: seq<seq<bv8>>): seq<bv8> {
    if chunks == [] then [] else chunks[0] + Flatten(chunks[1..])
  }

  lemma FlattenNone()
    ensures Flatten([]) == []
  {}

  lemma FlattenStep(chunks: seq<seq<bv8>>, i: nat)
    requires i < |chunks|
    ensures Flatten(chunks[i..]) == chunks[i] + Flatten(chunks[i + 1..])
  {
    assert chunks[i..][1..] == chunks[i + 1..];
  }

  function Xor(x: bv32, y: bv32): bv32 { x ^ y }

  lemma XorZero(x: bv32)
    ensures Xor(x, 0) == x && Xor(0, x) == x && Xor(x, x) == 0
  {}

  lemma XorCancel(x: bv32, y: bv32)
    ensures Xor(Xor(x, y), y) == x
    ensures Xor(x, Xor(x, y)) == y
  {}

  lemma XorComm(x: bv32, y: bv32)
    ensures Xor(x, y) == Xor(y, x)
  {}

  lemma XorAssoc(x: bv32, y: bv32, z: bv32)
    ensures Xor(Xor(x, y), z) == Xor(x, Xor(y, z))
  {}

  lemma XorSwap(x: bv32, y: bv32, z: bv32, w: bv32)
    ensures Xor(Xor(x, y), Xor(z, w)) == Xor(Xor(x, z), Xor(y, w))
  {
    hide *;
    XorAssoc(x, y, Xor(z, w));
    XorAssoc(y, z, w);
    XorComm(y, z);
    XorAssoc(z, y, w);
    XorAssoc(x, z, Xor(y, w));
  }

  function Not(x: bv32): bv32 { !x }

  lemma NotNot(x: bv32)
    ensures Not(Not(x)) == x
    ensures Not(0) == 0xffff_ffff
  {}

  function Add(x: bv32, y: bv32): bv32 { x + y }

  function Sub(x: bv32, y: bv32): bv32 { x - y }

  lemma AddIs(x: bv32, y: bv32)
    ensures Add(x, y) == x + y
  {}

  lemma SubIs(x: bv32, y: bv32)
    ensures Sub(x, y) == x - y
  {}

  lemma SubAddRaw(x: bv32, y: bv32)
    ensures Add(x - y, y) == x && Sub(x + y, y) == x
  {}

  lemma SubAdd(x: bv32, y: bv32)
    ensures Add(Sub(x, y), y) == x
    ensures Sub(Add(x, y), y) == x
  {
    hide *;
    AddIs(x, y); SubIs(x, y);
    SubAddRaw(x, y);
  }

  lemma AddAssocRaw(x: bv32, y: bv32, z: bv32)
    ensures Add(x + y, z) == Add(x, y + z)
  {}

  lemma AddAssoc(x: bv32, y: bv32, z: bv32)
    ensures Add(Add(x, y), z) == Add(x, Add(y, z))
  {
    hide *;
    AddIs(x, y); AddIs(y, z);
    AddAssocRaw(x, y, z);
  }

  lemma AddComm(x: bv32, y: bv32)
    ensures Add(x, y) == Add(y, x)
  {}

  /** A key byte read through a signed char and widened. */
  function SignExtend32(b: bv8): bv32 { if b & 0x80 == 0 then b as bv32 else 0xffff_ff00 | b as bv32 }

  function SignExtend64(b: bv8): bv64 { if b & 0x80 == 0 then b as bv64 else 0xffff_ffff_ffff_ff00 | b as bv64 }

  /** Rotation to the left by k bits. */
  function Rot(x: bv32, k: nat): bv32
    requires 0 < k < 32
  {
    (x << k) | (x >> (32 - k))
  }

  function CircularShift(x: bv32, k: nat): bv32
    requires 0 < k < 32
  {
    x.RotateLeft(k)
  }

  lemma RotIsCircular(x: bv32, k: nat)
    requires 0 < k < 32
    ensures Rot(x, k) == CircularShift(x, k)
  {
    match k
    case 1 => assert Rot(x, 1) == x.RotateLeft(1); case 2 => assert Rot(x, 2) == x.RotateLeft(2);
    case 3 => assert Rot(x, 3) == x.RotateLeft(3); case 4 => assert Rot(x, 4) == x.RotateLeft(4);
    case 5 => assert Rot(x, 5) == x.RotateLeft(5); case 6 => assert Rot(x, 6) == x.RotateLeft(6);
    case 7 => assert Rot(x, 7) == x.RotateLeft(7); case 8 => assert Rot(x, 8) == x.RotateLeft(8);
    case 9 => assert Rot(x, 9) == x.RotateLeft(9); case 10 => assert Rot(x, 10) == x.RotateLeft(10);
    case 11 => assert Rot(x, 11) == x.RotateLeft(11); case 12 => assert Rot(x, 12) == x.RotateLeft(12);
    case 13 => assert Rot(x, 13) == x.RotateLeft(13); case 14 => assert Rot(x, 14) == x.RotateLeft(14);
    case 15 => assert Rot(x, 15) == x.RotateLeft(15); case 16 => assert Rot(x, 16) == x.RotateLeft(16);
    case 17 => assert Rot(x, 17) == x.RotateLeft(17); case 18 => assert Rot(x, 18) == x.RotateLeft(18);
    case 19 => assert Rot(x, 19) == x.RotateLeft(19); case 20 => assert Rot(x, 20) == x.RotateLeft(20);
    case 21 => assert Rot(x, 21) == x.RotateLeft(21); case 22 => assert Rot(x, 22) == x.RotateLeft(22);
    case 23 => assert Rot(x, 23) == x.RotateLeft(23); case 24 => assert Rot(x, 24) == x.RotateLeft(24);
    case 25 => assert Rot(x, 25) == x.RotateLeft(25); case 26 => assert Rot(x, 26) == x.RotateLeft(26);
    case 27 => assert Rot(x, 27) == x.RotateLeft(27); case 28 => assert Rot(x, 28) == x.RotateLeft(28);
    case 29 => assert Rot(x, 29) == x.RotateLeft(29); case 30 => assert Rot(x, 30) == x.RotateLeft(30);
    case 31 => assert Rot(x, 31) == x.RotateLeft(31);
  }

  lemma CircularIs(x: bv32, k: nat)
    requires 0 < k < 32
    ensures CircularShift(x, k) == x.RotateLeft(k)
  {}

  lemma XorIs(x: bv32, y: bv32)
    ensures Xor(x, y) == x ^ y
  {}

  /** A byte widened to a word, and moved to the second, third or fourth byte of it. */
  function Wide(b: bv8): bv32 { b as bv32 }

  function Wide8(b: bv8): bv32 { b as bv32 << 8 }

  function Wide16(b: bv8): bv32 { b as bv32 << 16 }

  function Wide24(b: bv8): bv32 { b as bv32 << 24 }

  /** Four bytes read as a little-endian word. */
  function Le32(a: bv8, b: bv8, c: bv8, d: bv8): bv32 {
    a as bv32 | (b as bv32 << 8) | (c as bv32 << 16) | (d as bv32 << 24)
  }

  function Byte0(w: bv32): bv8 { (w & 0xff) as bv8 }

  function Byte1(w: bv32): bv8 { ((w >> 8) & 0xff) as bv8 }

  function Byte2(w: bv32): bv8 { ((w >> 16) & 0xff) as bv8 }

  function Byte3(w: bv32): bv8 { (w >> 24) as bv8 }

  lemma PiecesAre(a: bv8)
    ensures Wide(a) == a as bv32 && Wide8(a) == a as bv32 << 8
    ensures Wide16(a) == a as bv32 << 16 && Wide24(a) == a as bv32 << 24
  {}

  lemma Le32Is(a: bv8, b: bv8, c: bv8, d: bv8)
    ensures Le32(a, b, c, d) == a as bv32 | (b as bv32 << 8) | (c as bv32 << 16) | (d as bv32 << 24)
  {}

  lemma AddPiecesRaw(a: bv8, b: bv8, c: bv8, d: bv8)
    ensures Add(a as bv32, b as bv32 << 8) == a as bv32 | (b as bv32 << 8)
    ensures Add(a as bv32 | (b as bv32 << 8), c as bv32 << 16)
         == a as bv32 | (b as bv32 << 8) | (c as bv32 << 16)
    ensures Add(a as bv32 | (b as bv32 << 8) | (c as bv32 << 16), d as bv32 << 24)
         == a as bv32 | (b as bv32 << 8) | (c as bv32 << 16) | (d as bv32 << 24)
  {}

  /** Adding up the four bytes, each moved to its place, gives the word. */
  lemma AddPieces(a: bv8, b: bv8, c: bv8, d: bv8)
    ensures Add(Add(Add(Wide(a), Wide8(b)), Wide16(c)), Wide24(d)) == Le32(a, b, c, d)
  {
    hide *;
    PiecesAre(a); PiecesAre(b); PiecesAre(c); PiecesAre(d);
    Le32Is(a, b, c, d);
    AddPiecesRaw(a, b, c, d);
  }

  lemma Wide24Zero()
    ensures Wide(0) == Wide8(0) == Wide16(0) == Wide24(0) == 0
  {}

  lemma AddZero(x: bv32)
    ensures Add(x, 0) == x
  {}

  /** A 16-bit little-endian half-word, and the same moved to the upper half of a word. */
  function Half32(a: bv8, b: bv8): bv32 { a as bv32 | (b as bv32 << 8) }

  function Upper(x: bv32): bv32 { x << 16 }

  lemma HalvesRaw(a: bv8, b: bv8, c: bv8, d: bv8)
    ensures Upper(c as bv32 | (d as bv32 << 8)) == (c as bv32 << 16) | (d as bv32 << 24)
    ensures Add(a as bv32 | (b as bv32 << 8), (c as bv32 << 16) | (d as bv32 << 24))
         == a as bv32 | (b as bv32 << 8) | (c as bv32 << 16) | (d as bv32 << 24)
  {}

  lemma Half32Is(a: bv8, b: bv8)
    ensures Half32(a, b) == a as bv32 | (b as bv32 << 8)
  {}

  lemma AddHalves(a: bv8, b: bv8, c: bv8, d: bv8)
    ensures Add(Half32(a, b), Upper(Half32(c, d))) == Le32(a, b, c, d)
  {
    hide *;
    Half32Is(a, b); Half32Is(c, d);
    HalvesRaw(a, b, c, d);
    Le32Is(a, b, c, d);
  }

  lemma ShortPieces(a: bv8, b: bv8)
    ensures Half32(a, b) == Le32(a, b, 0, 0) && Wide(a) == Le32(a, 0, 0, 0)
  {}

  /** Bytes added one at a time, lowest first, add the word. */
  lemma AddAscending(x: bv32, a: bv8, b: bv8, c: bv8, d: bv8)
    ensures Add(Add(Add(Add(x, Wide(a)), Wide8(b)), Wide16(c)), Wide24(d)) == Add(x, Le32(a, b, c, d))
  {
    hide *;
    var p, q := Add(Wide(a), Wide8(b)), Add(Add(Wide(a), Wide8(b)), Wide16(c));
    AddAssoc(x, Wide(a), Wide8(b)); AddAssoc(x, p, Wide16(c)); AddAssoc(x, q, Wide24(d));
    AddPieces(a, b, c, d);
  }

  /** Bytes added one at a time, highest first, add the word. */
  lemma AddDescending(x: bv32, a: bv8, b: bv8, c: bv8, d: bv8)
    ensures Add(Add(Add(Add(x, Wide24(d)), Wide16(c)), Wide8(b)), Wide(a)) == Add(x, Le32(a, b, c, d))
  {
    hide *;
    var p, q, r, t := Wide(a), Wide8(b), Wide16(c), Wide24(d);
    AddAssoc(x, t, r); AddComm(t, r);
    AddAssoc(x, Add(r, t), q); AddComm(Add(r, t), q);
    AddAssoc(x, Add(q, Add(r, t)), p); AddComm(Add(q, Add(r, t)), p);
    AddAssoc(p, q, Add(r, t)); AddAssoc(Add(p, q), r, t);
    AddPieces(a, b, c, d);
  }

  /** A third byte and the half-word below it, added in either order, add the three-byte word. */
  lemma AddThird(x: bv32, a: bv8, b: bv8, c: bv8)
    ensures Add(Add(x, Wide16(c)), Half32(a, b)) == Add(x, Le32(a, b, c, 0))
  {
    hide *;
    Half32Is(a, b); PiecesAre(c); ShortLe32Is(a, b, c);
    AddPiecesRaw(a, b, c, 0);
    AddAssoc(x, Wide16(c), Half32(a, b));
    AddComm(Wide16(c), Half32(a, b));
  }

  function Mask(x: bv32, m: bv32): bv32 { x & m }

  lemma MaskRaw(a: bv8, b: bv8, c: bv8, d: bv8)
    ensures Mask(a as bv32 | (b as bv32 << 8) | (c as bv32 << 16) | (d as bv32 << 24), 0xff_ffff)
         == a as bv32 | (b as bv32 << 8) | (c as bv32 << 16)
    ensures Mask(a as bv32 | (b as bv32 << 8) | (c as bv32 << 16) | (d as bv32 << 24), 0xffff)
         == a as bv32 | (b as bv32 << 8)
    ensures Mask(a as bv32 | (b as bv32 << 8) | (c as bv32 << 16) | (d as bv32 << 24), 0xff)
         == a as bv32
  {}

  lemma ShortLe32Is(a: bv8, b: bv8, c: bv8)
    ensures Le32(a, b, c, 0) == a as bv32 | (b as bv32 << 8) | (c as bv32 << 16)
    ensures Le32(a, b, 0, 0) == a as bv32 | (b as bv32 << 8)
    ensures Le32(a, 0, 0, 0) == a as bv32
  {}

  /** Masking off the upper bytes of a word leaves the word of the lower bytes alone. */
  lemma Le32Masked(a: bv8, b: bv8, c: bv8, d: bv8)
    ensures Mask(Le32(a, b, c, d), 0xff_ffff) == Le32(a, b, c, 0)
    ensures Mask(Le32(a, b, c, d), 0xffff) == Le32(a, b, 0, 0)
    ensures Mask(Le32(a, b, c, d), 0xff) == Le32(a, 0, 0, 0)
  {
    hide *;
    Le32Is(a, b, c, d);
    ShortLe32Is(a, b, c);
    MaskRaw(a, b, c, d);
  }

  lemma Le32OfBytes(w: bv32)
    ensures Le32(Byte0(w), Byte1(w), Byte2(w), Byte3(w)) == w
  {}

  lemma BytesOfLe32(a: bv8, b: bv8, c: bv8, d: bv8)
    ensures Byte0(Le32(a, b, c, d)) == a
    ensures Byte1(Le32(a, b, c, d)) == b
    ensures Byte2(Le32(a, b, c, d)) == c
    ensures Byte3(Le32(a, b, c, d)) == d
  {}

  lemma Le32Injective(a: bv8, b: bv8, c: bv8, d: bv8, e: bv8, f: bv8, g: bv8, h: bv8)
    requires Le32(a, b, c, d) == Le32(e, f, g, h)
    ensures a == e && b == f && c == g && d == h
  {
    hide *;
    BytesOfLe32(a, b, c, d);
    BytesOfLe32(e, f, g, h);
  }

  /** The little-endian word at position i of a byte string. */
  function WordAt(s: seq<bv8>, i: nat): bv32
    requires i + 4 <= |s|
  {
    Le32(s[i], s[i + 1], s[i + 2], s[i + 3])
  }

  /** The four bytes of a word, low-order byte first. */
  function LeBytes(w: bv32): (s: seq<bv8>)
    ensures |s| == 4
  {
    [Byte0(w), Byte1(w), Byte2(w), Byte3(w)]
  }

  lemma WordAtLeBytes(w: bv32)
    ensures WordAt(LeBytes(w), 0) == w
  {
    hide Le32, Byte0, Byte1, Byte2, Byte3;
    Le32OfBytes(w);
  }

  // ---------- Words as numbers ----------

  lemma NextByte(x: bv8)
    requires x < 0xff
    ensures (x + 1) as nat == 1 + x as nat
  {}

  lemma SameByte(x: bv8, n: nat)
    requires x as nat == n
    ensures n < 0x100 && n as bv8 == x
  {}

  lemma {:induction false} ByteValue(n: nat)
    requires n < 0x100
    ensures (n as bv8) as nat == n
  {
    if n > 0 {
      var x := (n - 1) as bv8;
      ByteValue(n - 1);
      LastByte(x);
      NextByte(x);
      SameByte(x + 1, n);
    }
  }

  lemma LastByte(x: bv8)
    ensures x as nat < 0xff ==> x < 0xff
  {}

  lemma Le32ValueRaw(a: bv8, b: bv8, c: bv8, d: bv8)
    ensures (a as bv32 | (b as bv32 << 8) | (c as bv32 << 16) | (d as bv32 << 24)) as nat
         == a as nat + 0x100 * (b as nat) + 0x1_0000 * (c as nat) + 0x100_0000 * (d as nat)
  {}

  lemma Le32Value(a: bv8, b: bv8, c: bv8, d: bv8)
    ensures Le32(a, b, c, d) as nat
         == a as nat + 0x100 * (b as nat) + 0x1_0000 * (c as nat) + 0x100_0000 * (d as nat)
  {
    hide *;
    Le32Is(a, b, c, d);
    Le32ValueRaw(a, b, c, d);
  }

  lemma SameWord(x: bv32, n: nat)
    requires x as nat == n
    ensures n < 0x1_0000_0000 && n as bv32 == x
  {}

  lemma FourDigits(n: nat) returns (p: nat, q: nat, r: nat, t: nat)
    requires n < 0x1_0000_0000
    ensures p < 0x100 && q < 0x100 && r < 0x100 && t < 0x100
    ensures n == p + 0x100 * q + 0x1_0000 * r + 0x100_0000 * t
  {
    var n1, n2 := n / 0x100, n / 0x100 / 0x100;
    p, q, r, t := n % 0x100, n1 % 0x100, n2 % 0x100, n2 / 0x100;
  }

  /** A number below 2^32 is the value of its word. */
  lemma WordValue(n: nat)
    requires n < 0x1_0000_0000
    ensures (n as bv32) as nat == n
  {
    hide *;
    var p, q, r, t := FourDigits(n);
    ByteValue(p); ByteValue(q); ByteValue(r); ByteValue(t);
    Le32Value(p as bv8, q as bv8, r as bv8, t as bv8);
    SameWord(Le32(p as bv8, q as bv8, r as bv8, t as bv8), n);
  }

  /** The conversion of a length to 32 bits. */
  function Truncate32(n: nat): bv32 {
    (n % 0x1_0000_0000) as bv32
  }

  lemma Truncate32Value(n: nat)
    ensures Truncate32(n) as nat == n % 0x1_0000_0000
    ensures n < 0x1_0000_0000 ==> Truncate32(n) == n as bv32
  {
    WordValue(n % 0x1_0000_0000);
  }

  lemma Truncate32Iff(m: nat, n: nat)
    ensures Truncate32(m) == Truncate32(n) <==> m % 0x1_0000_0000 == n % 0x1_0000_0000
  {
    Truncate32Value(m); Truncate32Value(n);
  }

  lemma LiteralLength(n: nat, l: bv32)
    requires n < 0x1_0000_0000 && l as nat == n
    ensures Truncate32(n) == l
  {
    hide *;
    Truncate32Value(n);
    SameWord(l, n);
  }

  /** Sign extension is subtraction of 256 from the bytes that are negative as signed char. */
  lemma SignExtended(b: bv8)
    ensures SignExtend32(b) == if b < 0x80 then b as bv32 else b as bv32 - 0x100
    ensures SignExtend64(b) == if b < 0x80 then b as bv64 else b as bv64 - 0x100
  {}
}
