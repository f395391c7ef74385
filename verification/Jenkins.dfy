/** Bob Jenkins' lookup3 hash. The code reads the key as 32-bit words, as 16-bit halves or as bytes,
    depending on the alignment of its address; all three must compute one function of the key's bytes. */
module Jenkins {
  import opened Words

  /** The internal state. */
  datatype State = State(a: bv32, b: bv32, c: bv32)

  /** The reversible mixing of the internal state after a whole block. */
  function Mix(s: State): State {
    var (a, b, c) := (s.a, s.b, s.c);
    var a := Sub(a, c);  var a := Xor(a, Rot(c, 4));  var c := Add(c, b);
    var b := Sub(b, a);  var b := Xor(b, Rot(a, 6));  var a := Add(a, c);
    var c := Sub(c, b);  var c := Xor(c, Rot(b, 8));  var b := Add(b, a);
    var a := Sub(a, c);  var a := Xor(a, Rot(c, 16)); var c := Add(c, b);
    var b := Sub(b, a);  var b := Xor(b, Rot(a, 19)); var a := Add(a, c);
    var c := Sub(c, b);  var c := Xor(c, Rot(b, 4));  var b := Add(b, a);
    State(a, b, c)
  }

  /** The final mixing of the last block. */
  function Final(s: State): State {
    var (a, b, c) := (s.a, s.b, s.c);
    var c := Xor(c, b); var c := Sub(c, Rot(b, 14));
    var a := Xor(a, c); var a := Sub(a, Rot(c, 11));
    var b := Xor(b, a); var b := Sub(b, Rot(a, 25));
    var c := Xor(c, b); var c := Sub(c, Rot(b, 16));
    var a := Xor(a, c); var a := Sub(a, Rot(c, 4));
    var b := Xor(b, a); var b := Sub(b, Rot(a, 14));
    var c := Xor(c, b); var c := Sub(c, Rot(b, 24));
    State(a, b, c)
  }

  // ---------- Reference: one function of the bytes of the key ----------

  function ByteOrZero(block: seq<bv8>, i: nat): bv8 {
    if i < |block| then block[i] else 0
  }

  /** The little-endian word at byte i of a block, bytes past the end of the block read as zero. */
  function PaddedWord(block: seq<bv8>, i: nat): bv32 {
    Le32(ByteOrZero(block, i), ByteOrZero(block, i + 1), ByteOrZero(block, i + 2), ByteOrZero(block, i + 3))
  }

  function AddBlock(s: State, block: seq<bv8>): State {
    State(Add(s.a, PaddedWord(block, 0)), Add(s.b, PaddedWord(block, 4)), Add(s.c, PaddedWord(block, 8)))
  }

  /** All blocks but the last are added and mixed; a last block of 1 to 12 bytes is added and finished. */
  function Run(s: State, key: seq<bv8>): State
    decreases key
  {
    if |key| > 12 then Run(Mix(AddBlock(s, key[..12])), key[12..])
    else if key == [] then s
    else Final(AddBlock(s, key))
  }

  function StartWord(length: bv32): bv32 { 0xdead_beef + length + 13 }

  function Init(n: nat): State {
    var x := StartWord(Truncate32(n));
    State(x, x, x)
  }

  function HashSpec(key: seq<bv8>): bv32 {
    Run(Init(|key|), key).c
  }

  // ---------- The three reading paths ----------

  // The key is the range [at, at + length) of a memory made of whole aligned words. Only the first path
  // reads past the end of the key, never past the aligned word that holds its last byte.

  ghost predicate InMemory(mem: seq<bv8>, at: nat, length: nat) {
    |mem| % 4 == 0 && at + length <= |mem|
  }

  function HalfAt(mem: seq<bv8>, i: nat): bv32
    requires i + 2 <= |mem|
  {
    Half32(mem[i], mem[i + 1])
  }

  lemma PaddedWordFull(mem: seq<bv8>, at: nat, n: nat, i: nat)
    requires at + n <= |mem| && i + 4 <= n
    ensures PaddedWord(mem[at..at + n], i) == WordAt(mem, at + i)
  {
    hide Le32;
  }

  lemma AddBlockFull(s: State, mem: seq<bv8>, at: nat)
    requires at + 12 <= |mem|
    ensures AddBlock(s, mem[at..at + 12])
         == State(Add(s.a, WordAt(mem, at)), Add(s.b, WordAt(mem, at + 4)), Add(s.c, WordAt(mem, at + 8)))
  {
    hide PaddedWord, WordAt, Add;
    PaddedWordFull(mem, at, 12, 0); PaddedWordFull(mem, at, 12, 4); PaddedWordFull(mem, at, 12, 8);
  }

  lemma RunBlock(s: State, mem: seq<bv8>, at: nat, length: nat)
    requires length > 12 && at + length <= |mem|
    ensures Run(s, mem[at..at + length])
         == Run(Mix(AddBlock(s, mem[at..at + 12])), mem[at + 12..at + length])
  {
    hide Mix, AddBlock;
    var key := mem[at..at + length];
    assert key[..12] == mem[at..at + 12] && key[12..] == mem[at + 12..at + length];
  }

  lemma RunLast(s: State, key: seq<bv8>)
    requires |key| <= 12
    ensures Run(s, key) == if key == [] then s else Final(AddBlock(s, key))
  {
    hide Final, AddBlock;
  }

  /** A word at an offset i into an aligned last block, cut down to the n - i bytes the block has there. */
  lemma MaskedWord(mem: seq<bv8>, at: nat, n: nat, i: nat)
    requires at + n <= |mem| && i < n && at + i + 4 <= |mem|
    ensures n - i == 3 ==> PaddedWord(mem[at..at + n], i) == Mask(WordAt(mem, at + i), 0xff_ffff)
    ensures n - i == 2 ==> PaddedWord(mem[at..at + n], i) == Mask(WordAt(mem, at + i), 0xffff)
    ensures n - i == 1 ==> PaddedWord(mem[at..at + n], i) == Mask(WordAt(mem, at + i), 0xff)
  {
    hide Le32, Mask;
    Le32Masked(mem[at + i], mem[at + i + 1], mem[at + i + 2], mem[at + i + 3]);
  }

  lemma PaddedWordPast(block: seq<bv8>, i: nat)
    requires |block| <= i
    ensures PaddedWord(block, i) == 0
  {}

  /** What the aligned path adds for the word at offset i of the last block. */
  lemma WordOfAligned(mem: seq<bv8>, k: nat, n: nat, i: nat)
    requires k % 4 == i % 4 == 0 && InMemory(mem, k, n)
    ensures var w := PaddedWord(mem[k..k + n], i);
      if n <= i then w == 0
      else k + i + 4 <= |mem| && w == if i + 4 <= n then WordAt(mem, k + i)
        else Mask(WordAt(mem, k + i), if n - i == 3 then 0xff_ffff else if n - i == 2 then 0xffff else 0xff)
  {
    hide PaddedWord, WordAt, Mask;
    if n <= i {
      PaddedWordPast(mem[k..k + n], i);
    } else if i + 4 <= n {
      PaddedWordFull(mem, k, n, i);
    } else {
      MaskedWord(mem, k, n, i);
    }
  }

  /** One word of the last block, added from an aligned 32-bit read with the bytes past the key masked off. */
  method AddMaskedWord(mem: seq<bv8>, k: nat, n: nat, i: nat, x: bv32) returns (y: bv32)
    requires k % 4 == i % 4 == 0 && InMemory(mem, k, n)
    ensures y == Add(x, PaddedWord(mem[k..k + n], i))
  {
    hide PaddedWord, WordAt, Add, Mask;
    WordOfAligned(mem, k, n, i);
    AddZero(x);
    if n >= i + 4 {
      y := Add(x, WordAt(mem, k + i));
    } else if n == i + 3 {
      y := Add(x, Mask(WordAt(mem, k + i), 0xff_ffff));
    } else if n == i + 2 {
      y := Add(x, Mask(WordAt(mem, k + i), 0xffff));
    } else if n == i + 1 {
      y := Add(x, Mask(WordAt(mem, k + i), 0xff));
    } else {
      y := x;
    }
  }

  /** What adding pieces of a last block in the 16-bit path adds up to. */
  lemma HalvesOfBlock(mem: seq<bv8>, k: nat, n: nat, i: nat, x: bv32)
    requires k + n <= |mem| && i < n
    ensures var w := PaddedWord(mem[k..k + n], i);
      && (i + 4 <= n ==> Add(HalfAt(mem, k + i), Upper(HalfAt(mem, k + i + 2))) == w)
      && (n - i == 3 ==> Add(Add(x, Wide16(mem[k + i + 2])), HalfAt(mem, k + i)) == Add(x, w))
      && (n - i == 2 ==> HalfAt(mem, k + i) == w)
      && (n - i == 1 ==> Wide(mem[k + i]) == w)
  {
    hide Add, Upper, Half32, Wide, Wide16, Le32;
    var a := mem[k + i];
    if i + 4 <= n {
      AddHalves(a, mem[k + i + 1], mem[k + i + 2], mem[k + i + 3]);
    } else if n - i == 3 {
      AddThird(x, a, mem[k + i + 1], mem[k + i + 2]);
    } else if n - i == 2 {
      ShortPieces(a, mem[k + i + 1]);
    } else {
      ShortPieces(a, 0);
    }
  }

  /** One word of the last block, added from 16-bit reads and a byte read for an odd end. */
  method AddHalfWords(mem: seq<bv8>, k: nat, n: nat, i: nat, x: bv32) returns (y: bv32)
    requires k + n <= |mem|
    ensures y == Add(x, PaddedWord(mem[k..k + n], i))
  {
    hide PaddedWord, HalfAt, Add, Upper, Wide, Wide16;
    if n > i { HalvesOfBlock(mem, k, n, i, x); } else { PaddedWordPast(mem[k..k + n], i); AddZero(x); }
    y := x;
    if n >= i + 4 {
      y := Add(y, Add(HalfAt(mem, k + i), Upper(HalfAt(mem, k + i + 2))));
    } else if n >= i + 2 {
      if n == i + 3 { y := Add(y, Wide16(mem[k + i + 2])); }
      y := Add(y, HalfAt(mem, k + i));
    } else if n == i + 1 {
      y := Add(y, Wide(mem[k + i]));
    }
  }

  /** Adding the bytes of a word of a block one at a time, as far as the block goes. */
  lemma BytesOfBlock(block: seq<bv8>, i: nat, x: bv32)
    ensures
      var p, q := ByteOrZero(block, i), ByteOrZero(block, i + 1);
      var r, t := ByteOrZero(block, i + 2), ByteOrZero(block, i + 3);
      && Add(Add(Add(Add(x, Wide(p)), Wide8(q)), Wide16(r)), Wide24(t)) == Add(x, PaddedWord(block, i))
      && Add(Add(Add(Add(x, Wide24(t)), Wide16(r)), Wide8(q)), Wide(p)) == Add(x, PaddedWord(block, i))
  {
    hide Add, Wide, Wide8, Wide16, Wide24, Le32;
    var p, q := ByteOrZero(block, i), ByteOrZero(block, i + 1);
    var r, t := ByteOrZero(block, i + 2), ByteOrZero(block, i + 3);
    AddAscending(x, p, q, r, t);
    AddDescending(x, p, q, r, t);
  }

  lemma ZeroAddsNothing(x: bv32)
    ensures Add(x, Wide(0)) == Add(x, Wide8(0)) == Add(x, Wide16(0)) == Add(x, Wide24(0)) == x
  {
    hide *;
    Wide24Zero();
    AddZero(x);
  }

  /** One word of the last block, added from byte reads, the last byte present first. */
  method AddBytes(mem: seq<bv8>, k: nat, n: nat, i: nat, x: bv32) returns (y: bv32)
    requires k + n <= |mem|
    ensures y == Add(x, PaddedWord(mem[k..k + n], i))
  {
    hide PaddedWord, Add, Wide, Wide8, Wide16, Wide24;
    BytesOfBlock(mem[k..k + n], i, x);
    y := x;
    if n >= i + 4 { y := Add(y, Wide24(mem[k + i + 3])); } else { ZeroAddsNothing(y); }
    if n >= i + 3 { y := Add(y, Wide16(mem[k + i + 2])); } else { ZeroAddsNothing(y); }
    if n >= i + 2 { y := Add(y, Wide8(mem[k + i + 1])); } else { ZeroAddsNothing(y); }
    if n >= i + 1 { y := Add(y, Wide(mem[k + i])); } else { ZeroAddsNothing(y); }
  }

  /** A whole block added in aligned 32-bit reads. */
  method AddBlockByWords(mem: seq<bv8>, k: nat, s: State) returns (r: State)
    requires k + 12 <= |mem|
    ensures r == AddBlock(s, mem[k..k + 12])
  {
    hide *;
    AddBlockFull(s, mem, k);
    r := State(Add(s.a, WordAt(mem, k)), Add(s.b, WordAt(mem, k + 4)), Add(s.c, WordAt(mem, k + 8)));
  }

  /** The last block, its last word first. */
  method AddLastByWords(mem: seq<bv8>, k: nat, n: nat, s: State) returns (r: State)
    requires k % 4 == 0 && InMemory(mem, k, n)
    ensures r == AddBlock(s, mem[k..k + n])
  {
    hide AddBlock, PaddedWord, Add;
    var c := AddMaskedWord(mem, k, n, 8, s.c);
    var b := AddMaskedWord(mem, k, n, 4, s.b);
    var a := AddMaskedWord(mem, k, n, 0, s.a);
    AddBlockIs(s, mem[k..k + n]);
    r := State(a, b, c);
  }

  /** The path for keys at addresses divisible by four. */
  method HashByWords(mem: seq<bv8>, at: nat, length: nat) returns (hash: bv32)
    requires InMemory(mem, at, length) && at % 4 == 0
    ensures hash == HashSpec(mem[at..at + length])
  {
    hide Run, Mix, Final, AddBlock, Init, WordAt, PaddedWord, Add;
    var s := Init(length);
    ghost var whole := Run(s, mem[at..at + length]);
    var k, rest := at, length;
    while rest > 12
      invariant k + rest == at + length && k % 4 == 0
      invariant Run(s, mem[k..k + rest]) == whole
    {
      RunBlock(s, mem, k, rest);
      s := AddBlockByWords(mem, k, s);
      s := Mix(s);
      k, rest := k + 12, rest - 12;
    }
    RunLast(s, mem[k..k + rest]);
    if rest == 0 { return s.c; }
    s := AddLastByWords(mem, k, rest, s);
    s := Final(s);
    return s.c;
  }

  /** One word of a whole block added in a pair of 16-bit reads. */
  method AddWordByHalves(mem: seq<bv8>, k: nat, i: nat, x: bv32) returns (y: bv32)
    requires k + 12 <= |mem| && i + 4 <= 12
    ensures y == Add(x, PaddedWord(mem[k..k + 12], i))
  {
    hide PaddedWord, HalfAt, Add, Upper, Wide16, Wide;
    HalvesOfBlock(mem, k, 12, i, x);
    y := Add(x, Add(HalfAt(mem, k + i), Upper(HalfAt(mem, k + i + 2))));
  }

  method AddBlockByHalves(mem: seq<bv8>, k: nat, s: State) returns (r: State)
    requires k + 12 <= |mem|
    ensures r == AddBlock(s, mem[k..k + 12])
  {
    hide AddBlock, PaddedWord, Add;
    var a := AddWordByHalves(mem, k, 0, s.a);
    var b := AddWordByHalves(mem, k, 4, s.b);
    var c := AddWordByHalves(mem, k, 8, s.c);
    AddBlockIs(s, mem[k..k + 12]);
    r := State(a, b, c);
  }

  method AddLastByHalves(mem: seq<bv8>, k: nat, n: nat, s: State) returns (r: State)
    requires k + n <= |mem|
    ensures r == AddBlock(s, mem[k..k + n])
  {
    hide AddBlock, PaddedWord, Add;
    var c := AddHalfWords(mem, k, n, 8, s.c);
    var b := AddHalfWords(mem, k, n, 4, s.b);
    var a := AddHalfWords(mem, k, n, 0, s.a);
    AddBlockIs(s, mem[k..k + n]);
    r := State(a, b, c);
  }

  /** The path for even addresses not divisible by four. */
  method HashByHalves(mem: seq<bv8>, at: nat, length: nat) returns (hash: bv32)
    requires at + length <= |mem|
    ensures hash == HashSpec(mem[at..at + length])
  {
    hide Run, Mix, Final, AddBlock, Init, HalfAt, PaddedWord, Add, Upper, Wide, Wide16;
    var s := Init(length);
    ghost var whole := Run(s, mem[at..at + length]);
    var k, rest := at, length;
    while rest > 12
      invariant k + rest == at + length
      invariant Run(s, mem[k..k + rest]) == whole
    {
      RunBlock(s, mem, k, rest);
      s := AddBlockByHalves(mem, k, s);
      s := Mix(s);
      k, rest := k + 12, rest - 12;
    }
    RunLast(s, mem[k..k + rest]);
    if rest == 0 { return s.c; }
    s := AddLastByHalves(mem, k, rest, s);
    s := Final(s);
    return s.c;
  }

  /** One word of a whole block added byte by byte, the low-order byte first. */
  method AddWordByBytes(mem: seq<bv8>, k: nat, i: nat, x: bv32) returns (y: bv32)
    requires k + 12 <= |mem| && i + 4 <= 12
    ensures y == Add(x, PaddedWord(mem[k..k + 12], i))
  {
    hide PaddedWord, Add, Wide, Wide8, Wide16, Wide24;
    BytesOfBlock(mem[k..k + 12], i, x);
    y := Add(x, Wide(mem[k + i]));
    y := Add(y, Wide8(mem[k + i + 1]));
    y := Add(y, Wide16(mem[k + i + 2]));
    y := Add(y, Wide24(mem[k + i + 3]));
  }

  method AddBlockByBytes(mem: seq<bv8>, k: nat, s: State) returns (r: State)
    requires k + 12 <= |mem|
    ensures r == AddBlock(s, mem[k..k + 12])
  {
    hide AddBlock, PaddedWord, Add;
    var a := AddWordByBytes(mem, k, 0, s.a);
    var b := AddWordByBytes(mem, k, 4, s.b);
    var c := AddWordByBytes(mem, k, 8, s.c);
    AddBlockIs(s, mem[k..k + 12]);
    r := State(a, b, c);
  }

  method AddLastByBytes(mem: seq<bv8>, k: nat, n: nat, s: State) returns (r: State)
    requires k + n <= |mem|
    ensures r == AddBlock(s, mem[k..k + n])
  {
    hide AddBlock, PaddedWord, Add;
    var c := AddBytes(mem, k, n, 8, s.c);
    var b := AddBytes(mem, k, n, 4, s.b);
    var a := AddBytes(mem, k, n, 0, s.a);
    AddBlockIs(s, mem[k..k + n]);
    r := State(a, b, c);
  }

  /** The path for odd addresses. */
  method HashByBytes(mem: seq<bv8>, at: nat, length: nat) returns (hash: bv32)
    requires at + length <= |mem|
    ensures hash == HashSpec(mem[at..at + length])
  {
    hide Run, Mix, Final, AddBlock, Init, PaddedWord, Add, Wide, Wide8, Wide16, Wide24;
    var s := Init(length);
    ghost var whole := Run(s, mem[at..at + length]);
    var k, rest := at, length;
    while rest > 12
      invariant k + rest == at + length
      invariant Run(s, mem[k..k + rest]) == whole
    {
      RunBlock(s, mem, k, rest);
      s := AddBlockByBytes(mem, k, s);
      s := Mix(s);
      k, rest := k + 12, rest - 12;
    }
    RunLast(s, mem[k..k + rest]);
    if rest == 0 { return s.c; }
    s := AddLastByBytes(mem, k, rest, s);
    s := Final(s);
    return s.c;
  }

  /** The empty key is not mixed at all. */
  lemma EmptyKey()
    ensures HashSpec([]) == 0xdead_befc
  {}

  /** The hash of the key at an address, whatever its alignment and whatever follows it in memory. */
  method HashJenkins(mem: seq<bv8>, at: nat, length: nat) returns (hash: bv32)
    requires InMemory(mem, at, length)
    ensures hash == HashSpec(mem[at..at + length])
    ensures length == 0 ==> hash == 0xdead_befc
  {
    if length == 0 { EmptyKey(); assert mem[at..at] == []; }
    if at % 4 == 0 {
      hash := HashByWords(mem, at, length);
    } else if at % 2 == 0 {
      hash := HashByHalves(mem, at, length);
    } else {
      hash := HashByBytes(mem, at, length);
    }
  }

  lemma AddBlockIs(s: State, block: seq<bv8>)
    ensures AddBlock(s, block) == State(Add(s.a, PaddedWord(block, 0)), Add(s.b, PaddedWord(block, 4)),
                                        Add(s.c, PaddedWord(block, 8)))
  {
    hide PaddedWord, Add;
  }

  // ---------- Mixing is reversible ----------

  /** One line of the mixing macro: x -= z; x ^= rot(z, k); z += y. */
  function Line(x: bv32, y: bv32, z: bv32, k: nat): (bv32, bv32, bv32)
    requires 0 < k < 32
  {
    (Xor(Sub(x, z), Rot(z, k)), y, Add(z, y))
  }

  function Unline(x: bv32, y: bv32, z: bv32, k: nat): (bv32, bv32, bv32)
    requires 0 < k < 32
  {
    var z := Sub(z, y);
    (Add(Xor(x, Rot(z, k)), z), y, z)
  }

  lemma LineUndone(x: bv32, y: bv32, z: bv32, k: nat)
    requires 0 < k < 32
    ensures var t := Line(x, y, z, k); Unline(t.0, t.1, t.2, k) == (x, y, z)
    ensures var t := Unline(x, y, z, k); Line(t.0, t.1, t.2, k) == (x, y, z)
  {
    hide Xor, Add, Sub, Rot;
    SubAdd(z, y);
    XorCancel(Sub(x, z), Rot(z, k)); SubAdd(x, z);
    var u := Sub(z, y);
    SubAdd(Xor(x, Rot(u, k)), u); XorCancel(x, Rot(u, k));
  }

  /** The mixing macro as six lines, the roles of the three words rotating. */
  function MixByLines(s: State): State {
    var (a, b, c) := Line(s.a, s.b, s.c, 4);
    var (b, c, a) := Line(b, c, a, 6);
    var (c, a, b) := Line(c, a, b, 8);
    var (a, b, c) := Line(a, b, c, 16);
    var (b, c, a) := Line(b, c, a, 19);
    var (c, a, b) := Line(c, a, b, 4);
    State(a, b, c)
  }

  function Unmix(s: State): State {
    var (c, a, b) := Unline(s.c, s.a, s.b, 4);
    var (b, c, a) := Unline(b, c, a, 19);
    var (a, b, c) := Unline(a, b, c, 16);
    var (c, a, b) := Unline(c, a, b, 8);
    var (b, c, a) := Unline(b, c, a, 6);
    var (a, b, c) := Unline(a, b, c, 4);
    State(a, b, c)
  }

  lemma MixIsLines(s: State)
    ensures Mix(s) == MixByLines(s)
  {
    hide Xor, Add, Sub, Rot;
  }

  /** The mixing macro is a permutation of the state. */
  lemma MixUndone(s: State)
    ensures Unmix(Mix(s)) == s && Mix(Unmix(s)) == s
  {
    hide Line, Unline, Mix;
    MixIsLines(s); MixIsLines(Unmix(s));
    UnmixAfterLines(s);
    LinesAfterUnmix(s);
  }

  lemma UnmixAfterLines(s: State)
    ensures Unmix(MixByLines(s)) == s
  {
    hide Line, Unline;
    var (a, b, c) := (s.a, s.b, s.c);
    LineUndone(a, b, c, 4);
    var (a1, b1, c1) := Line(a, b, c, 4);
    LineUndone(b1, c1, a1, 6);
    var (b2, c2, a2) := Line(b1, c1, a1, 6);
    LineUndone(c2, a2, b2, 8);
    var (c3, a3, b3) := Line(c2, a2, b2, 8);
    LineUndone(a3, b3, c3, 16);
    var (a4, b4, c4) := Line(a3, b3, c3, 16);
    LineUndone(b4, c4, a4, 19);
    var (b5, c5, a5) := Line(b4, c4, a4, 19);
    LineUndone(c5, a5, b5, 4);
  }

  lemma LinesAfterUnmix(s: State)
    ensures MixByLines(Unmix(s)) == s
  {
    hide Line, Unline;
    LineUndone(s.c, s.a, s.b, 4);
    var (c1, a1, b1) := Unline(s.c, s.a, s.b, 4);
    LineUndone(b1, c1, a1, 19);
    var (b2, c2, a2) := Unline(b1, c1, a1, 19);
    LineUndone(a2, b2, c2, 16);
    var (a3, b3, c3) := Unline(a2, b2, c2, 16);
    LineUndone(c3, a3, b3, 8);
    var (c4, a4, b4) := Unline(c3, a3, b3, 8);
    LineUndone(b4, c4, a4, 6);
    var (b5, c5, a5) := Unline(b4, c4, a4, 6);
    LineUndone(a5, b5, c5, 4);
  }

  /** One statement pair of the final macro: x ^= y; x -= rot(y, k). */
  function FinalLine(x: bv32, y: bv32, k: nat): bv32
    requires 0 < k < 32
  {
    Sub(Xor(x, y), Rot(y, k))
  }

  function UnfinalLine(x: bv32, y: bv32, k: nat): bv32
    requires 0 < k < 32
  {
    Xor(Add(x, Rot(y, k)), y)
  }

  lemma FinalLineUndone(x: bv32, y: bv32, k: nat)
    requires 0 < k < 32
    ensures UnfinalLine(FinalLine(x, y, k), y, k) == x
    ensures FinalLine(UnfinalLine(x, y, k), y, k) == x
  {
    hide Xor, Add, Sub, Rot;
    SubAdd(Xor(x, y), Rot(y, k)); XorCancel(x, y);
    XorCancel(Add(x, Rot(y, k)), y); SubAdd(x, Rot(y, k));
  }

  function FinalByLines(s: State): State {
    var c := FinalLine(s.c, s.b, 14);
    var a := FinalLine(s.a, c, 11);
    var b := FinalLine(s.b, a, 25);
    var c := FinalLine(c, b, 16);
    var a := FinalLine(a, c, 4);
    var b := FinalLine(b, a, 14);
    var c := FinalLine(c, b, 24);
    State(a, b, c)
  }

  function Unfinal(s: State): State {
    var c := UnfinalLine(s.c, s.b, 24);
    var b := UnfinalLine(s.b, s.a, 14);
    var a := UnfinalLine(s.a, c, 4);
    var c := UnfinalLine(c, b, 16);
    var b := UnfinalLine(b, a, 25);
    var a := UnfinalLine(a, c, 11);
    var c := UnfinalLine(c, b, 14);
    State(a, b, c)
  }

  lemma FinalIsLines(s: State)
    ensures Final(s) == FinalByLines(s)
  {
    hide Xor, Add, Sub, Rot;
  }

  /** The final macro is a permutation of the state too. */
  lemma FinalUndone(s: State)
    ensures Unfinal(Final(s)) == s && Final(Unfinal(s)) == s
  {
    hide *;
    FinalIsLines(s); FinalIsLines(Unfinal(s));
    UnfinalAfterLines(s);
    LinesAfterUnfinal(s);
  }

  lemma UnfinalAfterLines(s: State)
    ensures Unfinal(FinalByLines(s)) == s
  {
    hide FinalLine, UnfinalLine;
    var c1 := FinalLine(s.c, s.b, 14);
    var a1 := FinalLine(s.a, c1, 11);
    var b1 := FinalLine(s.b, a1, 25);
    var c2 := FinalLine(c1, b1, 16);
    var a2 := FinalLine(a1, c2, 4);
    FinalLineUndone(s.c, s.b, 14); FinalLineUndone(s.a, c1, 11); FinalLineUndone(s.b, a1, 25);
    FinalLineUndone(c1, b1, 16); FinalLineUndone(a1, c2, 4);
    FinalLineUndone(b1, a2, 14); FinalLineUndone(c2, FinalLine(b1, a2, 14), 24);
  }

  lemma LinesAfterUnfinal(s: State)
    ensures FinalByLines(Unfinal(s)) == s
  {
    hide FinalLine, UnfinalLine;
    var c1 := UnfinalLine(s.c, s.b, 24);
    var b1 := UnfinalLine(s.b, s.a, 14);
    var a1 := UnfinalLine(s.a, c1, 4);
    var c2 := UnfinalLine(c1, b1, 16);
    var b2 := UnfinalLine(b1, a1, 25);
    var a2 := UnfinalLine(a1, c2, 11);
    FinalLineUndone(s.c, s.b, 24); FinalLineUndone(s.b, s.a, 14); FinalLineUndone(s.a, c1, 4);
    FinalLineUndone(c1, b1, 16); FinalLineUndone(b1, a1, 25);
    FinalLineUndone(a1, c2, 11); FinalLineUndone(c2, b2, 14);
  }

  lemma AddBlockInjective(s: State, t: State, x: seq<bv8>, y: seq<bv8>)
    requires 1 <= |x| == |y| <= 12 && AddBlock(s, x) == AddBlock(t, y)
    ensures x == y ==> s == t
    ensures s == t ==> x == y
  {
    hide PaddedWord, Add;
    if x == y {
      SubAdd(s.a, PaddedWord(x, 0)); SubAdd(t.a, PaddedWord(x, 0));
      SubAdd(s.b, PaddedWord(x, 4)); SubAdd(t.b, PaddedWord(x, 4));
      SubAdd(s.c, PaddedWord(x, 8)); SubAdd(t.c, PaddedWord(x, 8));
    }
    if s == t {
      AddInjective(s.a, PaddedWord(x, 0), PaddedWord(y, 0)); PaddedWordInjective(x, y, 0);
      AddInjective(s.b, PaddedWord(x, 4), PaddedWord(y, 4)); PaddedWordInjective(x, y, 4);
      AddInjective(s.c, PaddedWord(x, 8), PaddedWord(y, 8)); PaddedWordInjective(x, y, 8);
    }
  }

  lemma AddInjective(x: bv32, y: bv32, z: bv32)
    requires Add(x, y) == Add(x, z)
    ensures y == z
  {
    hide *;
    AddComm(x, y); AddComm(x, z);
    SubAdd(y, x); SubAdd(z, x);
  }

  lemma PaddedWordInjective(x: seq<bv8>, y: seq<bv8>, i: nat)
    requires |x| == |y| && PaddedWord(x, i) == PaddedWord(y, i)
    ensures forall j :: i <= j < i + 4 && j < |x| ==> x[j] == y[j]
  {
    hide Le32;
    Le32Injective(ByteOrZero(x, i), ByteOrZero(x, i + 1), ByteOrZero(x, i + 2), ByteOrZero(x, i + 3),
                  ByteOrZero(y, i), ByteOrZero(y, i + 1), ByteOrZero(y, i + 2), ByteOrZero(y, i + 3));
  }

  lemma {:induction false} RunInjective(s: State, t: State, key: seq<bv8>)
    requires Run(s, key) == Run(t, key)
    ensures s == t
    decreases key
  {
    hide Mix, Final, AddBlock;
    if |key| > 12 {
      var block := key[..12];
      RunInjective(Mix(AddBlock(s, block)), Mix(AddBlock(t, block)), key[12..]);
      MixUndone(AddBlock(s, block)); MixUndone(AddBlock(t, block));
      AddBlockInjective(s, t, block, block);
    } else if key != [] {
      FinalUndone(AddBlock(s, key)); FinalUndone(AddBlock(t, key));
      AddBlockInjective(s, t, key, key);
    }
  }

  /** Equal-length keys that differ in exactly one block end in different internal states. */
  lemma {:induction false} OneBlockChangeSeparatesStates(s: State, pre: seq<bv8>, x: seq<bv8>, y: seq<bv8>,
                                                         post: seq<bv8>)
    requires |pre| % 12 == 0 && 1 <= |x| == |y| <= 12 && (|x| == 12 || post == []) && x != y
    ensures Run(s, pre + x + post) != Run(s, pre + y + post)
    decreases pre
  {
    hide Mix, Final, AddBlock;
    var u, v := pre + x + post, pre + y + post;
    if pre != [] {
      var block := pre[..12];
      assert u[..12] == block == v[..12];
      assert u[12..] == pre[12..] + x + post && v[12..] == pre[12..] + y + post;
      OneBlockChangeSeparatesStates(Mix(AddBlock(s, block)), pre[12..], x, y, post);
    } else {
      if AddBlock(s, x) == AddBlock(s, y) { AddBlockInjective(s, s, x, y); }
      if post == [] {
        assert u == x && v == y;
        FinalUndone(AddBlock(s, x)); FinalUndone(AddBlock(s, y));
      } else {
        assert u[..12] == x && v[..12] == y && u[12..] == post == v[12..];
        MixUndone(AddBlock(s, x)); MixUndone(AddBlock(s, y));
        if Run(s, u) == Run(s, v) {
          RunInjective(Mix(AddBlock(s, x)), Mix(AddBlock(s, y)), post);
        }
      }
    }
  }

  // ---------- The hash in plain operators, statement by statement ----------

  // In these lemmas every value an assignment of the code leaves is a parameter, bound by the assignment.

  lemma StartWordIs(l: bv32)
    ensures StartWord(l) == 0xdead_beef + l + 13
  {}

  lemma StartWordInjective(l: bv32, m: bv32)
    requires StartWord(l) == StartWord(m)
    ensures l == m
  {}

  lemma InitDef(n: nat)
    ensures var x := StartWord(Truncate32(n)); Init(n) == State(x, x, x)
  {
    hide StartWord, Truncate32;
  }

  /** a = b = c = 0xdeadbeef + (uint32_t)length + 13. */
  lemma InitIs(n: nat, l: bv32, x: bv32)
    requires l == Truncate32(n) && x == 0xdead_beef + l + 13
    ensures Init(n) == State(x, x, x)
  {
    hide *;
    InitDef(n);
    StartWordIs(l);
  }

  /** The starting states of two lengths are the same exactly if the lengths are, modulo 2^32. */
  lemma InitIff(m: nat, n: nat)
    ensures Init(m) == Init(n) <==> m % 0x1_0000_0000 == n % 0x1_0000_0000
  {
    hide *;
    InitDef(m); InitDef(n);
    Truncate32Iff(m, n);
    if Init(m) == Init(n) {
      StartWordInjective(Truncate32(m), Truncate32(n));
    }
  }

  lemma LineDef(x: bv32, y: bv32, z: bv32, k: nat)
    requires 0 < k < 32
    ensures Line(x, y, z, k) == (Xor(Sub(x, z), Rot(z, k)), y, Add(z, y))
  {
    hide Xor, Sub, Rot, Add;
  }

  lemma FinalLineDef(x: bv32, y: bv32, k: nat)
    requires 0 < k < 32
    ensures FinalLine(x, y, k) == Sub(Xor(x, y), Rot(y, k))
  {
    hide Xor, Sub, Rot;
  }

  /** The seven statement pairs of the final macro. */
  lemma FinalIs(a: bv32, b: bv32, c: bv32,
                c1: bv32, a1: bv32, b1: bv32, c2: bv32, a2: bv32, b2: bv32, c3: bv32)
    requires c1 == Sub(Xor(c, b), Rot(b, 14))
    requires a1 == Sub(Xor(a, c1), Rot(c1, 11))
    requires b1 == Sub(Xor(b, a1), Rot(a1, 25))
    requires c2 == Sub(Xor(c1, b1), Rot(b1, 16))
    requires a2 == Sub(Xor(a1, c2), Rot(c2, 4))
    requires b2 == Sub(Xor(b1, a2), Rot(a2, 14))
    requires c3 == Sub(Xor(c2, b2), Rot(b2, 24))
    ensures Final(State(a, b, c)) == State(a2, b2, c3)
  {
    hide *;
    FinalIsLines(State(a, b, c));
    FinalLineDef(c, b, 14);
    FinalLineDef(a, c1, 11);
    FinalLineDef(b, a1, 25);
    FinalLineDef(c1, b1, 16);
    FinalLineDef(a1, c2, 4);
    FinalLineDef(b1, a2, 14);
    FinalLineDef(c2, b2, 24);
    FinalByLinesDef(a, b, c, c1, a1, b1, c2, a2, b2, c3);
  }

  lemma FinalByLinesDef(a: bv32, b: bv32, c: bv32,
                        c1: bv32, a1: bv32, b1: bv32, c2: bv32, a2: bv32, b2: bv32, c3: bv32)
    requires c1 == FinalLine(c, b, 14) && a1 == FinalLine(a, c1, 11) && b1 == FinalLine(b, a1, 25)
    requires c2 == FinalLine(c1, b1, 16) && a2 == FinalLine(a1, c2, 4) && b2 == FinalLine(b1, a2, 14)
    requires c3 == FinalLine(c2, b2, 24)
    ensures FinalByLines(State(a, b, c)) == State(a2, b2, c3)
  {
    hide FinalLine;
  }

  /** The six lines of the mixing macro. */
  lemma MixIs(a: bv32, b: bv32, c: bv32,
              a1: bv32, c1: bv32, b1: bv32, a2: bv32, c2: bv32, b2: bv32, a3: bv32, c3: bv32, b3: bv32, a4: bv32,
              c4: bv32, b4: bv32)
    requires a1 == Xor(Sub(a, c), Rot(c, 4)) && c1 == Add(c, b)
    requires b1 == Xor(Sub(b, a1), Rot(a1, 6)) && a2 == Add(a1, c1)
    requires c2 == Xor(Sub(c1, b1), Rot(b1, 8)) && b2 == Add(b1, a2)
    requires a3 == Xor(Sub(a2, c2), Rot(c2, 16)) && c3 == Add(c2, b2)
    requires b3 == Xor(Sub(b2, a3), Rot(a3, 19)) && a4 == Add(a3, c3)
    requires c4 == Xor(Sub(c3, b3), Rot(b3, 4)) && b4 == Add(b3, a4)
    ensures Mix(State(a, b, c)) == State(a4, b4, c4)
  {
    hide *;
    MixIsLines(State(a, b, c));
    LineDef(a, b, c, 4);
    LineDef(b, c1, a1, 6);
    LineDef(c1, a2, b1, 8);
    LineDef(a2, b2, c2, 16);
    LineDef(b2, c3, a3, 19);
    LineDef(c3, a4, b3, 4);
    MixByLinesDef(a, b, c, a1, c1, b1, a2, c2, b2, a3, c3, b3, a4, c4, b4);
  }

  lemma MixByLinesDef(a: bv32, b: bv32, c: bv32, a1: bv32, c1: bv32, b1: bv32, a2: bv32, c2: bv32, b2: bv32,
                      a3: bv32, c3: bv32, b3: bv32, a4: bv32, c4: bv32, b4: bv32)
    requires Line(a, b, c, 4) == (a1, b, c1) && Line(b, c1, a1, 6) == (b1, c1, a2)
    requires Line(c1, a2, b1, 8) == (c2, a2, b2) && Line(a2, b2, c2, 16) == (a3, b2, c3)
    requires Line(b2, c3, a3, 19) == (b3, c3, a4) && Line(c3, a4, b3, 4) == (c4, a4, b4)
    ensures MixByLines(State(a, b, c)) == State(a4, b4, c4)
  {
    hide Line;
  }

  lemma LastBlock(key: seq<bv8>)
    requires 1 <= |key| <= 12
    ensures HashSpec(key) == Final(AddBlock(Init(|key|), key)).c
  {
    hide Final, AddBlock, Init;
  }

  lemma ShortWord(block: seq<bv8>, i: nat)
    ensures |block| <= i ==> PaddedWord(block, i) == 0
    ensures |block| == i + 1 ==> PaddedWord(block, i) == block[i] as bv32
  {
    if |block| == i + 1 {
      hide Le32;
      ShortLe32Is(block[i], 0, 0);
    } else if |block| <= i {
      hide Le32;
      ShortLe32Is(0, 0, 0);
    }
  }

  /** Keys of one byte. */
  lemma OneByteKeyHash(x: bv8, s: bv32, a: bv32,
                       c1: bv32, a1: bv32, b1: bv32, c2: bv32, a2: bv32, b2: bv32, c3: bv32)
    requires s == 0xdead_beef + 1 + 13 && a == s + x as bv32
    requires c1 == Sub(Xor(s, s), Rot(s, 14))
    requires a1 == Sub(Xor(a, c1), Rot(c1, 11))
    requires b1 == Sub(Xor(s, a1), Rot(a1, 25))
    requires c2 == Sub(Xor(c1, b1), Rot(b1, 16))
    requires a2 == Sub(Xor(a1, c2), Rot(c2, 4))
    requires b2 == Sub(Xor(b1, a2), Rot(a2, 14))
    requires c3 == Sub(Xor(c2, b2), Rot(b2, 24))
    ensures HashSpec([x]) == c3
  {
    hide *;
    LastBlock([x]);
    LiteralLength(1, 1);
    InitIs(1, 1, s);
    AddBlockIs(State(s, s, s), [x]);
    ShortWord([x], 0); ShortWord([x], 4); ShortWord([x], 8);
    AddIs(s, x as bv32); AddZero(s);
    FinalIs(a, s, s, c1, a1, b1, c2, a2, b2, c3);
  }

  const TWELVE: seq<bv8> := [0x61, 0x62, 0x63, 0x64, 0x65, 0x66, 0x67, 0x68, 0x69, 0x6a, 0x6b, 0x6c]

  lemma WordsOfTwelve()
    ensures PaddedWord(TWELVE, 0) == 0x64636261 && PaddedWord(TWELVE, 4) == 0x68676665
    ensures PaddedWord(TWELVE, 8) == 0x6c6b6a69
  {
    hide Le32;
    Le32Is(0x61, 0x62, 0x63, 0x64); Le32Is(0x65, 0x66, 0x67, 0x68); Le32Is(0x69, 0x6a, 0x6b, 0x6c);
  }

  /** "a". */
  lemma KnownHash1()
    ensures HashSpec([0x61]) == 0xe0a38690
  {
    hide HashSpec, Run, Mix, Init, Final;
    OneByteKeyHash(0x61, 0xdeadbefd, 0xdeadbf5e,
      0x90408855, 0x4aaa8a89, 0x8171df5f, 0x31d1d599, 0x5e5e057d, 0x5dd0828b, 0xe0a38690);
  }

  /** "abcdefghijkl". */
  lemma KnownHash12()
    ensures HashSpec(TWELVE) == 0xfb8b49e3
  {
    hide HashSpec, Init, AddBlock, PaddedWord, Final, Truncate32;
    WordsOfTwelve();
    LastBlock(TWELVE);
    LiteralLength(12, 12);
    InitIs(12, 12, 0xdeadbf08);
    AddBlockIs(State(0xdeadbf08, 0xdeadbf08, 0xdeadbf08), TWELVE);
    AddIs(0xdeadbf08, 0x64636261); AddIs(0xdeadbf08, 0x68676665); AddIs(0xdeadbf08, 0x6c6b6a69);
    FinalIs(0x43112169, 0x4715256d, 0x4b192971,
      0xc2b0ba57, 0xfbcedd29, 0x68e45a8a, 0x4fca77f9, 0xb75d2b3c, 0x94ea43df, 0xfb8b49e3);
  }

  /** "abcdefghijklm". */
  lemma KnownHash13()
    ensures HashSpec(TWELVE + [0x6d]) == 0xb621e85f
  {
    hide HashSpec, Init, AddBlock, PaddedWord, Final, Truncate32, Mix;
    WordsOfTwelve();
    BlockAndByte(0x6d);
    LiteralLength(13, 13);
    InitIs(13, 13, 0xdeadbf09);
    AddBlockIs(State(0xdeadbf09, 0xdeadbf09, 0xdeadbf09), TWELVE);
    AddIs(0xdeadbf09, 0x64636261); AddIs(0xdeadbf09, 0x68676665); AddIs(0xdeadbf09, 0x6c6b6a69);
    MixIs(0x4311216a, 0x4715256e, 0x4b192972,
      0x466560dc, 0x922e4ee0, 0x99f7f383, 0xd893afbc, 0x0fc5d8c4, 0x728ba33f, 0x1009d93d, 0x82517c03, 0xab694a4c,
      0x925b5540, 0x607c957d, 0x3dc49f8c);
    AddBlockIs(State(0x925b5540, 0x3dc49f8c, 0x607c957d), [0x6d]);
    ShortWord([0x6d], 0); ShortWord([0x6d], 4); ShortWord([0x6d], 8);
    AddIs(0x925b5540, 0x6d); AddZero(0x3dc49f8c); AddZero(0x607c957d);
    FinalIs(0x925b55ad, 0x3dc49f8c, 0x607c957d,
      0x35d4fb80, 0xffb3ac7f, 0xc277cc9b, 0x2b0774a4, 0x243d8e99, 0x82a3f8f3, 0xb621e85f);
  }

  lemma BlockAndByte(x: bv8)
    ensures HashSpec(TWELVE + [x]) == Final(AddBlock(Mix(AddBlock(Init(13), TWELVE)), [x])).c
  {
    hide Final, AddBlock, Init, Mix;
    var key := TWELVE + [x];
    assert |key| == 13 && key[..12] == TWELVE && key[12..] == [x];
    var t := Mix(AddBlock(Init(13), TWELVE));
    assert Run(Init(13), key) == Run(t, [x]);
    assert Run(t, [x]) == Final(AddBlock(t, [x]));
  }
}
