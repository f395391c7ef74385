/** Ring tokens: parsed from decimal text, set from hash values, and compared. */
module Tokens {
  import opened Words

  const MAG_WORDS: nat := 4
  const DIGITS_PER_INT: nat := 10
  const RADIX: u32 := 0x1717_9149

  /** The value of a token: unsigned sign word (so -1 is the largest sign), length in words, magnitude. */
  datatype Token = Token(signum: u32, length: u32, mag: seq<u32>)

  predicate WellFormed(t: Token) {
    |t.mag| == MAG_WORDS && t.length <= MAG_WORDS
  }

  // ---------- The order of tokens ----------

  /** Word-by-word comparison, most significant word first. */
  function CompareWords(a: seq<u32>, b: seq<u32>): (r: int)
    requires |a| == |b|
    ensures -1 <= r <= 1
  {
    if a == [] then 0
    else if a[0] != b[0] then if a[0] > b[0] then 1 else -1
    else CompareWords(a[1..], b[1..])
  }

  function Compare(s: Token, t: Token): (r: int)
    requires WellFormed(s) && WellFormed(t)
    ensures -1 <= r <= 1
  {
    if s.signum != t.signum then if s.signum > t.signum then 1 else -1
    else if s.signum == 0 then 0
    else if s.length != t.length then if s.length > t.length then 1 else -1
    else CompareWords(s.mag[..s.length], t.mag[..t.length])
  }

  method TokenCmp(s: Token, t: Token) returns (r: int)
    requires WellFormed(s) && WellFormed(t)
    ensures r == Compare(s, t)
  {
    if s.signum == t.signum {
      if s.signum == 0 {
        return 0;
      }
      if s.length == t.length {
        var i := 0;
        while i < s.length
          invariant 0 <= i <= s.length
          invariant CompareWords(s.mag[i..s.length], t.mag[i..t.length])
                 == CompareWords(s.mag[..s.length], t.mag[..t.length])
        {
          var a, b := s.mag[i], t.mag[i];
          if a != b {
            return if a > b then 1 else -1;
          }
          assert s.mag[i..s.length][1..] == s.mag[i + 1..s.length] && t.mag[i..t.length][1..] == t.mag[i + 1..t.length];
          i := i + 1;
        }
        return 0;
      }
      return if s.length > t.length then 1 else -1;
    }
    return if s.signum > t.signum then 1 else -1;
  }

  lemma {:induction false} CompareWordsAntisymmetric(a: seq<u32>, b: seq<u32>)
    requires |a| == |b|
    ensures CompareWords(b, a) == -CompareWords(a, b)
    ensures CompareWords(a, b) == 0 <==> a == b
  {
    if a != [] {
      CompareWordsAntisymmetric(a[1..], b[1..]);
      assert a == [a[0]] + a[1..] && b == [b[0]] + b[1..];
    }
  }

  lemma {:induction false} CompareWordsTransitive(a: seq<u32>, b: seq<u32>, c: seq<u32>)
    requires |a| == |b| == |c|
    requires CompareWords(a, b) <= 0 && CompareWords(b, c) <= 0
    ensures CompareWords(a, c) <= 0
    ensures CompareWords(a, c) == 0 ==> CompareWords(a, b) == CompareWords(b, c) == 0
  {
    if a != [] && a[0] == b[0] == c[0] {
      CompareWordsTransitive(a[1..], b[1..], c[1..]);
    }
  }

  lemma CompareAntisymmetric(s: Token, t: Token)
    requires WellFormed(s) && WellFormed(t)
    ensures Compare(t, s) == -Compare(s, t)
  {
    if s.length == t.length {
      CompareWordsAntisymmetric(s.mag[..s.length], t.mag[..t.length]);
    }
  }

  lemma CompareTransitive(s: Token, t: Token, u: Token)
    requires WellFormed(s) && WellFormed(t) && WellFormed(u)
    requires Compare(s, t) <= 0 && Compare(t, u) <= 0
    ensures Compare(s, u) <= 0
    ensures Compare(s, u) == 0 ==> Compare(s, t) == Compare(t, u) == 0
  {
    if s.signum == t.signum == u.signum && s.signum != 0 && s.length == t.length == u.length {
      CompareWordsTransitive(s.mag[..s.length], t.mag[..t.length], u.mag[..u.length]);
    }
  }

  /** The comparison is a total preorder on well-formed tokens. */
  lemma CompareIsTotalPreorder(s: Token, t: Token, u: Token)
    requires WellFormed(s) && WellFormed(t) && WellFormed(u)
    ensures Compare(s, s) == 0
    ensures Compare(s, t) <= 0 || Compare(t, s) <= 0
    ensures Compare(s, t) <= 0 && Compare(t, u) <= 0 ==> Compare(s, u) <= 0
    ensures Compare(s, t) < 0 && Compare(t, u) <= 0 ==> Compare(s, u) < 0
    ensures Compare(s, t) <= 0 && Compare(t, u) < 0 ==> Compare(s, u) < 0
  {
    CompareAntisymmetric(s, t);
    CompareAntisymmetric(s, s);
    if Compare(s, t) <= 0 && Compare(t, u) <= 0 {
      CompareTransitive(s, t, u);
    }
  }

  /** What decides: the sign, then the length, then the first word that differs. */
  lemma CompareIsLexicographic(s: Token, t: Token, i: nat)
    requires WellFormed(s) && WellFormed(t) && i < s.length
    ensures s.signum > t.signum ==> Compare(s, t) == 1
    ensures s.signum == t.signum != 0 && s.length > t.length ==> Compare(s, t) == 1
    ensures s.signum == t.signum != 0 && s.length == t.length && s.mag[..i] == t.mag[..i] && s.mag[i] > t.mag[i] ==>
      Compare(s, t) == 1
    ensures s.signum == t.signum == 0 ==> Compare(s, t) == 0
  {
    if s.length == t.length && s.mag[..i] == t.mag[..i] && s.mag[i] > t.mag[i] {
      var a, b := s.mag[..s.length], t.mag[..t.length];
      assert a[..i] == s.mag[..i] && b[..i] == t.mag[..i];
      FirstDifference(a, b, i);
    }
  }

  lemma {:induction false} FirstDifference(a: seq<u32>, b: seq<u32>, i: nat)
    requires |a| == |b| && i < |a| && a[..i] == b[..i] && a[i] > b[i]
    ensures CompareWords(a, b) == 1
    decreases i
  {
    if i > 0 {
      assert a[0] == a[..i][0] == b[..i][0] == b[0];
      assert a[1..][..i - 1] == a[..i][1..] && b[1..][..i - 1] == b[..i][1..];
      FirstDifference(a[1..], b[1..], i - 1);
    }
  }

  // ---------- Decimal text ----------

  predicate IsDigit(c: char) { '0' <= c <= '9' }

  predicate AllDigits(s: string) {
    forall i :: 0 <= i < |s| ==> IsDigit(s[i])
  }

  function DigitValue(c: char): (d: nat)
    requires IsDigit(c)
    ensures d < 10
  {
    c as int - '0' as int
  }

  /** The number a string of digits denotes. */
  function DecimalValue(s: string): nat
    requires AllDigits(s)
  {
    if s == [] then 0 else 10 * DecimalValue(s[..|s| - 1]) + DigitValue(s[|s| - 1])
  }

  /** What atoui makes of the n characters at p of a NUL-terminated line: their number modulo 2^32, or 0 if
      one of them (the terminator included) is no digit. */
  function GroupValue(line: string, p: nat, n: nat): u32 {
    if p + n <= |line| && AllDigits(line[p..p + n]) then DecimalValue(line[p..p + n]) % 0x1_0000_0000 else 0
  }

  ghost predicate Terminated(line: string) {
    line != [] && line[|line| - 1] == '\0'
  }

  lemma AllDigitsMore(s: string)
    requires s != [] && AllDigits(s[..|s| - 1]) && IsDigit(s[|s| - 1])
    ensures AllDigits(s)
  {
    forall k | 0 <= k < |s| - 1 ensures IsDigit(s[k]) {
      assert s[k] == s[..|s| - 1][k];
    }
  }

  lemma TimesTenMod(v: nat, d: nat)
    ensures (v % 0x1_0000_0000 * 10 + d) % 0x1_0000_0000 == (10 * v + d) % 0x1_0000_0000
  {
    var k, r := v / 0x1_0000_0000, v % 0x1_0000_0000;
    assert 10 * v + d == r * 10 + d + 10 * k * 0x1_0000_0000;
  }

  lemma NotDigits(line: string, p: nat, n: nat, i: nat)
    requires i < n && p + i < |line| && !IsDigit(line[p + i])
    ensures GroupValue(line, p, n) == 0
  {
    if p + n <= |line| { assert line[p..p + n][i] == line[p + i]; }
  }

  /** Never reads past the terminator, however large n is. */
  method Atoui(line: string, p: nat, n: nat) returns (value: u32)
    requires Terminated(line) && p < |line|
    ensures value == GroupValue(line, p, n)
  {
    if n == 0 {
      return 0;
    }
    value := 0;
    var i := 0;
    while i < n
      invariant 0 <= i <= n && p + i < |line|
      invariant AllDigits(line[p..p + i])
      invariant value == DecimalValue(line[p..p + i]) % 0x1_0000_0000
    {
      var c := line[p + i];
      if c < '0' || c > '9' {
        NotDigits(line, p, n, i);
        return 0;
      }
      ghost var digits := line[p..p + i + 1];
      assert digits[..i] == line[p..p + i] && digits[i] == c;
      AllDigitsMore(digits);
      TimesTenMod(DecimalValue(digits[..i]), DigitValue(c));
      value := (value * 10 + (c as int - '0' as int)) % 0x1_0000_0000;
      i := i + 1;
    }
  }

  // ---------- Parsing ----------

  /** One more ten-digit group: the words times the radix, plus the group. Only the one-word case occurs. */
  function NextWord(word: u32, group: u32): u32 {
    ((RADIX * word) % 0x1_0000_0000 + group) % 0x1_0000_0000
  }

  /** The word the groups of ten characters from p up to q leave, starting from word. */
  function Groups(line: string, p: nat, q: nat, word: u32): u32
    decreases q - p
  {
    if p < q then Groups(line, p + DIGITS_PER_INT, q, NextWord(word, GroupValue(line, p, DIGITS_PER_INT))) else word
  }

  function SignOf(str: string): u32 {
    if str != [] && str[0] == '-' then 0xffff_ffff
    else if |str| % 0x1_0000_0000 == 1 && str != [] && str[0] == '0' then 0
    else 1
  }

  /** How many characters the first group has: what is left over ten, or ten. */
  function FirstGroup(digits: u32): (n: nat)
    ensures 1 <= n <= 10
  {
    if digits % DIGITS_PER_INT == 0 then DIGITS_PER_INT else digits % DIGITS_PER_INT
  }

  /** The magnitude word parsing leaves. The digit count is a 32-bit counter. */
  function WordOf(str: string): u32 {
    var line := str + ['\0'];
    var p := if str != [] && str[0] == '-' then 1 else 0;
    var digits := (|str| - p) % 0x1_0000_0000;
    var n := FirstGroup(digits);
    Groups(line, p + n, |str|, GroupValue(line, p, n))
  }

  lemma CountDown(n: nat)
    requires n >= 1
    ensures (n % 0x1_0000_0000 - 1) % 0x1_0000_0000 == (n - 1) % 0x1_0000_0000
  {
    var k, r := n / 0x1_0000_0000, n % 0x1_0000_0000;
    assert n - 1 == r - 1 + k * 0x1_0000_0000;
  }

  /** A token object, as the code allocates and fills it in. */
  class TokenCell {
    var signum: u32
    var length: u32
    const mag: array<u32>

    ghost predicate Valid()
      reads this
    {
      mag.Length == MAG_WORDS
    }

    function Value(): Token
      reads this, mag
    {
      Token(signum, length, mag[..])
    }

    constructor ()
      ensures Valid() && fresh(mag)
      ensures Value() == Token(0, 0, [0, 0, 0, 0]) && mag[..] == [0, 0, 0, 0]
    {
      mag := new u32[MAG_WORDS](_ => 0);
      signum, length := 0, 0;
    }

    method SetSize(tokenLen: u32)
      modifies `length
      ensures length == tokenLen
    {
      length := tokenLen;
    }

    method SetInt(val: u32)
      requires Valid()
      modifies this, mag
      ensures Value() == Token(if val > 0 then 1 else 0, 1, old(mag[..])[0 := val])
    {
      mag[0] := val;
      length := 1;
      signum := if val > 0 then 1 else 0;
    }

    /** Parses decimal text. The text is followed in memory by its terminator, and no more is read. */
    method Parse(str: string)
      requires Valid()
      modifies `signum, mag
      ensures Value() == Token(SignOf(str), old(length), old(mag[..])[0 := WordOf(str)])
    {
      hide GroupValue, NextWord, Groups;
      var line := str + ['\0'];
      var p, q := 0, |str|;
      var digits: u32 := |str| % 0x1_0000_0000;
      if line[p] == '-' {
        signum := 0xffff_ffff;
        p := p + 1;
        CountDown(|str|);
        digits := (digits - 1) % 0x1_0000_0000;
      } else if digits == 1 && line[p] == '0' {
        signum := 0;
      } else {
        signum := 1;
      }
      var firstGroupLen := digits % DIGITS_PER_INT;
      if firstGroupLen == 0 {
        firstGroupLen := DIGITS_PER_INT;
      }
      mag[0] := Atoui(line, p, firstGroupLen);
      p := p + firstGroupLen;
      assert Groups(line, p, q, mag[0]) == WordOf(str);
      ParseGroups(line, p, q);
    }

    /** The loop over the remaining groups of ten. */
    method ParseGroups(line: string, start: nat, q: nat)
      requires Valid() && Terminated(line) && q < |line|
      modifies mag
      ensures mag[..] == old(mag[..])[0 := Groups(line, start, q, old(mag[0]))]
    {
      hide GroupValue, NextWord;
      var p := start;
      while p < q
        invariant p >= 0
        invariant Groups(line, p, q, mag[0]) == Groups(line, start, q, old(mag[0]))
        invariant mag[..] == old(mag[..])[0 := mag[0]]
        decreases q - p
      {
        var localInt := Atoui(line, p, DIGITS_PER_INT);
        AddNextWord(localInt);
        p := p + DIGITS_PER_INT;
      }
    }

    /** add_next_word for the one word the parser uses: the carry loops have nothing to do. */
    method AddNextWord(nextInt: u32)
      requires Valid()
      modifies mag
      ensures mag[..] == old(mag[..])[0 := NextWord(old(mag[0]), nextInt)]
    {
      var product := (RADIX * mag[0]) % 0x1_0000_0000;
      mag[0] := product;
      var sum := (mag[0] + nextInt) % 0x1_0000_0000;
      mag[0] := sum;
    }
  }

  // ---------- Canonical decimals ----------

  function Digit(d: nat): (c: char)
    requires d < 10
    ensures IsDigit(c) && DigitValue(c) == d
  {
    ('0' as int + d) as char
  }

  /** A number in decimal without leading zeros. */
  function Decimal(n: nat): (s: string)
    ensures s != [] && AllDigits(s)
  {
    if n < 10 then [Digit(n)] else Decimal(n / 10) + [Digit(n % 10)]
  }

  lemma {:induction false} DecimalMeans(n: nat)
    ensures DecimalValue(Decimal(n)) == n
    ensures Decimal(n)[0] == '0' <==> n == 0
  {
    if n >= 10 {
      var s := Decimal(n);
      assert s[..|s| - 1] == Decimal(n / 10);
      DecimalMeans(n / 10);
    }
  }

  function Pow10(k: nat): nat {
    if k == 0 then 1 else 10 * Pow10(k - 1)
  }

  lemma {:induction false} DecimalLength(n: nat, k: nat)
    requires k >= 1
    ensures |Decimal(n)| <= k <==> n < Pow10(k)
  {
    if n >= 10 {
      if k > 1 {
        DecimalLength(n / 10, k - 1);
      }
    } else {
      PowAtLeastTen(k);
    }
  }

  lemma {:induction false} PowAtLeastTen(k: nat)
    requires k >= 1
    ensures Pow10(k) >= 10
  {
    if k > 1 { PowAtLeastTen(k - 1); }
  }

  /** The token of a hash value or of a parsed 32-bit number. */
  function IntToken(v: u32): Token {
    Token(if v > 0 then 1 else 0, 1, [v, 0, 0, 0])
  }

  /** The token continuum_init makes of a node's token text: one word, parsed. */
  function ParsedToken(str: string): Token {
    Token(SignOf(str), 1, [WordOf(str), 0, 0, 0])
  }

  lemma PowTen()
    ensures Pow10(10) == 0x2_540b_e400
  {}

  lemma GroupOfAll(s: string)
    requires AllDigits(s)
    ensures GroupValue(s + ['\0'], 0, |s|) == DecimalValue(s) % 0x1_0000_0000
  {
    hide DecimalValue;
    assert (s + ['\0'])[0..|s|] == s;
  }

  lemma NoMoreGroups(line: string, q: nat, word: u32)
    ensures Groups(line, q, q, word) == word
  {}

  /** A single group of one to ten digits. */
  lemma OneGroup(s: string)
    requires 1 <= |s| <= 10 && AllDigits(s)
    ensures WordOf(s) == DecimalValue(s) % 0x1_0000_0000
  {
    hide DecimalValue, GroupValue, Groups;
    GroupOfAll(s);
    assert IsDigit(s[0]);
    NoMoreGroups(s + ['\0'], |s|, GroupValue(s + ['\0'], 0, |s|));
  }

  /** Text of at most ten digits is one group: it stands for its number modulo 2^32. */
  lemma ShortDecimalWord(n: nat)
    requires n < 0x2_540b_e400
    ensures WordOf(Decimal(n)) == n % 0x1_0000_0000
    ensures SignOf(Decimal(n)) == if n == 0 then 0 else 1
  {
    hide WordOf, Pow10;
    PowTen();
    DecimalLength(n, 10);
    DecimalMeans(n);
    OneGroup(Decimal(n));
    assert IsDigit(Decimal(n)[0]);
  }

  /** Parsing the decimal text of a 32-bit value gives the token of that value, and ring order is then
      numeric order. */
  lemma DecimalTokensAreNumbers(u: u32, v: u32)
    ensures ParsedToken(Decimal(u)) == IntToken(u)
    ensures WellFormed(IntToken(u)) && WellFormed(IntToken(v))
    ensures Compare(IntToken(u), IntToken(v)) < 0 <==> u < v
    ensures Compare(IntToken(u), IntToken(v)) == 0 <==> u == v
  {
    hide WordOf, SignOf, Decimal;
    ShortDecimalWord(u);
    var s, t := IntToken(u), IntToken(v);
    assert s.mag[..s.length] == [u] && t.mag[..t.length] == [v];
    assert CompareWords([u], [v]) == if u == v then 0 else if u > v then 1 else -1;
  }

  /** A decimal text can say more than 32 bits hold; then, and only then, the token is another number's. */
  lemma DecimalWordIsNumberIff(n: nat)
    ensures WordOf(Decimal(n)) == n <==> n < 0x1_0000_0000
  {
    hide WordOf, Decimal;
    if n < 0x2_540b_e400 {
      ShortDecimalWord(n);
    }
  }

  /** A minus sign sorts a token after every token without one, whatever the digits. */
  lemma NegativeSortsLast(str: string, other: string)
    requires str != [] && str[0] == '-' && (other == [] || other[0] != '-')
    ensures Compare(ParsedToken(str), ParsedToken(other)) == 1
  {}

  /** The sign word: zero for "0" alone, all ones after a minus sign, one otherwise. */
  lemma SignIs(str: string)
    requires |str| < 0x1_0000_0000
    ensures SignOf(str) == 0 <==> str == ['0']
    ensures SignOf(str) == 0xffff_ffff <==> str != [] && str[0] == '-'
    ensures SignOf(str) == 1 <==> str != ['0'] && (str == [] || str[0] != '-')
  {}

  /** A text of up to ten characters with one that is no digit has the word 0. */
  lemma NoNumber(s: string)
    requires 1 <= |s| <= 10 && s[0] != '-' && !AllDigits(s)
    ensures WordOf(s) == 0
  {
    hide GroupValue, Groups, AllDigits;
    NotAGroup(s);
    NoMoreGroups(s + ['\0'], |s|, 0);
  }

  lemma NotAGroup(s: string)
    requires !AllDigits(s)
    ensures GroupValue(s + ['\0'], 0, |s|) == 0
  {
    hide DecimalValue;
    assert (s + ['\0'])[0..|s|] == s;
  }

  // ---------- Longer texts ----------

  /** The number ten characters stand for in a group, 0 if one of them is no digit. */
  function TenValue(t: string): u32 {
    if AllDigits(t) then DecimalValue(t) % 0x1_0000_0000 else 0
  }

  lemma {:induction false} OneMoreGroup(line: string, p: nat, q: nat, word: u32)
    requires p <= q && (q - p) % DIGITS_PER_INT == 0
    ensures Groups(line, p, q + DIGITS_PER_INT, word)
         == NextWord(Groups(line, p, q, word), GroupValue(line, q, DIGITS_PER_INT))
    decreases q - p
  {
    hide NextWord, GroupValue;
    if p < q {
      OneMoreGroup(line, p + DIGITS_PER_INT, q, NextWord(word, GroupValue(line, p, DIGITS_PER_INT)));
    } else {
      NoMoreGroups(line, q + DIGITS_PER_INT, NextWord(word, GroupValue(line, q, DIGITS_PER_INT)));
    }
  }

  lemma SameGroup(s: string, t: string, p: nat, n: nat)
    requires p + n <= |s|
    ensures GroupValue(s + ['\0'], p, n) == GroupValue(s + t + ['\0'], p, n)
  {
    hide DecimalValue;
    assert (s + ['\0'])[p..p + n] == (s + t + ['\0'])[p..p + n];
  }

  lemma {:induction false} SameGroups(s: string, t: string, p: nat, word: u32)
    requires p <= |s| && (|s| - p) % DIGITS_PER_INT == 0
    ensures Groups(s + ['\0'], p, |s|, word) == Groups(s + t + ['\0'], p, |s|, word)
    decreases |s| - p
  {
    hide GroupValue, NextWord;
    if p < |s| {
      SameGroup(s, t, p, DIGITS_PER_INT);
      SameGroups(s, t, p + DIGITS_PER_INT, NextWord(word, GroupValue(s + ['\0'], p, DIGITS_PER_INT)));
    }
  }

  lemma LastGroup(s: string, t: string)
    requires |t| == DIGITS_PER_INT
    ensures GroupValue(s + t + ['\0'], |s|, DIGITS_PER_INT) == TenValue(t)
  {
    hide DecimalValue;
    assert (s + t + ['\0'])[|s|..|s| + DIGITS_PER_INT] == t;
  }

  lemma OnlyASign(t: string)
    requires |t| == 10
    ensures WordOf(['-']) == 0 && WordOf(['-'] + t) == TenValue(t)
  {
    hide DecimalValue;
    LastGroup(['-'], t);
    NoMoreGroups(['-'] + t + ['\0'], 11, TenValue(t));
  }

  function SignLength(str: string): nat {
    if str != [] && str[0] == '-' then 1 else 0
  }

  lemma WordOfIs(str: string, p: nat, n: nat)
    requires p == SignLength(str) && |str| < 0x1_0000_0000 && n == FirstGroup(|str| - p)
    ensures WordOf(str) == Groups(str + ['\0'], p + n, |str|, GroupValue(str + ['\0'], p, n))
  {
    hide GroupValue, Groups, FirstGroup;
  }

  lemma FirstGroupFits(digits: nat)
    requires 0 < digits && digits + 10 < 0x1_0000_0000
    ensures FirstGroup(digits) <= digits && (digits - FirstGroup(digits)) % DIGITS_PER_INT == 0
    ensures FirstGroup(digits + DIGITS_PER_INT) == FirstGroup(digits)
  {}

  /** Ten more characters at the end of a text, short of 2^32 in all, multiply its word by the radix constant,
      which is not 10^10, and add their number, each time modulo 2^32. */
  lemma TenMoreDigits(s: string, t: string)
    requires s != [] && |t| == 10 && |s| + 10 < 0x1_0000_0000
    ensures WordOf(s + t) == ((387420489 * WordOf(s)) % 0x1_0000_0000 + TenValue(t)) % 0x1_0000_0000
  {
    hide WordOf, GroupValue, Groups, TenValue, FirstGroup;
    if s == ['-'] {
      OnlyASign(t);
    } else {
      var p := SignLength(s);
      FirstGroupFits(|s| - p);
      var n := FirstGroup(|s| - p);
      WordOfIs(s, p, n); WordOfIs(s + t, p, n);
      LastGroup(s, t);
      SameGroup(s, t, p, n);
      SameGroups(s, t, p + n, GroupValue(s + ['\0'], p, n));
      OneMoreGroup(s + t + ['\0'], p + n, |s|, GroupValue(s + ['\0'], p, n));
    }
  }

  /** "12345678901" is taken for 2733099390. */
  lemma ElevenDigits()
    ensures WordOf(Decimal(1) + Decimal(2345678901)) == 2733099390
  {
    hide WordOf, DecimalValue, Pow10, Decimal;
    ShortDecimalWord(1);
    PowTen(); PowNine();
    DecimalLength(2345678901, 10); DecimalLength(2345678901, 9);
    DecimalMeans(2345678901);
    PowAtLeastTen(1);
    DecimalLength(1, 1);
    TenMoreDigits(Decimal(1), Decimal(2345678901));
  }

  lemma PowNine()
    ensures Pow10(9) == 1000000000
  {}

  // ---------- Numbers with a sign ----------

  function SignedDecimal(n: int): string {
    if n < 0 then ['-'] + Decimal(-n) else Decimal(n)
  }

  function Magnitude(n: int): nat {
    if n < 0 then -n else n
  }

  function Sign(n: int): int {
    if n < 0 then -1 else if n == 0 then 0 else 1
  }

  lemma GroupAfterSign(s: string)
    requires AllDigits(s)
    ensures GroupValue(['-'] + s + ['\0'], 1, |s|) == DecimalValue(s) % 0x1_0000_0000
  {
    hide DecimalValue;
    assert (['-'] + s + ['\0'])[1..1 + |s|] == s;
  }

  /** A minus sign and a single group of one to ten digits. */
  lemma OneGroupAfterSign(s: string)
    requires 1 <= |s| <= 10 && AllDigits(s)
    ensures WordOf(['-'] + s) == DecimalValue(s) % 0x1_0000_0000
  {
    hide DecimalValue, GroupValue, Groups;
    var line := ['-'] + s + ['\0'];
    GroupAfterSign(s);
    NoMoreGroups(line, 1 + |s|, GroupValue(line, 1, |s|));
  }

  /** The token of a signed number: the magnitude, under a sign word that for negative numbers is the largest. */
  lemma SignedToken(n: int)
    requires -0x1_0000_0000 < n < 0x1_0000_0000
    ensures ParsedToken(SignedDecimal(n))
         == Token(if n < 0 then 0xffff_ffff else if n == 0 then 0 else 1, 1, [Magnitude(n), 0, 0, 0])
  {
    hide WordOf, Decimal, DecimalValue, Pow10;
    if n < 0 {
      var s := Decimal(-n);
      PowTen();
      DecimalLength(-n, 10);
      DecimalMeans(-n);
      OneGroupAfterSign(s);
    } else {
      ShortDecimalWord(n);
    }
  }

  /** The order of signed numbers on the ring: those without a minus sign come first and in numeric order, then
      those with one, in reverse. */
  lemma SignedOrder(u: int, v: int)
    requires -0x1_0000_0000 < u < 0x1_0000_0000 && -0x1_0000_0000 < v < 0x1_0000_0000
    ensures Compare(ParsedToken(SignedDecimal(u)), ParsedToken(SignedDecimal(v))) ==
      if u < 0 && v < 0 then Sign(v - u) else if u < 0 then 1 else if v < 0 then -1 else Sign(u - v)
  {
    hide WordOf, SignOf, Decimal, SignedDecimal;
    SignedToken(u); SignedToken(v);
    var s, t := ParsedToken(SignedDecimal(u)), ParsedToken(SignedDecimal(v));
    var a, b := Magnitude(u), Magnitude(v);
    assert s.mag[..s.length] == [a] && t.mag[..t.length] == [b];
    assert CompareWords([a], [b]) == if a == b then 0 else if a > b then 1 else -1;
  }

  /** So ring order is numeric order exactly for equal numbers and for two without a minus sign. */
  lemma SignedOrderIsNumericIff(u: int, v: int)
    requires -0x1_0000_0000 < u < 0x1_0000_0000 && -0x1_0000_0000 < v < 0x1_0000_0000
    ensures Compare(ParsedToken(SignedDecimal(u)), ParsedToken(SignedDecimal(v))) == Sign(u - v) <==>
      u == v || (u >= 0 && v >= 0)
  {
    hide ParsedToken, SignedDecimal, Compare;
    SignedOrder(u, v);
  }

  /** The token a key is routed by: parsed first, then overwritten by the hash. Nothing of the parse is left. */
  method KeyToken(key: string, hash: u32, token: TokenCell)
    requires token.Valid()
    modifies token, token.mag
    ensures token.Value() == Token(if hash > 0 then 1 else 0, 1, old(token.mag[..])[0 := hash])
    ensures old(token.mag[..])[1..] == [0, 0, 0] ==> token.Value() == IntToken(hash)
  {
    token.Parse(key);
    token.SetSize(1);
    token.SetInt(hash);
  }
}
