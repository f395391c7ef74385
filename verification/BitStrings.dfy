/** Strings of bits and where two of them differ, for the checksums. */
module BitStrings {
  /** Where two strings of bits differ. */
  function XorBits(u: seq<bool>, v: seq<bool>): (w: seq<bool>)
    requires |u| == |v|
    ensures |w| == |u|
  {
    seq(|u|, i requires 0 <= i < |u| => u[i] != v[i])
  }

  function NoBits(n: nat): (bits: seq<bool>)
    ensures |bits| == n
  {
    seq(n, _ => false)
  }

  lemma Cut(bits: seq<bool>, p: nat, n: nat)
    requires p + n <= |bits|
    ensures bits == bits[..p] + (bits[p..p + n] + bits[p + n..])
  {}

  lemma XorBit(a: bool, b: bool)
    ensures XorBits([a], [b]) == [a != b]
  {}

  lemma XorBitsConcat(a: seq<bool>, b: seq<bool>, c: seq<bool>, d: seq<bool>)
    requires |a| == |b| && |c| == |d|
    ensures XorBits(a + c, b + d) == XorBits(a, b) + XorBits(c, d)
  {}

  lemma XorBitsTwice(a: seq<bool>, d: seq<bool>)
    requires |a| == |d|
    ensures XorBits(a, XorBits(a, d)) == d
  {}

  lemma NoDifferenceIff(u: seq<bool>, v: seq<bool>)
    requires |u| == |v|
    ensures XorBits(u, v) == NoBits(|u|) <==> u == v
  {
    if XorBits(u, v) == NoBits(|u|) {
      forall i | 0 <= i < |u|
        ensures u[i] == v[i]
      {
        assert XorBits(u, v)[i] == NoBits(|u|)[i];
      }
    }
  }

  /** Nothing is changed outside the n bits from p on, and those by the difference d. */
  ghost predicate ChangedBy(a: seq<bool>, b: seq<bool>, p: nat, n: nat, d: seq<bool>) {
    && |a| == |b| && p + n <= |a|
    && a[..p] == b[..p] && a[p + n..] == b[p + n..]
    && XorBits(a[p..p + n], b[p..p + n]) == d
  }

  lemma DifferenceIn(a: seq<bool>, b: seq<bool>, x: seq<bool>, p: nat, d: seq<bool>, m: nat)
    requires |a| == |b| == |x| && XorBits(a, b) == x && x == NoBits(p) + d + NoBits(m)
    ensures ChangedBy(a, b, p, |d|, d)
  {
    forall j | 0 <= j < |a|
      ensures (a[j] != b[j]) == x[j]
    {
      assert XorBits(a, b)[j] == x[j];
    }
  }
}
