/** One rack's token ring: sorting and re-indexing it, finding the node a token is routed to, and what
    adding a node does to the routing. */
module Ring {
  import opened Tokens
  import opened Words

  datatype Option<+T> = None | Some(value: T)

  datatype Endpoint = Endpoint(host: string, port: int, pass: Option<string>)

  /** A node as configured. Its token is never written again after continuum_init. */
  datatype Node = Node(endpoint: Endpoint, token: Token)

  /** A ring entry: a node and its position in the sorted ring. */
  datatype Continuum = Continuum(index: nat, node: Node)

  ghost predicate GoodNode(n: Node) {
    WellFormed(n.token)
  }

  ghost predicate GoodRing(nodes: seq<Node>) {
    forall i :: 0 <= i < |nodes| ==> GoodNode(nodes[i])
  }

  /** Before or at the same place in the ring order. */
  ghost predicate NotAfter(m: Node, n: Node) {
    GoodNode(m) && GoodNode(n) && Compare(m.token, n.token) <= 0
  }

  ghost predicate Sorted(nodes: seq<Node>) {
    GoodRing(nodes) && forall i, j :: 0 <= i < j < |nodes| ==> NotAfter(nodes[i], nodes[j])
  }

  function Nodes(ring: seq<Continuum>): (nodes: seq<Node>)
    ensures |nodes| == |ring|
    ensures forall i :: 0 <= i < |ring| ==> nodes[i] == ring[i].node
  {
    seq(|ring|, i requires 0 <= i < |ring| => ring[i].node)
  }

  ghost predicate Indexed(ring: seq<Continuum>) {
    forall i :: 0 <= i < |ring| ==> ring[i].index == i
  }

  /** What the rest of the client needs of a rack's entries once it is started. */
  ghost predicate Ready(ring: seq<Continuum>) {
    Sorted(Nodes(ring)) && Indexed(ring)
  }

  // ---------- Building the ring ----------

  /** continuum_init. */
  method ContinuumInit(endpoint: Endpoint, tokenStr: string, index: nat) returns (c: Continuum)
    ensures c == Continuum(index, Node(endpoint, ParsedToken(tokenStr)))
    ensures GoodNode(c.node)
  {
    var token := new TokenCell();
    token.SetSize(1);
    token.Parse(tokenStr);
    c := Continuum(index, Node(endpoint, token.Value()));
  }

  ghost predicate SortedUpTo(nodes: seq<Node>, n: nat)
    requires n <= |nodes|
  {
    forall i, j :: 0 <= i < j < n ==> NotAfter(nodes[i], nodes[j])
  }

  /** The library sort of the first n entries, for which insertion stands in: any sort with this contract
      would do below. */
  method QSort(a: array<Continuum>, n: nat)
    requires n <= a.Length && GoodRing(Nodes(a[..n]))
    modifies a
    ensures Sorted(Nodes(a[..n])) && a[n..] == old(a[n..])
    ensures multiset(Nodes(a[..n])) == multiset(old(Nodes(a[..n])))
  {
    var m := 0;
    while m < n
      invariant 0 <= m <= n
      invariant GoodRing(Nodes(a[..n])) && SortedUpTo(Nodes(a[..n]), m) && a[n..] == old(a[n..])
      invariant multiset(Nodes(a[..n])) == multiset(old(Nodes(a[..n])))
    {
      Insert(a, m, n);
      m := m + 1;
    }
  }

  method SwapWithLeft(a: array<Continuum>, i: nat, n: nat)
    requires 0 < i < n <= a.Length && GoodRing(Nodes(a[..n]))
    modifies a
    ensures a[i - 1] == old(a[i]) && a[i] == old(a[i - 1])
    ensures forall j :: 0 <= j < a.Length && j != i - 1 && j != i ==> a[j] == old(a[j])
    ensures GoodRing(Nodes(a[..n])) && multiset(Nodes(a[..n])) == multiset(old(Nodes(a[..n])))
  {
    ghost var before := Nodes(a[..n]);
    a[i - 1], a[i] := a[i], a[i - 1];
    assert Nodes(a[..n]) == before[i - 1 := before[i]][i := before[i - 1]];
  }

  method Insert(a: array<Continuum>, m: nat, n: nat)
    requires m < n <= a.Length && GoodRing(Nodes(a[..n])) && SortedUpTo(Nodes(a[..n]), m)
    modifies a
    ensures GoodRing(Nodes(a[..n])) && SortedUpTo(Nodes(a[..n]), m + 1) && a[n..] == old(a[n..])
    ensures multiset(Nodes(a[..n])) == multiset(old(Nodes(a[..n])))
  {
    hide Compare, WellFormed;
    var i := m;
    while i > 0
      invariant 0 <= i <= m
      invariant GoodRing(Nodes(a[..n])) && a[n..] == old(a[n..])
      invariant forall j, k :: 0 <= j < k <= m && k != i ==> NotAfter(a[j].node, a[k].node)
      invariant multiset(Nodes(a[..n])) == multiset(old(Nodes(a[..n])))
    {
      assert a[i] == a[..n][i] && a[i - 1] == a[..n][i - 1];
      var r := TokenCmp(a[i - 1].node.token, a[i].node.token);
      if r <= 0 {
        Chain(a[..n], i, m);
        return;
      }
      CompareAntisymmetric(a[i - 1].node.token, a[i].node.token);
      SwapWithLeft(a, i, n);
      i := i - 1;
    }
  }

  /** Once the moved entry is not before its left neighbour, it is not before anything further left. */
  lemma Chain(ring: seq<Continuum>, i: nat, n: nat)
    requires 0 < i <= n < |ring| && GoodRing(Nodes(ring))
    requires forall j, k :: 0 <= j < k <= n && k != i ==> NotAfter(ring[j].node, ring[k].node)
    requires NotAfter(ring[i - 1].node, ring[i].node)
    ensures SortedUpTo(Nodes(ring), n + 1)
  {
    hide Compare, WellFormed;
    forall j, k | 0 <= j < k <= n
      ensures NotAfter(ring[j].node, ring[k].node)
    {
      if k == i && j < i - 1 {
        CompareIsTotalPreorder(ring[j].node.token, ring[i - 1].node.token, ring[i].node.token);
      }
    }
  }

  // ---------- Finding the node a token is routed to ----------

  /** Whether the token is at or before the node on the ring. */
  ghost predicate AtOrAfter(n: Node, q: Token)
    requires GoodNode(n) && WellFormed(q)
  {
    Compare(n.token, q) >= 0
  }

  /** The rule: the least node at or after the token, or, past the last node, the least node of all. */
  ghost predicate Owns(nodes: seq<Node>, q: Token, n: Node)
    requires GoodRing(nodes) && WellFormed(q)
  {
    && n in nodes
    && (AtOrAfter(n, q) || forall m :: m in nodes ==> !AtOrAfter(m, q))
    && forall m :: m in nodes && (AtOrAfter(n, q) ==> AtOrAfter(m, q)) ==> NotAfter(n, m)
  }

  /** Binary search with wrap-around over the first n entries. */
  method SelectContinuum(ring: array<Continuum>, n: nat, token: Token) returns (index: nat)
    requires 0 < n <= ring.Length && Ready(ring[..n]) && WellFormed(token)
    ensures index < n && Owns(Nodes(ring[..n]), token, ring[index].node)
  {
    hide Compare, WellFormed;
    ghost var nodes := Nodes(ring[..n]);
    var left, right := 0, n - 1;
    assert ring[left] == ring[..n][left] && ring[right] == ring[..n][right];
    var last := TokenCmp(ring[right].node.token, token);
    var first := TokenCmp(ring[left].node.token, token);
    if last < 0 || first >= 0 {
      EndOwns(nodes, token);
      return ring[left].index;
    }
    while left < right
      invariant 0 <= left <= right < n
      invariant left > 0 ==> !AtOrAfter(nodes[left - 1], token)
      invariant AtOrAfter(nodes[right], token)
    {
      var middle := left + (right - left) / 2;
      assert ring[middle] == ring[..n][middle];
      var cmp := TokenCmp(ring[middle].node.token, token);
      if cmp == 0 {
        EqualOwns(nodes, token, middle);
        return ring[middle].index;
      } else if cmp < 0 {
        left := middle + 1;
      } else {
        right := middle;
      }
    }
    assert ring[right] == ring[..n][right];
    BoundaryOwns(nodes, token, right);
    return ring[right].index;
  }

  lemma OrderedTokens(nodes: seq<Node>, i: nat, j: nat, q: Token)
    requires Sorted(nodes) && i <= j < |nodes| && WellFormed(q)
    ensures NotAfter(nodes[i], nodes[j])
    ensures AtOrAfter(nodes[i], q) ==> AtOrAfter(nodes[j], q)
  {
    hide Compare, WellFormed;
    var s, t := nodes[i].token, nodes[j].token;
    if i == j { CompareIsTotalPreorder(s, s, s); }
    CompareAntisymmetric(s, q); CompareAntisymmetric(t, q);
    CompareIsTotalPreorder(q, s, t);
  }

  lemma BoundaryOwns(nodes: seq<Node>, q: Token, r: nat)
    requires Sorted(nodes) && r < |nodes| && WellFormed(q)
    requires AtOrAfter(nodes[r], q) && (r > 0 ==> !AtOrAfter(nodes[r - 1], q))
    ensures Owns(nodes, q, nodes[r])
  {
    hide Compare, WellFormed, AtOrAfter;
    forall m | m in nodes && AtOrAfter(m, q)
      ensures NotAfter(nodes[r], m)
    {
      var j :| 0 <= j < |nodes| && nodes[j] == m;
      if j < r { OrderedTokens(nodes, j, r - 1, q); }
      else { OrderedTokens(nodes, r, j, q); }
    }
  }

  lemma EqualOwns(nodes: seq<Node>, q: Token, r: nat)
    requires Sorted(nodes) && r < |nodes| && WellFormed(q) && Compare(nodes[r].token, q) == 0
    ensures Owns(nodes, q, nodes[r])
  {
    hide Compare, WellFormed;
    forall m | m in nodes && AtOrAfter(m, q)
      ensures NotAfter(nodes[r], m)
    {
      CompareAntisymmetric(m.token, q);
      CompareIsTotalPreorder(nodes[r].token, q, m.token);
    }
  }

  lemma EndOwns(nodes: seq<Node>, q: Token)
    requires Sorted(nodes) && nodes != [] && WellFormed(q)
    requires !AtOrAfter(nodes[|nodes| - 1], q) || AtOrAfter(nodes[0], q)
    ensures Owns(nodes, q, nodes[0])
  {
    hide Compare, WellFormed, AtOrAfter;
    forall m | m in nodes
      ensures NotAfter(nodes[0], m)
      ensures AtOrAfter(m, q) ==> AtOrAfter(nodes[|nodes| - 1], q)
    {
      var j :| 0 <= j < |nodes| && nodes[j] == m;
      OrderedTokens(nodes, 0, j, q);
      OrderedTokens(nodes, j, |nodes| - 1, q);
    }
  }

  /** On a ring of numbers the owner of a number is the least that is not below it, or the least of all. */
  lemma OwnerByNumber(nodes: seq<Node>, values: Node -> u32, v: u32, n: Node)
    requires forall m :: m in nodes ==> m.token == IntToken(values(m))
    requires GoodRing(nodes) && WellFormed(IntToken(v)) && Owns(nodes, IntToken(v), n)
    ensures values(n) >= v ==> forall m :: m in nodes && values(m) >= v ==> values(n) <= values(m)
    ensures values(n) < v ==> forall m :: m in nodes ==> values(m) < v && values(n) <= values(m)
  {
    hide Compare, WellFormed, IntToken;
    forall m | m in nodes
      ensures AtOrAfter(m, IntToken(v)) <==> values(m) >= v
      ensures NotAfter(n, m) ==> values(n) <= values(m)
    {
      DecimalTokensAreNumbers(values(m), v);
      DecimalTokensAreNumbers(values(n), values(m));
    }
    assert n in nodes;
  }

  // ---------- Consistent hashing ----------

  ghost predicate Distinct(nodes: seq<Node>) {
    && GoodRing(nodes)
    && forall m, n :: m in nodes && n in nodes && m != n ==> Compare(m.token, n.token) != 0
  }

  /** With distinct tokens the rule names one node. */
  lemma OwnerUnique(nodes: seq<Node>, q: Token, m: Node, n: Node)
    requires Distinct(nodes) && WellFormed(q) && Owns(nodes, q, m) && Owns(nodes, q, n)
    ensures m == n
  {
    hide Compare, WellFormed;
    CompareAntisymmetric(m.token, n.token);
  }

  /** The node before t on the ring: the greatest token below t's, or, if there is none, the greatest of all. */
  ghost predicate Precedes(nodes: seq<Node>, p: Node, t: Node)
    requires GoodRing(nodes) && GoodNode(t)
  {
    && p in nodes
    && (Compare(p.token, t.token) < 0 || forall m :: m in nodes ==> Compare(m.token, t.token) >= 0)
    && forall m :: m in nodes && (Compare(p.token, t.token) < 0 ==> Compare(m.token, t.token) < 0) ==> NotAfter(m, p)
  }

  /** The arc of the ring after p up to and including t, past the end of the ring if t is not after p. */
  ghost predicate InArc(p: Token, q: Token, t: Token)
    requires WellFormed(p) && WellFormed(q) && WellFormed(t)
  {
    if Compare(p, t) < 0 then Compare(p, q) < 0 && Compare(q, t) <= 0
    else Compare(p, q) < 0 || Compare(q, t) <= 0
  }

  /** The arc between numbers: what is above p and not above t, or, past the end, what is one of both. */
  lemma ArcByNumber(p: u32, q: u32, t: u32)
    ensures WellFormed(IntToken(p)) && WellFormed(IntToken(q)) && WellFormed(IntToken(t))
    ensures InArc(IntToken(p), IntToken(q), IntToken(t)) <==> if p < t then p < q <= t else p < q || q <= t
  {
    hide Compare, WellFormed, IntToken;
    DecimalTokensAreNumbers(p, q);
    DecimalTokensAreNumbers(q, t);
    DecimalTokensAreNumbers(p, t);
  }

  ghost predicate Added(before: seq<Node>, t: Node, after: seq<Node>) {
    forall m :: m in after <==> m in before || m == t
  }

  lemma AddedFromMultiset(before: seq<Node>, t: Node, after: seq<Node>)
    requires multiset(after) == multiset(before) + multiset{t}
    ensures Added(before, t, after)
  {
    forall m
      ensures m in after <==> m in before || m == t
    {
      assert m in after <==> m in multiset(after);
      assert m in before <==> m in multiset(before);
    }
  }

  /** Consistent hashing: adding a node with a fresh token moves to it exactly the tokens on the arc between
      its predecessor and itself; every other token stays where it was. The order of the rings is free. */
  lemma OnlyTheArcMoves(before: seq<Node>, t: Node, after: seq<Node>, p: Node, q: Token,
                        ownerBefore: Node, ownerAfter: Node)
    requires Distinct(after) && GoodRing(before) && Added(before, t, after) && t !in before && WellFormed(q)
    requires Precedes(before, p, t)
    requires Owns(before, q, ownerBefore) && Owns(after, q, ownerAfter)
    ensures InArc(p.token, q, t.token) ==> ownerAfter == t
    ensures !InArc(p.token, q, t.token) ==> ownerAfter == ownerBefore
  {
    if InArc(p.token, q, t.token) {
      ArcOwnedByNew(before, t, after, p, q);
      OwnerUnique(after, q, ownerAfter, t);
    } else {
      OutsideArcKept(before, t, after, p, q, ownerBefore);
      OwnerUnique(after, q, ownerAfter, ownerBefore);
    }
  }

  /** All the order laws among three tokens. */
  lemma Laws(a: Token, b: Token, c: Token)
    requires WellFormed(a) && WellFormed(b) && WellFormed(c)
    ensures Compare(a, b) == -Compare(b, a) && Compare(b, c) == -Compare(c, b) && Compare(a, c) == -Compare(c, a)
    ensures Compare(a, b) <= 0 && Compare(b, c) <= 0 ==> Compare(a, c) <= 0
    ensures Compare(a, b) <= 0 && Compare(b, c) <= 0 && Compare(a, c) == 0 ==> Compare(a, b) == 0 == Compare(b, c)
    ensures Compare(b, c) <= 0 && Compare(c, a) <= 0 ==> Compare(b, a) <= 0
    ensures Compare(c, a) <= 0 && Compare(a, b) <= 0 ==> Compare(c, b) <= 0
    ensures Compare(a, a) == Compare(b, b) == Compare(c, c) == 0
  {
    hide Compare, WellFormed;
    CompareAntisymmetric(a, b); CompareAntisymmetric(b, c); CompareAntisymmetric(a, c);
    CompareIsTotalPreorder(a, b, c); CompareIsTotalPreorder(b, c, a); CompareIsTotalPreorder(c, a, b);
  }

  lemma ArcOwnedByNew(before: seq<Node>, t: Node, after: seq<Node>, p: Node, q: Token)
    requires Distinct(after) && GoodRing(before) && Added(before, t, after) && t !in before && WellFormed(q)
    requires Precedes(before, p, t) && InArc(p.token, q, t.token)
    ensures Owns(after, q, t)
  {
    hide Compare, WellFormed;
    Laws(p.token, q, t.token);
    forall m | m in after
      ensures !AtOrAfter(t, q) ==> !AtOrAfter(m, q)
      ensures (AtOrAfter(t, q) ==> AtOrAfter(m, q)) ==> NotAfter(t, m)
    {
      Laws(p.token, q, m.token); Laws(p.token, m.token, q);
      Laws(t.token, q, m.token); Laws(t.token, m.token, q);
      Laws(p.token, t.token, m.token);
    }
  }

  lemma OutsideArcKept(before: seq<Node>, t: Node, after: seq<Node>, p: Node, q: Token, n: Node)
    requires Distinct(after) && GoodRing(before) && Added(before, t, after) && t !in before && WellFormed(q)
    requires Precedes(before, p, t) && !InArc(p.token, q, t.token) && Owns(before, q, n)
    ensures Owns(after, q, n)
  {
    hide Compare, WellFormed;
    Laws(p.token, q, t.token); Laws(p.token, t.token, q);
    Laws(n.token, p.token, t.token); Laws(n.token, p.token, q); Laws(n.token, q, p.token);
    assert p in before && n in before;
  }

  /** Every sorted ring has a node before any new one. */
  lemma PredecessorExists(nodes: seq<Node>, t: Node) returns (p: Node)
    requires Sorted(nodes) && nodes != [] && GoodNode(t)
    ensures Precedes(nodes, p, t)
  {
    hide Compare, WellFormed;
    var i := |nodes| - 1;
    while i >= 0 && Compare(nodes[i].token, t.token) >= 0
      invariant -1 <= i < |nodes|
      invariant forall j :: i < j < |nodes| ==> Compare(nodes[j].token, t.token) >= 0
    {
      i := i - 1;
    }
    var r := if i >= 0 then i else |nodes| - 1;
    p := nodes[r];
    forall m | m in nodes && (Compare(p.token, t.token) < 0 ==> Compare(m.token, t.token) < 0)
      ensures NotAfter(m, p)
    {
      var j :| 0 <= j < |nodes| && nodes[j] == m;
      OrderedTokens(nodes, j, r, t.token);
    }
  }

  /** The same, for the whole of what the client does: two started racks, configured alike except for one more
      node, search their rings for the same token and come to entries with the same node, unless the token is
      on the arc of the new node; then the new node's entry is found. */
  method SearchBeforeAndAfter(before: array<Continuum>, m: nat, after: array<Continuum>, n: nat, t: Node, q: Token)
    returns (i: nat, j: nat, ghost p: Node)
    requires 0 < m <= before.Length && Ready(before[..m]) && n <= after.Length && Ready(after[..n])
    requires multiset(Nodes(after[..n])) == multiset(Nodes(before[..m])) + multiset{t}
    requires Distinct(Nodes(after[..n])) && t !in Nodes(before[..m]) && WellFormed(q)
    ensures i < m && j < n && GoodNode(p) && GoodNode(t) && Precedes(Nodes(before[..m]), p, t)
    ensures after[j].node == if InArc(p.token, q, t.token) then t else before[i].node
  {
    hide Owns, InArc, Compare, WellFormed, Distinct;
    AddedFromMultiset(Nodes(before[..m]), t, Nodes(after[..n]));
    assert t in Nodes(after[..n]);
    i := SelectContinuum(before, m, q);
    j := SelectContinuum(after, n, q);
    p := PredecessorExists(Nodes(before[..m]), t);
    OnlyTheArcMoves(Nodes(before[..m]), t, Nodes(after[..n]), p, q, before[i].node, after[j].node);
  }
}
