/** Configuring a datacenter before the start: naming racks and adding nodes to them. */
module Setup {
  import opened Pool
  import opened Ring
  import opened Tokens

  /** A rack: node_count entries and pool slots, of which the first ncontinuum entries are in use. */
  datatype Rack = Rack(name: Option<string>, ncontinuum: nat, ring: array<Continuum>, pool: seq<Slot>)

  /** An entry as allocated. */
  const ZEROED := Continuum(0, Node(Endpoint("", 0, None), Token(0, 0, [0, 0, 0, 0])))

  lemma ZeroedIs()
    ensures ZEROED.index == 0 && ZEROED.node.endpoint.port == 0 && ZEROED.node.endpoint.pass.None?
    ensures ZEROED.node.endpoint.host == [] && ZEROED.node.token.signum == ZEROED.node.token.length == 0
    ensures |ZEROED.node.token.mag| == MAG_WORDS && forall w :: w in ZEROED.node.token.mag ==> w == 0
  {}

  /** A slot as dynoc_rack_init leaves it: INVALID and NULL. */
  const EMPTY := Slot(false, None)

  /** A rack as configured so far: its ring entries are those added, in order of addition. */
  datatype RackSetup = RackSetup(name: Option<string>, nodeCount: nat, continuum: seq<Continuum>)

  predicate InBounds(r: Rack) {
    r.ncontinuum <= r.ring.Length
  }

  function View(r: Rack): RackSetup
    requires InBounds(r)
    reads r.ring
  {
    RackSetup(r.name, r.ring.Length, r.ring[..r.ncontinuum])
  }

  /** One call of dynoc_add_node. */
  datatype Addition = Addition(endpoint: Endpoint, tokenStr: string, rackName: string)

  function NodeOf(a: Addition): (n: Node)
    ensures GoodNode(n)
  {
    Node(a.endpoint, ParsedToken(a.tokenStr))
  }

  predicate Named(r: RackSetup, name: string) {
    r.name == Some(name)
  }

  function WithNode(r: RackSetup, a: Addition): RackSetup {
    if Named(r, a.rackName) then r.(continuum := r.continuum + [Continuum(|r.continuum|, NodeOf(a))]) else r
  }

  function WithNodes(r: RackSetup, additions: seq<Addition>): RackSetup {
    if additions == [] then r
    else WithNode(WithNodes(r, additions[..|additions| - 1]), additions[|additions| - 1])
  }

  /** Whether there is room for one more node in every rack it goes to: the code does not check. */
  ghost predicate HasRoom(racks: seq<Rack>, a: Addition) {
    forall i :: 0 <= i < |racks| && racks[i].name == Some(a.rackName) ==> racks[i].ncontinuum < racks[i].ring.Length
  }

  ghost predicate FirstUnnamed(racks: seq<Rack>, i: nat)
    requires i < |racks|
  {
    racks[i].name.None? && forall j :: 0 <= j < i ==> racks[j].name.Some?
  }

  ghost predicate PoolEmpty(r: Rack) {
    r.pool == seq(r.ring.Length, _ => EMPTY)
  }

  /** Slots empty, unused entries zeroed, and in use exactly what these additions make of an empty rack. */
  ghost predicate Holds(r: Rack, additions: seq<Addition>)
    reads r.ring
  {
    && InBounds(r) && PoolEmpty(r)
    && (forall n :: r.ncontinuum <= n < r.ring.Length ==> r.ring[n] == ZEROED)
    && View(r) == WithNodes(RackSetup(r.name, r.ring.Length, []), additions)
  }

  lemma EmptyHolds(r: Rack)
    requires r.ncontinuum == 0 && r.pool == seq(r.ring.Length, _ => EMPTY)
    requires forall n :: 0 <= n < r.ring.Length ==> r.ring[n] == ZEROED
    ensures Holds(r, []) && View(r) == RackSetup(r.name, r.ring.Length, [])
  {}

  lemma NodesPassed(additions: seq<Addition>, name: Option<string>)
    ensures |NodesFor(additions, name)| == |Passed(additions, name)|
    ensures EndpointsOf(NodesFor(additions, name)) == EndpointsPassed(additions, name)
  {
    hide NodesFor, Passed, WithNodes;
    RackHoldsItsNodes(RackSetup(name, 0, []), additions);
    var s := WithNodes(RackSetup(name, 0, []), additions);
    forall k | 0 <= k < |s.continuum|
      ensures EndpointsOf(NodesFor(additions, name))[k] == EndpointsPassed(additions, name)[k]
    {
      assert NodesFor(additions, name)[k] == Nodes(s.continuum)[k];
    }
  }

  function EndpointsOf(nodes: seq<Node>): (endpoints: seq<Endpoint>)
    ensures |endpoints| == |nodes|
  {
    seq(|nodes|, i requires 0 <= i < |nodes| => nodes[i].endpoint)
  }

  lemma OneTaken(v: seq<Node>, i: nat) returns (rest: seq<Node>)
    requires i < |v|
    ensures rest == v[..i] + v[i + 1..]
    ensures multiset(v) == multiset{v[i]} + multiset(rest)
    ensures multiset(EndpointsOf(v)) == multiset{v[i].endpoint} + multiset(EndpointsOf(rest))
  {
    rest := v[..i] + v[i + 1..];
    assert v == v[..i] + [v[i]] + v[i + 1..];
    assert EndpointsOf(v) == EndpointsOf(v[..i]) + [v[i].endpoint] + EndpointsOf(v[i + 1..]);
    assert EndpointsOf(rest) == EndpointsOf(v[..i]) + EndpointsOf(v[i + 1..]);
  }

  /** The same nodes in another order have the same endpoints in another order. */
  lemma {:induction false} SameEndpoints(u: seq<Node>, v: seq<Node>)
    requires multiset(u) == multiset(v)
    ensures multiset(EndpointsOf(u)) == multiset(EndpointsOf(v))
    decreases u
  {
    hide EndpointsOf;
    if u == [] {
      assert |v| == |multiset(v)| == |multiset(u)| == 0;
      assert v == u;
    } else {
      assert u[0] in multiset(v);
      var i :| 0 <= i < |v| && v[i] == u[0];
      var front := OneTaken(u, 0);
      var back := OneTaken(v, i);
      assert multiset(front) == multiset(u) - multiset{u[0]} == multiset(back);
      SameEndpoints(front, back);
    }
  }

  /** A rack holds the nodes added under its name. */
  lemma HoldsItsNodes(r: Rack, additions: seq<Addition>)
    requires Holds(r, additions)
    ensures r.ncontinuum <= r.ring.Length && Nodes(r.ring[..r.ncontinuum]) == NodesFor(additions, r.name)
    ensures GoodRing(Nodes(r.ring[..r.ncontinuum]))
  {
    hide WithNodes, NodesFor, GoodRing;
    RackHoldsItsNodes(RackSetup(r.name, r.ring.Length, []), additions);
  }

  lemma WithOneMore(r: RackSetup, additions: seq<Addition>, a: Addition)
    ensures WithNodes(r, additions + [a]) == WithNode(WithNodes(r, additions), a)
  {
    assert (additions + [a])[..|additions|] == additions;
  }

  lemma {:induction false} SameName(r: RackSetup, additions: seq<Addition>)
    ensures WithNodes(r, additions).name == r.name && WithNodes(r, additions).nodeCount == r.nodeCount
  {
    if additions != [] { SameName(r, additions[..|additions| - 1]); }
  }

  /** What an addition leaves of a rack: under the added node's name its next entry, with that index, endpoint and
      parsed token, after the entries from before; otherwise no change. */
  ghost predicate Filled(before: RackSetup, r: Rack, a: Addition)
    reads r.ring
  {
    var n := |before.continuum|;
    if before.name == Some(a.rackName) then
      && r.ncontinuum == n + 1 <= r.ring.Length && r.ring[..n] == before.continuum
      && r.ring[n].index == n
      && r.ring[n].node.endpoint == a.endpoint && r.ring[n].node.token == ParsedToken(a.tokenStr)
    else r.ncontinuum == n <= r.ring.Length && r.ring[..n] == before.continuum
  }

  ghost predicate HasAdded(before: RackSetup, r: Rack, additions: seq<Addition>, a: Addition)
    reads r.ring
  {
    Holds(r, additions + [a]) && View(r) == WithNode(before, a) && Filled(before, r, a)
  }

  /** The rack's part of dynoc_add_node: if it has that name, its next entry is filled in and counted. */
  method AddTo(rack: Rack, a: Addition, ghost additions: seq<Addition>) returns (r: Rack)
    requires Holds(rack, additions) && (rack.name == Some(a.rackName) ==> rack.ncontinuum < rack.ring.Length)
    modifies rack.ring
    ensures r.ring == rack.ring && HasAdded(old(View(rack)), r, additions, a)
  {
    ghost var before, empty := View(rack), RackSetup(rack.name, rack.ring.Length, []);
    WithOneMore(empty, additions, a);
    SameName(empty, additions);
    r := rack;
    var index := rack.ncontinuum;
    if rack.name.Some? && rack.name.value == a.rackName {
      var c := ContinuumInit(a.endpoint, a.tokenStr, index);
      rack.ring[index] := c;
      r := rack.(ncontinuum := index + 1);
      assert r.ring[..index + 1] == before.continuum + [c];
    }
  }

  lemma Held(before: RackSetup, r: Rack, additions: seq<Addition>, a: Addition)
    requires HasAdded(before, r, additions, a)
    ensures Holds(r, additions + [a])
  {}

  /** Nodes that are these, in any order, have these endpoints. */
  ghost predicate Matches(nodes: multiset<Node>, endpoints: multiset<Endpoint>) {
    forall s: seq<Node> :: multiset(s) == nodes ==> multiset(EndpointsOf(s)) == endpoints
  }

  ghost function RingSet(racks: seq<Rack>): set<object> {
    set i | 0 <= i < |racks| :: racks[i].ring
  }

  class Datacenter {
    var racks: seq<Rack>

    /** Every node added so far, and for each rack how many of them were when it got its name. */
    ghost var added: seq<Addition>
    ghost var since: seq<nat>

    ghost function Rings(): set<object>
      reads this
    {
      RingSet(racks)
    }

    /** The racks are separate, and each holds exactly what was added under its name since it got it. */
    ghost predicate Valid()
      reads this, Rings()
    {
      && |since| == |racks|
      && (forall i, j :: 0 <= i < j < |racks| ==> racks[i].ring != racks[j].ring)
      && forall i :: 0 <= i < |racks| ==> since[i] <= |added| && Holds(racks[i], added[since[i]..])
    }

    /** The nodes each rack has been given. */
    ghost function Given(): (nodes: seq<multiset<Node>>)
      requires Valid()
      reads this, Rings()
      ensures |nodes| == |racks|
    {
      var (r, s, a) := (racks, since, added);
      seq(|r|, i requires 0 <= i < |r| <= |s| && s[i] <= |a| => multiset(NodesFor(a[s[i]..], r[i].name)))
    }

    /** The endpoints each rack has been given. */
    ghost function GivenEndpoints(): (endpoints: seq<multiset<Endpoint>>)
      requires Valid()
      reads this, Rings()
      ensures |endpoints| == |racks|
    {
      var (r, s, a) := (racks, since, added);
      seq(|r|, i requires 0 <= i < |r| <= |s| && s[i] <= |a| => multiset(EndpointsPassed(a[s[i]..], r[i].name)))
    }

    lemma GivenMatches(i: nat)
      requires Valid() && i < |racks|
      ensures Matches(Given()[i], GivenEndpoints()[i])
    {
      hide NodesFor, EndpointsPassed, Passed, EndpointsOf;
      var additions, name := added[since[i]..], racks[i].name;
      NodesPassed(additions, name);
      forall nodes: seq<Node> | multiset(nodes) == Given()[i]
        ensures multiset(EndpointsOf(nodes)) == GivenEndpoints()[i]
      {
        SameEndpoints(nodes, NodesFor(additions, name));
      }
    }

    /** dynoc_datacenter_init: racks without a name. */
    constructor (rackCount: nat)
      ensures Valid() && fresh(Rings()) && added == []
      ensures |racks| == rackCount && forall i :: 0 <= i < rackCount ==> View(racks[i]) == RackSetup(None, 0, [])
    {
      racks, added, since := [], [], [];
      new;
      hide Holds, View;
      for i := 0 to rackCount
        invariant |racks| == i && Valid() && added == []
        invariant forall j :: 0 <= j < i ==>
          fresh(racks[j].ring) && InBounds(racks[j]) && View(racks[j]) == RackSetup(None, 0, [])
      {
        var none := new Continuum[0];
        racks, since := racks + [Rack(None, 0, none, [])], since + [0];
        assert racks[i].pool == seq(0, _ => EMPTY);
        EmptyHolds(racks[i]);
      }
    }

    /** dynoc_rack_init: the first rack without a name takes the name and gets its entries and slots. */
    method RackInit(nodeCount: nat, name: string)
      requires Valid()
      modifies this
      ensures Valid() && added == old(added) && |racks| == |old(racks)|
      ensures fresh(Rings() - old(Rings()))
      ensures forall i :: 0 <= i < |racks| ==>
        if FirstUnnamed(old(racks), i)
        then
          && View(racks[i]) == RackSetup(Some(name), nodeCount, []) && racks[i].pool == seq(nodeCount, _ => EMPTY)
          && since[i] == |added|
        else racks[i] == old(racks)[i] && since[i] == old(since)[i]
    {
      hide Holds;
      for i := 0 to |racks|
        invariant racks == old(racks) && forall j :: 0 <= j < i ==> racks[j].name.Some?
        invariant Valid() && added == old(added) && since == old(since)
      {
        if racks[i].name.None? {
          var ring := new Continuum[nodeCount](_ => ZEROED);
          var rack := Rack(Some(name), 0, ring, seq(nodeCount, _ => EMPTY));
          EmptyHolds(rack);
          racks, since := racks[i := rack], since[i := |added|];
          assert added[since[i]..] == [];
          break;
        }
      }
    }

    /** dynoc_add_node: every rack of that name gets the node as its next ring entry. */
    method AddNode(a: Addition)
      requires Valid() && HasRoom(racks, a)
      modifies this, Rings()
      ensures Valid() && Rings() == old(Rings()) && |racks| == |old(racks)|
      ensures added == old(added) + [a] && since == old(since)
      ensures forall i :: 0 <= i < |racks| ==>
        && racks[i].ring == old(racks)[i].ring
        && HasAdded(old(View(racks[i])), racks[i], old(added[since[i]..]), a)
    {
      hide Holds, View, HasAdded;
      ghost var before, history := racks, added;
      AllInBounds();
      for i := 0 to |racks|
        invariant |racks| == |before| && since == old(since) && added == history
        invariant forall j :: 0 <= j < |racks| ==> racks[j].ring == before[j].ring
        invariant forall j :: i <= j < |racks| ==> racks[j] == before[j] && Holds(racks[j], history[since[j]..])
        invariant forall j :: i <= j < |racks| ==> InBounds(racks[j]) && View(racks[j]) == old(View(racks[j]))
        invariant forall j :: 0 <= j < i ==> HasAdded(old(View(racks[j])), racks[j], history[since[j]..], a)
      {
        var rack := AddTo(racks[i], a, history[since[i]..]);
        racks := racks[i := rack];
      }
      added := added + [a];
      forall j | 0 <= j < |racks|
        ensures Holds(racks[j], added[since[j]..])
      {
        assert added[since[j]..] == history[since[j]..] + [a];
        Held(old(View(racks[j])), racks[j], history[since[j]..], a);
      }
    }

    lemma AllInBounds()
      requires Valid()
      ensures forall i :: 0 <= i < |racks| ==> InBounds(racks[i])
    {}
  }

  /** The nodes of the additions that name a rack, in order. */
  function NodesFor(additions: seq<Addition>, name: Option<string>): seq<Node> {
    if additions == [] then []
    else
      var rest, a := NodesFor(additions[..|additions| - 1], name), additions[|additions| - 1];
      if name == Some(a.rackName) then rest + [NodeOf(a)] else rest
  }

  /** The endpoints and token texts of the additions that name a rack, in order. */
  function Passed(additions: seq<Addition>, name: Option<string>): seq<(Endpoint, string)> {
    if additions == [] then []
    else
      var rest, a := Passed(additions[..|additions| - 1], name), additions[|additions| - 1];
      if name == Some(a.rackName) then rest + [(a.endpoint, a.tokenStr)] else rest
  }

  function EndpointsPassed(additions: seq<Addition>, name: Option<string>): (endpoints: seq<Endpoint>)
    ensures |endpoints| == |Passed(additions, name)|
    ensures forall k :: 0 <= k < |endpoints| ==> endpoints[k] == Passed(additions, name)[k].0
  {
    seq(|Passed(additions, name)|, k requires 0 <= k < |Passed(additions, name)| => Passed(additions, name)[k].0)
  }

  /** Which additions those are: an addition is passed on in its turn exactly if it names the rack. */
  lemma {:induction false} PassedConcat(u: seq<Addition>, v: seq<Addition>, name: Option<string>)
    ensures Passed(u + v, name) == Passed(u, name) + Passed(v, name)
    decreases v
  {
    if v == [] {
      assert u + v == u;
    } else {
      var m := |v| - 1;
      assert (u + v)[..|u| + m] == u + v[..m];
      PassedConcat(u, v[..m], name);
    }
  }

  /** After any run of additions a rack that was empty holds exactly the nodes added under its name, in order,
      each entry indexed by its position and fit to be sorted into a ring. */
  lemma {:induction false} RackHoldsItsNodes(r: RackSetup, additions: seq<Addition>)
    requires r.continuum == []
    ensures var s := WithNodes(r, additions);
      && s.name == r.name && s.nodeCount == r.nodeCount
      && Nodes(s.continuum) == NodesFor(additions, r.name)
      && Indexed(s.continuum) && GoodRing(Nodes(s.continuum))
      && |s.continuum| == |Passed(additions, r.name)|
      && forall k :: 0 <= k < |s.continuum| ==>
           && s.continuum[k].node.endpoint == Passed(additions, r.name)[k].0
           && s.continuum[k].node.token == ParsedToken(Passed(additions, r.name)[k].1)
  {
    if additions != [] {
      RackHoldsItsNodes(r, additions[..|additions| - 1]);
    }
  }
}
