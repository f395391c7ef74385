/** The client object: starting the rings and pools, the health-check pass, and the retry loop of the
    commands over the racks. */
module Client {
  import opened Passes
  import opened Pool
  import opened Ring
  import opened Setup
  import opened Tokens
  import opened Words

  // ---------- The order in which a command visits racks ----------

  /** The retry loop's position: *dc_type and *rc_idx. */
  datatype Cursor = Cursor(dcType: DcType, rcIdx: nat)

  /** What select_connection makes of a position, given the number of local racks if there is a local
      datacenter: the rack it picks, if any. It tests the pointer dc_type, not the value it points to, so every
      call starts from the local datacenter. */
  function NextRack(localRacks: Option<nat>, hasRemote: bool, c: Cursor): (Option<(DcType, nat)>, Cursor) {
    if localRacks.None? then (None, c)
    else if c.rcIdx < localRacks.value then (Some((LocalDc, c.rcIdx)), c.(rcIdx := c.rcIdx + 1))
    else if c.dcType.RemoteDc? then (None, c)
    else if hasRemote then (Some((RemoteDc, 0)), Cursor(RemoteDc, 1))
    else (None, Cursor(RemoteDc, 0))
  }

  /** How many attempts a command makes at most. */
  function Attempts(localRacks: Option<nat>, hasRemote: bool): nat {
    match localRacks
    case None => 0
    case Some(n) => if !hasRemote then n else if n == 0 then 1 else 2 * n
  }

  /** The rack of attempt k: all local racks in order, remote rack 0, the local racks but the first again. */
  function RackOf(localRacks: nat, k: nat): (DcType, nat) {
    if k < localRacks then (LocalDc, k) else if k == localRacks then (RemoteDc, 0) else (LocalDc, k - localRacks)
  }

  function CursorAt(localRacks: nat, k: nat): Cursor {
    if k <= localRacks then Cursor(LocalDc, k) else Cursor(RemoteDc, k - localRacks)
  }

  /** The loop's position after k attempts. */
  predicate IsCursorAt(localRacks: Option<nat>, c: Cursor, k: nat) {
    localRacks.Some? ==> c == CursorAt(localRacks.value, k)
  }

  /** The positions the loop goes through pick exactly these racks, and then none. */
  lemma VisitOrder(localRacks: Option<nat>, hasRemote: bool, c: Cursor, k: nat)
    requires k <= Attempts(localRacks, hasRemote) && IsCursorAt(localRacks, c, k)
    ensures var (rack, next) := NextRack(localRacks, hasRemote, c);
      && (rack.Some? <==> k < Attempts(localRacks, hasRemote))
      && (rack.Some? ==> rack == Some(RackOf(localRacks.value, k)) && IsCursorAt(localRacks, next, k + 1))
  {}

  lemma AtStart(localRacks: Option<nat>, c: Cursor)
    requires c == Cursor(LocalDc, 0)
    ensures IsCursorAt(localRacks, c, 0)
  {}

  /** The order of the attempts: the local racks one by one from the first, remote rack 0, and the local racks one by
      one from the second. */
  lemma AttemptOrder(n: nat, j: nat, k: nat)
    requires j < k < Attempts(Some(n), true)
    ensures k < n ==> RackOf(n, j).0.LocalDc? && RackOf(n, k).0.LocalDc? && RackOf(n, j).1 < RackOf(n, k).1 < n
    ensures k == n ==> RackOf(n, k) == (RemoteDc, 0) && RackOf(n, j).0.LocalDc?
    ensures n < j ==> RackOf(n, j).0.LocalDc? && RackOf(n, k).0.LocalDc? && 0 < RackOf(n, j).1 < RackOf(n, k).1 < n
  {}

  /** At most max(1, 2L) attempts with L local racks. */
  lemma AttemptBound(localRacks: Option<nat>, hasRemote: bool)
    ensures var l := if localRacks.Some? then localRacks.value else 0;
      Attempts(localRacks, hasRemote) <= if l == 0 then 1 else 2 * l
  {}

  /** A command that keeps failing visits a rack exactly if there is a local datacenter and the rack is local
      or remote rack 0: a remote datacenter's other racks are never tried, and without a local datacenter
      nothing is. */
  lemma VisitedIff(localRacks: Option<nat>, hasRemote: bool, dc: DcType, rack: nat)
    ensures (exists k :: 0 <= k < Attempts(localRacks, hasRemote) && RackOf(localRacks.value, k) == (dc, rack)) <==>
      localRacks.Some? && if dc.LocalDc? then rack < localRacks.value else hasRemote && rack == 0
  {
    if localRacks.Some? {
      var n := localRacks.value;
      if dc.LocalDc? && rack < n {
        assert RackOf(n, rack) == (dc, rack);
      }
      if dc.RemoteDc? && hasRemote && rack == 0 {
        assert RackOf(n, n) == (dc, rack);
      }
    }
  }

  // ---------- The client ----------

  /** The endpoints of a rack's slots are those of its entries, unused ones included. */
  ghost predicate Bound(endpoints: map<SlotId, Endpoint>, dc: DcType, r: nat, ring: seq<Continuum>) {
    forall n :: 0 <= n < |ring| ==>
      SlotId(dc, r, n) in endpoints && endpoints[SlotId(dc, r, n)] == ring[n].node.endpoint
  }

  /** A rack's slots as dynoc_rack_init leaves them. */
  ghost predicate EmptySlots(w: World, dc: DcType, r: nat, n: nat) {
    forall k :: 0 <= k < n ==> Known(w, SlotId(dc, r, k)) && w.slots[SlotId(dc, r, k)] == EMPTY
  }

  function RackIds(dc: DcType, r: nat, n: nat): (ids: seq<SlotId>)
    ensures |ids| == n
  {
    seq(n, j requires 0 <= j < n => SlotId(dc, r, j))
  }

  /** Rack by rack, and in a rack node by node. */
  predicate Before(i: SlotId, j: SlotId) {
    i.rack < j.rack || (i.rack == j.rack && i.node < j.node)
  }

  lemma BeforeIsStrict(i: SlotId, j: SlotId)
    ensures !(Before(i, j) && Before(j, i))
    ensures i.dc == j.dc && i != j ==> Before(i, j) || Before(j, i)
    ensures i.rack < j.rack ==> Before(i, j)
  {}

  ghost predicate InOrder(ids: seq<SlotId>) {
    forall j, k :: 0 <= j < k < |ids| ==> Before(ids[j], ids[k])
  }

  /** In a pass over slots in order, a slot connected without a password takes the outcome of the nearest AUTH. */
  lemma NearestAuth(v: World, ids: seq<SlotId>, env: SlotId -> Outcome, id: SlotId, prev: Option<SlotId>)
    requires AllKnown(v, ids) && InOrder(ids) && NoRepeats(ids) && id in ids
    requires v.endpoints[id].pass.None? && NeedsConnect(v, id, env(id)) && env(id).connect.Connected?
    requires prev.Some? ==> prev.value in ids && Before(prev.value, id) && AuthPerformed(v, prev.value, env(prev.value))
    requires forall x :: x in ids && Before(x, id) && (prev.Some? ==> Before(prev.value, x)) ==>
      !AuthPerformed(v, x, env(x))
    ensures id in Pass(v, ids, true, env, Calm()).0.slots
    ensures Pass(v, ids, true, env, Calm()).0.slots[id].valid == if prev.Some? then env(prev.value).auth else true
  {
    hide Pass, Calm, AuthPerformed, LastAuth;
    var k :| 0 <= k < |ids| && ids[k] == id;
    PassSettles(v, ids, true, env, k);
    if prev.Some? {
      var j :| 0 <= j < |ids| && ids[j] == prev.value;
      assert j < k;
      LastAuthNearest(v, ids[..k], true, env, j);
    } else {
      NoAuthBefore(v, ids[..k], true, env);
    }
  }

  lemma RackIdsAre(dc: DcType, r: nat, n: nat)
    ensures forall id :: id in RackIds(dc, r, n) <==> id.dc == dc && id.rack == r && id.node < n
    ensures InOrder(RackIds(dc, r, n)) && NoRepeats(RackIds(dc, r, n))
  {
    forall id: SlotId | id.dc == dc && id.rack == r && id.node < n
      ensures id in RackIds(dc, r, n)
    {
      assert RackIds(dc, r, n)[id.node] == id;
    }
  }

  /** A rack's slots as redis_connection_pool_init leaves them: the first n connected, the others untouched. */
  ghost predicate SlotsStarted(w: World, dc: DcType, r: nat, n: nat, len: nat, env: SlotId -> Outcome) {
    && FirstConnected(w, RackIds(dc, r, n), env)
    && forall k :: n <= k < len ==> Known(w, SlotId(dc, r, k)) && w.slots[SlotId(dc, r, k)] == EMPTY
  }

  lemma JustStarted(w: World, dc: DcType, r: nat, n: nat, len: nat, env: SlotId -> Outcome)
    requires n <= len && EmptySlots(w, dc, r, len)
    ensures AllKnown(w, RackIds(dc, r, n))
    ensures SlotsStarted(Pass(w, RackIds(dc, r, n), true, env, Calm()).0, dc, r, n, len, env)
  {
    hide Pass, Calm, FirstConnected;
    var ids := RackIds(dc, r, n);
    FirstPassConnects(w, ids, env);
    forall k | n <= k < len
      ensures Pass(w, ids, true, env, Calm()).0.slots[SlotId(dc, r, k)] == EMPTY
    {
      RackIdsAre(dc, r, n);
      PassLeavesOthers(w, ids, true, env, SlotId(dc, r, k));
    }
  }

  lemma InitialWorld(endpoints: map<SlotId, Endpoint>, slots: map<SlotId, Slot>)
    requires slots.Keys == endpoints.Keys && forall id :: id in slots ==> slots[id] == EMPTY
    ensures Pool.World(endpoints, slots, [], false) == Initial(endpoints)
    ensures Inv(Initial(endpoints))
  {
    InitialInv(endpoints);
  }

  /** The invariant allows other endpoints for slots that hold no context. */
  lemma ReboundInv(w: World, endpoints: map<SlotId, Endpoint>)
    requires Inv(w) && endpoints.Keys == w.endpoints.Keys
    requires forall id :: id in w.slots && w.slots[id] != EMPTY ==> endpoints[id] == w.endpoints[id]
    ensures Inv(w.(endpoints := endpoints))
  {
    forall id | id in w.slots
      ensures SlotOk(w.(endpoints := endpoints), id)
    {
      assert SlotOk(w, id);
    }
  }

  /** Only the endpoints of one rack's slots differ. */
  ghost predicate EndpointsKept(before: map<SlotId, Endpoint>, after: map<SlotId, Endpoint>, dc: DcType, r: nat) {
    && after.Keys == before.Keys
    && forall id :: id in after && !(id.dc == dc && id.rack == r) ==> after[id] == before[id]
  }

  class Dynoc {
    const local: Option<seq<Rack>>
    const remote: Option<seq<Rack>>
    const hashFunc: string -> u32
    ghost var endpoints: map<SlotId, Endpoint>
    var slots: map<SlotId, Slot>
    var contexts: seq<Context>

    ghost function World(): World
      reads this
    {
      Pool.World(endpoints, slots, contexts, false)
    }

    function Racks(dc: DcType): seq<Rack> {
      var racks := if dc.LocalDc? then local else remote;
      if racks.Some? then racks.value else []
    }

    ghost function Rings(): set<object> {
      RingSet(Racks(LocalDc)) + RingSet(Racks(RemoteDc))
    }

    /** A rack's ring is no client, so what reads it does not change with the pool. */
    lemma RingsAreNotThis()
      ensures forall dc, r :: 0 <= r < |Racks(dc)| ==> Racks(dc)[r].ring as object != this
    {}

    /** The nodes of a rack, in the order of its entries. */
    ghost function Entries(dc: DcType, r: nat): seq<Node>
      requires r < |Racks(dc)| && Racks(dc)[r].ncontinuum <= Racks(dc)[r].ring.Length
      reads Racks(dc)[r].ring
    {
      Nodes(Racks(dc)[r].ring[..Racks(dc)[r].ncontinuum])
    }

    /** The endpoints the slots of a rack's entries in use are connected to. */
    ghost function SlotEndpoints(dc: DcType, r: nat): (e: seq<Endpoint>)
      requires r < |Racks(dc)| && forall k :: 0 <= k < Racks(dc)[r].ncontinuum ==> SlotId(dc, r, k) in endpoints
      reads `endpoints
      ensures |e| == Racks(dc)[r].ncontinuum
    {
      var e := endpoints;
      seq(Racks(dc)[r].ncontinuum, k requires 0 <= k && SlotId(dc, r, k) in e => e[SlotId(dc, r, k)])
    }

    predicate IsRackSlot(id: SlotId) {
      id.rack < |Racks(id.dc)| && id.node < Racks(id.dc)[id.rack].ring.Length
    }

    /** Started: every ring sorted and indexed, every entry with a slot for its endpoint, the pool invariant. */
    ghost predicate Valid()
      reads this, Rings()
    {
      && (forall dc, r :: 0 <= r < |Racks(dc)| ==> RingReady(dc, r))
      && (forall id :: id in slots ==> IsRackSlot(id))
      && Inv(World())
    }

    ghost predicate RingReady(dc: DcType, r: nat)
      requires r < |Racks(dc)|
      reads `endpoints, Racks(dc)[r].ring
    {
      var rack := Racks(dc)[r];
      && rack.ncontinuum <= rack.ring.Length
      && Ready(rack.ring[..rack.ncontinuum]) && Bound(endpoints, dc, r, rack.ring[..])
    }

    /** Every rack a command comes to has an entry to search: the code does not check. */
    ghost predicate Routable() {
      local.Some? ==>
        && (forall r :: 0 <= r < |local.value| ==> local.value[r].ncontinuum > 0)
        && (remote.Some? ==> remote.value != [] && remote.value[0].ncontinuum > 0)
    }

    // ----- hiredis: a context may be used or freed only while it is live -----

    method RedisCommand(ctx: Option<nat>)
      requires Live(World(), ctx)
      ensures Use(World(), ctx) == World()
    {}

    method RedisFree(ctx: Option<nat>)
      requires Live(World(), ctx)
      modifies `contexts
      ensures World() == Free(old(World()), ctx)
    {
      contexts := contexts[ctx.value := contexts[ctx.value].(live := false)];
    }

    method ResetRedisConnection(id: SlotId)
      requires Known(World(), id) && Live(World(), slots[id].ctx)
      modifies `slots, `contexts
      ensures World() == Reset(old(World()), id)
    {
      var ctx := slots[id].ctx;
      slots := slots[id := slots[id].(valid := false)];
      RedisFree(ctx);
      slots := slots[id := slots[id].(ctx := None)];
    }

    // ----- The critical sections -----

    /** The critical section of a command's attempt. */
    method Attempt(id: SlotId, good: bool) returns (success: bool)
      requires Inv(World()) && Known(World(), id)
      modifies `slots, `contexts
      ensures Inv(World())
      ensures World() == CommandStep(old(World()), id, good)
      ensures success == (old(slots[id].valid) && good)
    {
      CommandStepKeepsInv(World(), id, good);
      assert SlotOk(World(), id);
      success := false;
      if slots[id].valid {
        RedisCommand(slots[id].ctx);
        if good {
          success := true;
        } else {
          ResetRedisConnection(id);
        }
      }
    }

    /** Connects one slot that is not valid, with the status carried over from the slots before it. */
    method ConnectSlot(id: SlotId, endpoint: Endpoint, carried: bool, o: Outcome) returns (status: bool)
      requires Inv(World()) && Known(World(), id) && endpoint == endpoints[id]
      modifies `slots, `contexts
      ensures Inv(World())
      ensures (World(), status) == ConnectStep(old(World()), id, carried, o)
    {
      hide Inv;
      ConnectStepKeepsInv(World(), id, carried, o);
      status := carried;
      match o.connect
      case Refused =>
      case Errored =>
        var ctx := Some(|contexts|);
        contexts := contexts + [Context(true, false, endpoint)];
        RedisFree(ctx);
      case Connected =>
        var ctx := Some(|contexts|);
        var protected := endpoint.pass.Some?;
        contexts := contexts + [Context(true, protected && o.auth, endpoint)];
        if protected {
          RedisCommand(ctx);
          status := o.auth;
        }
        slots := slots[id := Slot(status, ctx)];
    }

    /** The critical section of the health check on one slot. */
    method CheckSlot(id: SlotId, endpoint: Endpoint, carried: bool, o: Outcome) returns (status: bool)
      requires Inv(World()) && Known(World(), id) && endpoint == endpoints[id]
      modifies `slots, `contexts
      ensures Inv(World())
      ensures (World(), status) == HealthStep(old(World()), id, carried, o)
    {
      hide ConnectStep;
      CommandStepKeepsInv(World(), id, o.ping);
      assert SlotOk(World(), id);
      status := carried;
      if slots[id].valid {
        RedisCommand(slots[id].ctx);
        if !o.ping {
          ResetRedisConnection(id);
        }
      }
      if !slots[id].valid {
        status := ConnectSlot(id, endpoint, carried, o);
      }
    }

    // ----- What the other threads do in between: the same critical sections -----

    lemma SlotOfEntry(id: SlotId)
      requires Valid()
      ensures id in slots <==> IsRackSlot(id)
      ensures id in slots <==> Known(World(), id)
      ensures id in slots ==> endpoints[id] == EndpointOf(id)
    {
      if IsRackSlot(id) {
        assert RingReady(id.dc, id.rack);
      }
    }

    method OtherThread(a: Action)
      requires Valid()
      modifies `slots, `contexts
      ensures Valid() && World() == Act(old(World()), a)
    {
      hide Inv, CommandStep, HealthStep, ConnectStep, RingReady, Act, Rings, IsRackSlot;
      RingsAreNotThis();
      SlotOfEntry(a.id);
      ActIs(World(), a);
      if a.id in slots {
        var endpoint := EndpointOf(a.id);
        match a
        case Command(id, good) => var _ := Attempt(id, good);
        case Health(id, carried, o) => var _ := CheckSlot(id, endpoint, carried, o);
        case Connect(id, carried, o) => var _ := ConnectSlot(id, endpoint, carried, o);
      }
    }

    function EndpointOf(id: SlotId): Endpoint
      requires IsRackSlot(id)
      reads Racks(id.dc)[id.rack].ring
    {
      Racks(id.dc)[id.rack].ring[id.node].node.endpoint
    }

    method OtherThreads(actions: seq<Action>)
      requires Valid()
      modifies `slots, `contexts
      ensures Valid() && World() == Run(old(World()), actions)
    {
      hide Valid, Act;
      ghost var w := World();
      for k := 0 to |actions|
        invariant Valid() && Run(World(), actions[k..]) == Run(w, actions)
      {
        OtherThread(actions[k]);
        assert actions[k..][1..] == actions[k + 1..];
      }
    }

    // ----- select_connection and the retry loop -----

    function LocalCount(): Option<nat> {
      if local.Some? then Some(|local.value|) else None
    }

    /** Whether a slot is the one a hash value is routed to on a rack. */
    ghost predicate Routed(id: SlotId, hash: u32)
      reads Rings()
    {
      && id.rack < |Racks(id.dc)|
      && var rack := Racks(id.dc)[id.rack];
        && id.node < rack.ncontinuum <= rack.ring.Length
        && GoodRing(Entries(id.dc, id.rack)) && WellFormed(IntToken(hash))
        && Owns(Entries(id.dc, id.rack), IntToken(hash), rack.ring[id.node].node)
    }

    method SelectConnection(key: string, token: TokenCell, c: Cursor) returns (conn: Option<SlotId>, next: Cursor)
      requires Valid() && Routable() && token.Valid() && token.mag[..][1..] == [0, 0, 0]
      modifies token, token.mag
      ensures token.mag[..][1..] == [0, 0, 0]
      ensures next == NextRack(LocalCount(), remote.Some?, c).1
      ensures conn.Some? == NextRack(LocalCount(), remote.Some?, c).0.Some?
      ensures conn.Some? ==>
        && (conn.value.dc, conn.value.rack) == NextRack(LocalCount(), remote.Some?, c).0.value
        && Routed(conn.value, hashFunc(key))
    {
      var hash := hashFunc(key);
      KeyToken(key, hash, token);
      next := c;
      var dc, at := local, LocalDc;
      if dc.None? {
        return None, next;
      }
      if next.rcIdx >= |dc.value| {
        if next.dcType == LocalDc {
          next := Cursor(RemoteDc, 0);
          dc, at := remote, RemoteDc;
        } else {
          return None, next;
        }
      }
      if dc.None? {
        return None, next;
      }
      var r := next.rcIdx;
      assert RingReady(at, r);
      var rack := Racks(at)[r];
      next := next.(rcIdx := r + 1);
      var index := SelectContinuum(rack.ring, rack.ncontinuum, token.Value());
      conn := Some(SlotId(at, r, index));
    }

    /** The slots a command tried: attempt k on the ring owner in the k-th rack of the visiting order. */
    ghost predicate Visits(tried: seq<SlotId>, hash: u32)
      reads Rings()
    {
      && |tried| <= Attempts(LocalCount(), remote.Some?)
      && forall k :: 0 <= k < |tried| ==>
           (tried[k].dc, tried[k].rack) == RackOf(LocalCount().value, k) && Routed(tried[k], hash)
    }

    lemma RoutedIsKnown(id: SlotId, hash: u32)
      requires Valid() && Routed(id, hash)
      ensures Known(World(), id)
    {
      SlotOfEntry(id);
    }

    /** The tried slots all failed, from the world w on, and this is the world now. */
    ghost predicate Failed(w: World, tried: seq<SlotId>, hash: u32, good: nat -> bool, others: nat -> seq<Action>)
      reads this, Rings()
    {
      && Visits(tried, hash) && AllKnown(w, tried)
      && (forall j :: 0 <= j < |tried| ==> !Succeeds(w, tried, good, others, j))
      && World() == Reached(w, tried, good, others)
    }

    lemma NothingFailed(hash: u32, good: nat -> bool, others: nat -> seq<Action>)
      requires Valid()
      ensures Failed(World(), [], hash, good, others)
      ensures World().endpoints == endpoints && World().slots == slots
    {}

    lemma AllFailed(w: World, tried: seq<SlotId>, hash: u32, good: nat -> bool, others: nat -> seq<Action>)
      requires Failed(w, tried, hash, good, others)
      ensures Visits(tried, hash) && AllKnown(w, tried)
      ensures tried == [] ==> World() == w
      ensures tried != [] ==> Retry(w, tried, good, others, 0) == (World(), None)
    {
      if tried != [] {
        RetryEnds(w, tried, good, others, 0, |tried| - 1);
      }
    }

    /** What the loop is about to try. */
    ghost predicate AboutToTry(id: SlotId, tried: seq<SlotId>, hash: u32)
      reads Rings()
    {
      && |tried| < Attempts(LocalCount(), remote.Some?)
      && (id.dc, id.rack) == RackOf(LocalCount().value, |tried|) && Routed(id, hash)
    }

    /** The other threads' turn, and then the attempt. */
    method TakeTurns(id: SlotId, reply: bool, actions: seq<Action>) returns (success: bool)
      requires Valid() && Known(World(), id)
      modifies `slots, `contexts
      ensures Valid()
      ensures var v := Run(old(World()), actions);
        World() == CommandStep(v, id, reply) && success == (v.slots[id].valid && reply)
    {
      hide Inv, CommandStep, Run, RingReady, Rings, IsRackSlot;
      RingsAreNotThis();
      OtherThreads(actions);
      success := Attempt(id, reply);
    }

    lemma VisitsOneMore(tried: seq<SlotId>, id: SlotId, hash: u32)
      requires Visits(tried, hash) && AboutToTry(id, tried, hash)
      ensures Visits(tried + [id], hash)
    {
      hide Routed, Attempts, RackOf;
    }

    method TryNext(id: SlotId, reply: bool, actions: seq<Action>, ghost w: World, ghost tried: seq<SlotId>,
                   ghost hash: u32, ghost good: nat -> bool, ghost others: nat -> seq<Action>)
      returns (success: bool)
      requires Valid() && Failed(w, tried, hash, good, others) && AboutToTry(id, tried, hash)
      requires reply == good(|tried|) && actions == others(|tried|)
      requires w.slots.Keys == slots.Keys && w.endpoints == endpoints
      modifies `slots, `contexts
      ensures Valid() && slots.Keys == old(slots.Keys)
      ensures AllKnown(w, tried + [id]) && Visits(tried + [id], hash)
      ensures success ==> Retry(w, tried + [id], good, others, 0) == (World(), Some(|tried|))
      ensures !success ==> Failed(w, tried + [id], hash, good, others)
    {
      hide Valid, Owns, GoodRing, Attempts, RackOf, Retry, After, WorldAt, Succeeds, CommandStep, Run, Reached;
      RoutedIsKnown(id, hash);
      VisitsOneMore(tried, id, hash);
      NextAttempt(w, tried, id, good, others);
      success := TakeTurns(id, reply, actions);
      if success {
        RetryEnds(w, tried + [id], good, others, 0, |tried|);
      }
    }

    /** select_connection, seen from the loop: the next slot to try, or none after the last attempt. */
    method SelectNext(key: string, token: TokenCell, c: Cursor, ghost tried: seq<SlotId>)
      returns (conn: Option<SlotId>, next: Cursor)
      requires Valid() && Routable() && token.Valid() && token.mag[..][1..] == [0, 0, 0]
      requires |tried| <= Attempts(LocalCount(), remote.Some?) && IsCursorAt(LocalCount(), c, |tried|)
      modifies token, token.mag
      ensures token.mag[..][1..] == [0, 0, 0]
      ensures conn.Some? ==> AboutToTry(conn.value, tried, hashFunc(key)) && IsCursorAt(LocalCount(), next, |tried| + 1)
      ensures conn.None? ==> |tried| == Attempts(LocalCount(), remote.Some?)
      ensures |tried| + (if conn.Some? then 1 else 0) <= Attempts(LocalCount(), remote.Some?)
    {
      hide Inv, Owns, Ready, NextRack, Attempts, RackOf, IsCursorAt;
      VisitOrder(LocalCount(), remote.Some?, c, |tried|);
      conn, next := SelectConnection(key, token, c);
    }

    /** The retry loop of a command. */
    method RetryLoop(key: string, token: TokenCell, good: nat -> bool, others: nat -> seq<Action>)
      returns (r: int, ghost tried: seq<SlotId>)
      requires Valid() && Routable() && token.Valid() && token.mag[..][1..] == [0, 0, 0]
      requires token !in Rings() && token.mag !in Rings()
      modifies `slots, `contexts, token, token.mag
      ensures Valid()
      ensures r == 0 || r == -1
      ensures tried == [] ==> r == -1 && World() == old(World())
      ensures Visits(tried, hashFunc(key)) && AllKnown(old(World()), tried)
      ensures tried != [] ==>
        Retry(old(World()), tried, good, others, 0) == (World(), if r == 0 then Some(|tried| - 1) else None)
      ensures r == -1 ==> |tried| == Attempts(LocalCount(), remote.Some?)
    {
      hide Valid, Failed, AboutToTry, Visits, RingReady, Inv, Retry, Succeeds, After, Attempts, IsCursorAt, Routable;
      ghost var w, hash := World(), hashFunc(key);
      var c := Cursor(LocalDc, 0);
      AtStart(LocalCount(), c);
      var n: nat := 0;  // how many replies the environment has given
      tried := [];
      NothingFailed(hash, good, others);
      var conn;
      conn, c := SelectNext(key, token, c, tried);
      while conn.Some?
        invariant token.Valid() && token.mag[..][1..] == [0, 0, 0]
        invariant Valid() && endpoints == w.endpoints && slots.Keys == w.slots.Keys
        invariant Failed(w, tried, hash, good, others) && n == |tried|
        invariant conn.Some? ==> AboutToTry(conn.value, tried, hash) && IsCursorAt(LocalCount(), c, n + 1)
        invariant conn.None? ==> |tried| == Attempts(LocalCount(), remote.Some?)
        invariant |tried| + (if conn.Some? then 1 else 0) <= Attempts(LocalCount(), remote.Some?)
        decreases Attempts(LocalCount(), remote.Some?) - |tried|, conn.Some?
      {
        var success := TryNext(conn.value, good(n), others(n), w, tried, hash, good, others);
        tried := tried + [conn.value];
        if success {
          return 0, tried;
        }
        n := n + 1;
        conn, c := SelectNext(key, token, c, tried);
      }
      r := -1;
      AllFailed(w, tried, hash, good, others);
    }

    lemma PoolOf()
      ensures World().slots == slots && World().endpoints == endpoints
      ensures forall id :: Known(World(), id) ==> id in slots
    {}

    /** A command with its own token. */
    method Command(key: string, good: nat -> bool, others: nat -> seq<Action>)
      returns (r: int, ghost tried: seq<SlotId>)
      requires Valid() && Routable()
      modifies `slots, `contexts
      ensures Valid()
      ensures r == 0 || r == -1
      ensures tried == [] ==> r == -1 && World() == old(World())
      ensures Visits(tried, hashFunc(key)) && AllKnown(old(World()), tried)
      ensures tried != [] ==>
        Retry(old(World()), tried, good, others, 0) == (World(), if r == 0 then Some(|tried| - 1) else None)
      ensures r == -1 ==> |tried| == Attempts(LocalCount(), remote.Some?)
    {
      hide Routable, Visits, Attempts, Retry, AllKnown, Inv, Ready, Bound;
      var token := new TokenCell();
      r, tried := RetryLoop(key, token, good, others);
    }

    /** dynoc_set; the other commands run the same loop. good says which attempts would get a good reply, others
        what the other threads do before each. Each attempt but a last good one leaves its slot invalid. */
    method DynocSet(key: Option<string>, value: Option<string>, good: nat -> bool, others: nat -> seq<Action>)
      returns (r: int, ghost tried: seq<SlotId>)
      requires Valid() && Routable()
      modifies `slots, `contexts
      ensures Valid()
      ensures r == 0 || r == -1
      ensures key.None? || value.None? ==> r == -1 && tried == []
      ensures tried == [] ==> r == -1 && World() == old(World())
      ensures tried != [] ==>
        && Visits(tried, hashFunc(key.value)) && AllKnown(old(World()), tried)
        && Retry(old(World()), tried, good, others, 0) == (World(), if r == 0 then Some(|tried| - 1) else None)
        && (r == 0 ==> Succeeds(old(World()), tried, good, others, |tried| - 1))
        && LeftInvalid(old(World()), tried, good, others, if r == 0 then |tried| - 1 else |tried|)
      ensures r == -1 && key.Some? && value.Some? ==> |tried| == Attempts(LocalCount(), remote.Some?)
      ensures r == -1 && others == Quiet() ==> forall id :: id in tried ==> id in slots && !slots[id].valid
    {
      hide *;
      if key.None? || value.None? {
        return -1, [];
      }
      r, tried := Command(key.value, good, others);
      PoolOf();
      if tried != [] {
        RetryResult(old(World()), tried, good, others, World(), r == 0);
      }
    }

    // ----- The health-check pass -----

    /** The slots of the first n racks of a datacenter, in the order the health check goes through them. */
    function IdsUpTo(dc: DcType, n: nat): seq<SlotId>
      requires n <= |Racks(dc)|
    {
      if n == 0 then [] else IdsUpTo(dc, n - 1) + RackIds(dc, n - 1, Racks(dc)[n - 1].ring.Length)
    }

    lemma {:induction false} IdsAre(dc: DcType, n: nat)
      requires n <= |Racks(dc)|
      ensures forall id :: id in IdsUpTo(dc, n) <==> id.dc == dc && id.rack < n && IsRackSlot(id)
      ensures InOrder(IdsUpTo(dc, n))
      ensures NoRepeats(IdsUpTo(dc, n))
    {
      if n > 0 {
        IdsAre(dc, n - 1);
        var u, v := IdsUpTo(dc, n - 1), RackIds(dc, n - 1, Racks(dc)[n - 1].ring.Length);
        RackIdsAre(dc, n - 1, Racks(dc)[n - 1].ring.Length);
        forall j, k | 0 <= j < k < |u + v|
          ensures Before((u + v)[j], (u + v)[k])
        {
          if j < |u| { assert (u + v)[j] in u; }
          if k >= |u| { assert (u + v)[k] in v; }
        }
      }
    }

    lemma IdsKnown(dc: DcType, n: nat)
      requires Valid() && n <= |Racks(dc)|
      ensures AllKnown(World(), IdsUpTo(dc, n))
    {
      IdsAre(dc, n);
      forall k | 0 <= k < |IdsUpTo(dc, n)|
        ensures Known(World(), IdsUpTo(dc, n)[k])
      {
        assert IdsUpTo(dc, n)[k] in IdsUpTo(dc, n);
        SlotOfEntry(IdsUpTo(dc, n)[k]);
      }
    }

    /** The other threads' turn, and then the check of slot n of a rack. */
    method CheckInTurn(dc: DcType, r: nat, n: nat, carried: bool, o: Outcome, actions: seq<Action>)
      returns (status: bool)
      requires Valid() && IsRackSlot(SlotId(dc, r, n))
      modifies `slots, `contexts
      ensures Valid() && Known(old(World()), SlotId(dc, r, n))
      ensures (World(), status) == HealthStep(Run(old(World()), actions), SlotId(dc, r, n), carried, o)
    {
      hide Inv, HealthStep, Run, RingReady, Rings;
      RingsAreNotThis();
      var id := SlotId(dc, r, n);
      SlotOfEntry(id);
      OtherThreads(actions);
      status := CheckSlot(id, EndpointOf(id), carried, o);
    }

    /** One pass of the health check over a datacenter, the other threads' steps in between. */
    method ReconnectDatacenter(dc: DcType, env: SlotId -> Outcome, others: SlotId -> seq<Action>)
      requires Valid()
      modifies `slots, `contexts
      ensures Valid()
      ensures AllKnown(old(World()), IdsUpTo(dc, |Racks(dc)|))
      ensures World() == Pass(old(World()), IdsUpTo(dc, |Racks(dc)|), true, env, others).0
    {
      hide Valid, HealthStep, Pass, Run;
      ghost var w := World();
      IdsKnown(dc, |Racks(dc)|);
      var status := true;
      PassNothing(w, true, env, others);
      for i := 0 to |Racks(dc)|
        invariant Valid() && endpoints == w.endpoints && slots.Keys == w.slots.Keys
        invariant AllKnown(w, IdsUpTo(dc, i)) && (World(), status) == Pass(w, IdsUpTo(dc, i), true, env, others)
      {
        ghost var before := IdsUpTo(dc, i);
        assert before + RackIds(dc, i, 0) == before;
        for j := 0 to Racks(dc)[i].ring.Length
          invariant Valid() && endpoints == w.endpoints && slots.Keys == w.slots.Keys
          invariant AllKnown(w, before + RackIds(dc, i, j))
          invariant (World(), status) == Pass(w, before + RackIds(dc, i, j), true, env, others)
        {
          var id := SlotId(dc, i, j);
          assert before + RackIds(dc, i, j) + [id] == before + RackIds(dc, i, j + 1);
          status := CheckInTurn(dc, i, j, status, env(id), others(id));
          PassOneMore(w, before + RackIds(dc, i, j), id, true, env, others);
        }
      }
    }

    /** After an undisturbed pass over a datacenter, a connected slot without a password is valid exactly if the
        nearest AUTH before it in the pass, in its own rack or else in an earlier one, succeeded; if none was
        performed before it, it is valid. */
    lemma PasswordlessTakesNearestAuth(v: World, dc: DcType, env: SlotId -> Outcome, id: SlotId, prev: Option<SlotId>)
      requires AllKnown(v, IdsUpTo(dc, |Racks(dc)|)) && id in IdsUpTo(dc, |Racks(dc)|)
      requires v.endpoints[id].pass.None? && NeedsConnect(v, id, env(id)) && env(id).connect.Connected?
      requires prev.Some? ==>
        && prev.value in IdsUpTo(dc, |Racks(dc)|) && Before(prev.value, id)
        && AuthPerformed(v, prev.value, env(prev.value))
      requires forall x :: x in IdsUpTo(dc, |Racks(dc)|) && Before(x, id) && (prev.Some? ==> Before(prev.value, x)) ==>
        !AuthPerformed(v, x, env(x))
      ensures id in Pass(v, IdsUpTo(dc, |Racks(dc)|), true, env, Calm()).0.slots
      ensures Pass(v, IdsUpTo(dc, |Racks(dc)|), true, env, Calm()).0.slots[id].valid
           == if prev.Some? then env(prev.value).auth else true
    {
      hide Pass, Calm, IdsUpTo, AuthPerformed, InOrder, Before;
      IdsAre(dc, |Racks(dc)|);
      NearestAuth(v, IdsUpTo(dc, |Racks(dc)|), env, id, prev);
    }

    /** After a pass over the local datacenter, no other thread acting, in which every AUTH succeeded and the key's
        owner could be connected, a command first tries that owner in local rack 0, finds it valid, and if the
        reply is good ends there. */
    lemma HealedOwnerAnswersFirst(v: World, env: SlotId -> Outcome, tried: seq<SlotId>, hash: u32, good: nat -> bool)
      requires Valid() && local.Some? && local.value != []
      requires AllKnown(v, IdsUpTo(LocalDc, |Racks(LocalDc)|))
      requires World() == Pass(v, IdsUpTo(LocalDc, |Racks(LocalDc)|), true, env, Calm()).0
      requires AuthsSucceed(v, IdsUpTo(LocalDc, |Racks(LocalDc)|), env)
      requires tried != [] && Visits(tried, hash) && AllKnown(World(), tried) && good(0)
      requires env(tried[0]).connect.Connected?
      ensures tried[0].dc == LocalDc && tried[0].rack == 0 && Routed(tried[0], hash)
      ensures Retry(World(), tried, good, Quiet(), 0).1 == Some(0)
    {
      hide Pass, Retry, Inv, Ready, Owns, AuthsSucceed;
      var ids := IdsUpTo(LocalDc, |Racks(LocalDc)|);
      IdsAre(LocalDc, |Racks(LocalDc)|);
      PassHeals(v, ids, env);
      assert tried[0] == SlotId(LocalDc, 0, tried[0].node);
      assert tried[0] in ids;
      var k :| 0 <= k < |ids| && ids[k] == tried[0];
      assert Pass(v, ids, true, env, Calm()).0.slots[ids[k]].valid;
      ValidFirstSlotAnswers(World(), tried, good);
    }

    // ----- Starting -----

    /** Rings are separate arrays. */
    ghost predicate Separate() {
      forall dc, r, dc', r' :: 0 <= r < |Racks(dc)| && 0 <= r' < |Racks(dc')| && (dc, r) != (dc', r') ==>
        Racks(dc)[r].ring != Racks(dc')[r'].ring
    }

    /** Slot by slot as dynoc_rack_init leaves a rack. */
    ghost predicate Empty(dc: DcType, r: nat)
      requires r < |Racks(dc)|
      reads this
    {
      EmptySlots(World(), dc, r, Racks(dc)[r].ring.Length)
    }

    function AllIds(): seq<SlotId> {
      IdsUpTo(LocalDc, |Racks(LocalDc)|) + IdsUpTo(RemoteDc, |Racks(RemoteDc)|)
    }

    lemma AllIdsAre()
      ensures forall id :: id in AllIds() <==> IsRackSlot(id)
    {
      var u, v := IdsUpTo(LocalDc, |Racks(LocalDc)|), IdsUpTo(RemoteDc, |Racks(RemoteDc)|);
      IdsAre(LocalDc, |Racks(LocalDc)|);
      IdsAre(RemoteDc, |Racks(RemoteDc)|);
      forall id
        ensures id in u + v <==> id in u || id in v
      {}
    }

    /** The pools of all racks together, as configured, and the endpoints of their entries. */
    ghost predicate PoolsEmpty() {
      forall dc, r :: 0 <= r < |Racks(dc)| ==> PoolEmpty(Racks(dc)[r])
    }

    function Pools(): (slots: map<SlotId, Slot>)
      requires PoolsEmpty()
      ensures forall id :: id in slots <==> IsRackSlot(id)
      ensures forall id :: id in slots ==> slots[id] == EMPTY
    {
      hide IdsUpTo, AllIds;
      AllIdsAre();
      map id | id in AllIds() :: Racks(id.dc)[id.rack].pool[id.node]
    }

    ghost function ConfiguredEndpoints(): (endpoints: map<SlotId, Endpoint>)
      reads Rings()
      ensures forall id :: id in endpoints <==> IsRackSlot(id)
    {
      hide IdsUpTo, AllIds;
      AllIdsAre();
      map id | id in AllIds() :: Racks(id.dc)[id.rack].ring[id.node].node.endpoint
    }

    /** The client before dynoc_start, its datacenters configured. */
    constructor (local: Option<seq<Rack>>, remote: Option<seq<Rack>>, hashFunc: string -> u32)
      requires local.Some? ==> forall r :: 0 <= r < |local.value| ==> PoolEmpty(local.value[r])
      requires remote.Some? ==> forall r :: 0 <= r < |remote.value| ==> PoolEmpty(remote.value[r])
      ensures this.local == local && this.remote == remote && this.hashFunc == hashFunc
      ensures Inv(World()) && World() == Initial(endpoints)
      ensures forall id :: id in slots <==> IsRackSlot(id)
      ensures forall dc, r :: 0 <= r < |Racks(dc)| ==> Empty(dc, r)
    {
      hide Inv, PoolEmpty, Pools, ConfiguredEndpoints, Initial, IdsUpTo;
      this.local, this.remote, this.hashFunc := local, remote, hashFunc;
      contexts := [];
      new;
      endpoints, slots := ConfiguredEndpoints(), Pools();
      InitialWorld(endpoints, slots);
    }

    /** The endpoints of a rack's slots become those of its sorted ring. */
    ghost method BindEndpoints(dc: DcType, r: nat)
      requires r < |Racks(dc)| && Inv(World()) && Empty(dc, r)
      modifies `endpoints
      ensures Inv(World()) && Empty(dc, r) && EndpointsKept(old(endpoints), endpoints, dc, r)
      ensures Bound(endpoints, dc, r, Racks(dc)[r].ring[..])
    {
      hide Inv;
      var ring := Racks(dc)[r].ring;
      ghost var w := World();
      InvKeys();
      endpoints := map id | id in endpoints ::
        if id.dc == dc && id.rack == r && id.node < ring.Length then ring[id.node].node.endpoint else endpoints[id];
      ReboundInv(w, endpoints);
    }

    /** Connecting slot i of a rack is the next step of a pass: nothing has touched the slot before. */
    lemma ConnectOneMore(w: World, v: World, dc: DcType, r: nat, i: nat, status: bool, env: SlotId -> Outcome)
      requires AllKnown(w, RackIds(dc, r, i)) && Known(w, SlotId(dc, r, i)) && !w.slots[SlotId(dc, r, i)].valid
      requires (v, status) == Pass(w, RackIds(dc, r, i), true, env, Calm())
      ensures AllKnown(w, RackIds(dc, r, i + 1)) && Known(v, SlotId(dc, r, i))
      ensures Pass(w, RackIds(dc, r, i + 1), true, env, Calm())
           == ConnectStep(v, SlotId(dc, r, i), status, env(SlotId(dc, r, i)))
    {
      hide Pass, ConnectStep, HealthStep, Run, Calm;
      var id := SlotId(dc, r, i);
      RackIdsAre(dc, r, i);
      assert RackIds(dc, r, i) + [id] == RackIds(dc, r, i + 1);
      PassOneMore(w, RackIds(dc, r, i), id, true, env, Calm());
      CalmStep(v, id);
      PassLeavesOthers(w, RackIds(dc, r, i), true, env, id);
      InvalidIsJustConnected(v, id, status, env(id));
    }

    lemma InvalidIsJustConnected(w: World, id: SlotId, carried: bool, o: Outcome)
      requires Known(w, id) && !w.slots[id].valid
      ensures HealthStep(w, id, carried, o) == ConnectStep(w, id, carried, o)
    {
      hide ConnectStep;
    }

    /** The loop of redis_connection_pool_init: index each ring entry and connect its slot. */
    method IndexAndConnect(dc: DcType, r: nat, env: SlotId -> Outcome)
      requires r < |Racks(dc)| && Inv(World()) && Empty(dc, r) && Racks(dc)[r].ncontinuum <= Racks(dc)[r].ring.Length
      requires Sorted(Entries(dc, r)) && Bound(endpoints, dc, r, Racks(dc)[r].ring[..])
      modifies `slots, `contexts, Racks(dc)[r].ring
      ensures Inv(World()) && RingReady(dc, r) && Entries(dc, r) == old(Entries(dc, r))
      ensures AllKnown(old(World()), RackIds(dc, r, Racks(dc)[r].ncontinuum))
      ensures World() == Pass(old(World()), RackIds(dc, r, Racks(dc)[r].ncontinuum), true, env, Calm()).0
    {
      hide Inv, HealthStep, ConnectStep, Pass, Sorted, Run, Calm;
      var ring, count := Racks(dc)[r].ring, Racks(dc)[r].ncontinuum;
      ghost var w, nodes := World(), Nodes(ring[..]);
      var status := true;
      PassNothing(w, true, env, Calm());
      assert RackIds(dc, r, 0) == [];
      for i := 0 to count
        invariant Inv(World()) && endpoints == w.endpoints && slots.Keys == w.slots.Keys
        invariant Nodes(ring[..]) == nodes && forall k :: 0 <= k < i ==> ring[k].index == k
        invariant AllKnown(w, RackIds(dc, r, i))
        invariant (World(), status) == Pass(w, RackIds(dc, r, i), true, env, Calm())
      {
        ghost var v := World();
        var id := SlotId(dc, r, i);
        ConnectOneMore(w, v, dc, r, i, status, env);
        ring[i] := ring[i].(index := i);
        assert Nodes(ring[..]) == nodes;
        assert ring[i].node == nodes[i];
        status := ConnectSlot(id, ring[i].node.endpoint, status, env(id));
      }
      assert Nodes(ring[..count]) == nodes[..count] == old(Entries(dc, r));
      forall n | 0 <= n < ring.Length
        ensures ring[..][n].node == nodes[n]
      {
        assert Nodes(ring[..])[n] == nodes[n];
      }
      assert Bound(endpoints, dc, r, ring[..]);
    }

    /** redis_connection_pool_init: sort, index and connect one rack. */
    method RedisConnectionPoolInit(dc: DcType, r: nat, env: SlotId -> Outcome)
      requires r < |Racks(dc)| && Inv(World()) && Empty(dc, r) && Racks(dc)[r].ncontinuum <= Racks(dc)[r].ring.Length
      requires GoodRing(Entries(dc, r))
      modifies this, Racks(dc)[r].ring
      ensures Inv(World()) && RingReady(dc, r)
      ensures multiset(Entries(dc, r)) == old(multiset(Entries(dc, r)))
      ensures EndpointsKept(old(endpoints), endpoints, dc, r) && slots.Keys == old(slots.Keys)
      ensures AllKnown(old(World()).(endpoints := endpoints), RackIds(dc, r, Racks(dc)[r].ncontinuum))
      ensures World() ==
        Pass(old(World()).(endpoints := endpoints), RackIds(dc, r, Racks(dc)[r].ncontinuum), true, env, Calm()).0
      ensures SlotsStarted(World(), dc, r, Racks(dc)[r].ncontinuum, Racks(dc)[r].ring.Length, env)
    {
      hide Inv, Pass, Sorted, EndpointsKept, Calm, SlotsStarted;
      QSort(Racks(dc)[r].ring, Racks(dc)[r].ncontinuum);
      BindEndpoints(dc, r);
      JustStarted(World(), dc, r, Racks(dc)[r].ncontinuum, Racks(dc)[r].ring.Length, env);
      IndexAndConnect(dc, r, env);
    }

    lemma OtherSlotsKept(w: World, dc: DcType, r: nat, n: nat, env: SlotId -> Outcome)
      requires AllKnown(w, RackIds(dc, r, n)) && w.slots.Keys == w.endpoints.Keys
      ensures var v := Pass(w, RackIds(dc, r, n), true, env, Calm()).0;
        forall id :: id in w.slots && !(id.dc == dc && id.rack == r) ==> v.slots[id] == w.slots[id]
    {
      hide Pass, Calm;
      var v := Pass(w, RackIds(dc, r, n), true, env, Calm()).0;
      RackIdsAre(dc, r, n);
      forall id | id in w.slots && !(id.dc == dc && id.rack == r)
        ensures v.slots[id] == w.slots[id]
      {
        PassLeavesOthers(w, RackIds(dc, r, n), true, env, id);
      }
    }

    /** A rack still as configured, and a started one; nodes are those it was configured with. */
    ghost predicate Fresh(dc: DcType, r: nat, nodes: multiset<Node>)
      requires r < |Racks(dc)|
      reads this, Racks(dc)[r].ring
    {
      && Empty(dc, r) && Racks(dc)[r].ncontinuum <= Racks(dc)[r].ring.Length
      && GoodRing(Entries(dc, r)) && multiset(Entries(dc, r)) == nodes
    }

    ghost predicate Started(dc: DcType, r: nat, nodes: multiset<Node>, env: SlotId -> Outcome)
      requires r < |Racks(dc)|
      reads this, Racks(dc)[r].ring
    {
      && RingReady(dc, r) && multiset(Entries(dc, r)) == nodes
      && SlotsStarted(World(), dc, r, Racks(dc)[r].ncontinuum, Racks(dc)[r].ring.Length, env)
    }

    /** The other racks do not notice the start of one. */
    method StartRack(dc: DcType, r: nat, env: SlotId -> Outcome, ghost nodes: (DcType, nat) -> multiset<Node>)
      requires Separate() && r < |Racks(dc)| && Inv(World()) && Fresh(dc, r, nodes(dc, r))
      modifies this, Racks(dc)[r].ring
      ensures Inv(World()) && Started(dc, r, nodes(dc, r), env) && slots.Keys == old(slots.Keys)
      ensures forall d, q :: 0 <= q < |Racks(d)| && (d, q) != (dc, r) ==>
        && (old(Fresh(d, q, nodes(d, q))) ==> Fresh(d, q, nodes(d, q)))
        && (old(Started(d, q, nodes(d, q), env)) ==> Started(d, q, nodes(d, q), env))
    {
      hide Pass, Ready, Inv, GoodRing, EndpointsKept, Bound, EmptySlots, SlotsStarted, Calm;
      ghost var w, n := World(), Racks(dc)[r].ncontinuum;
      InvKeys();
      RedisConnectionPoolInit(dc, r, env);
      InvKeys();
      OtherSlotsKept(w.(endpoints := endpoints), dc, r, n, env);
      OthersKept(w, World(), dc, r, env);
    }

    /** What the state of the other racks consists of is the same after one has been started. */
    lemma OthersKept(v: World, w: World, dc: DcType, r: nat, env: SlotId -> Outcome)
      requires EndpointsKept(v.endpoints, w.endpoints, dc, r) && w.slots.Keys == v.slots.Keys == v.endpoints.Keys
      requires forall id :: id in v.slots && !(id.dc == dc && id.rack == r) ==> w.slots[id] == v.slots[id]
      ensures forall d, q: nat, n: nat :: (d, q) != (dc, r) && EmptySlots(v, d, q, n) ==> EmptySlots(w, d, q, n)
      ensures forall d, q: nat, ring ::
        (d, q) != (dc, r) && Bound(v.endpoints, d, q, ring) ==> Bound(w.endpoints, d, q, ring)
      ensures forall d, q: nat, n: nat, len: nat ::
        (d, q) != (dc, r) && SlotsStarted(v, d, q, n, len, env) ==> SlotsStarted(w, d, q, n, len, env)
    {
      forall d, q: nat, n: nat, len: nat | (d, q) != (dc, r) && SlotsStarted(v, d, q, n, len, env)
        ensures SlotsStarted(w, d, q, n, len, env)
      {
        OtherStartKept(v, w, d, q, n, len, env);
      }
    }

    lemma OtherStartKept(v: World, w: World, d: DcType, q: nat, n: nat, len: nat, env: SlotId -> Outcome)
      requires SlotsStarted(v, d, q, n, len, env) && w.slots.Keys == v.slots.Keys
      requires w.endpoints.Keys == v.endpoints.Keys
      requires forall id :: id in v.slots && id in v.endpoints && id.dc == d && id.rack == q ==>
        w.slots[id] == v.slots[id] && w.endpoints[id] == v.endpoints[id]
      ensures SlotsStarted(w, d, q, n, len, env)
    {
      hide LastAuth;
      FirstConnectedKept(v, w, RackIds(d, q, n), env);
    }

    lemma InvKeys()
      requires Inv(World())
      ensures slots.Keys == endpoints.Keys
    {}

    /** The racks of one datacenter, one after another. */
    method StartDatacenter(dc: DcType, env: SlotId -> Outcome, ghost nodes: (DcType, nat) -> multiset<Node>)
      requires Separate() && Inv(World())
      requires forall r :: 0 <= r < |Racks(dc)| ==> Fresh(dc, r, nodes(dc, r))
      modifies this, Rings()
      ensures Inv(World()) && slots.Keys == old(slots.Keys)
      ensures forall r :: 0 <= r < |Racks(dc)| ==> Started(dc, r, nodes(dc, r), env)
      ensures forall d, q :: 0 <= q < |Racks(d)| && d != dc ==>
        && (old(Fresh(d, q, nodes(d, q))) ==> Fresh(d, q, nodes(d, q)))
        && (old(Started(d, q, nodes(d, q), env)) ==> Started(d, q, nodes(d, q), env))
    {
      hide Inv, Fresh, Started, Separate;
      for i := 0 to |Racks(dc)|
        invariant Inv(World()) && slots.Keys == old(slots.Keys)
        invariant forall r :: 0 <= r < i ==> Started(dc, r, nodes(dc, r), env)
        invariant forall r :: i <= r < |Racks(dc)| ==> Fresh(dc, r, nodes(dc, r))
        invariant forall d, q :: 0 <= q < |Racks(d)| && d != dc ==>
          && (old(Fresh(d, q, nodes(d, q))) ==> Fresh(d, q, nodes(d, q)))
          && (old(Started(d, q, nodes(d, q), env)) ==> Started(d, q, nodes(d, q), env))
      {
        RackIsRing(dc, i);
        StartRack(dc, i, env, nodes);
      }
    }

    lemma RackIsRing(dc: DcType, r: nat)
      requires r < |Racks(dc)|
      ensures Racks(dc)[r].ring in Rings()
    {}

    /** dynoc_start: every ring becomes a sorted, indexed permutation of the nodes configured for it, every slot is
        as its connect and AUTH decide, rack by rack, and the pool is safe. */
    method Start(env: SlotId -> Outcome, ghost nodes: (DcType, nat) -> multiset<Node>)
      requires Separate() && Inv(World()) && forall id :: id in slots ==> IsRackSlot(id)
      requires forall dc, r :: 0 <= r < |Racks(dc)| ==> Fresh(dc, r, nodes(dc, r))
      modifies this, Rings()
      ensures Valid()
      ensures forall dc, r :: 0 <= r < |Racks(dc)| ==> Started(dc, r, nodes(dc, r), env)
    {
      hide Inv, Fresh, Started, RingReady;
      if local.Some? { StartDatacenter(LocalDc, env, nodes); }
      if remote.Some? { StartDatacenter(RemoteDc, env, nodes); }
      forall dc, r | 0 <= r < |Racks(dc)|
        ensures Started(dc, r, nodes(dc, r), env) && RingReady(dc, r)
      {
        StartedIsReady(dc, r, nodes(dc, r), env);
      }
    }

    lemma SlotEndpointsAre(dc: DcType, r: nat, nodes: multiset<Node>, passed: multiset<Endpoint>)
      requires r < |Racks(dc)| && RingReady(dc, r) && multiset(Entries(dc, r)) == nodes && Matches(nodes, passed)
      ensures forall k :: 0 <= k < Racks(dc)[r].ncontinuum ==> SlotId(dc, r, k) in endpoints
      ensures multiset(SlotEndpoints(dc, r)) == passed
    {
      hide Ready;
      assert SlotEndpoints(dc, r) == EndpointsOf(Entries(dc, r));
    }

    lemma StartedIsReady(dc: DcType, r: nat, nodes: multiset<Node>, env: SlotId -> Outcome)
      requires r < |Racks(dc)| && Started(dc, r, nodes, env)
      ensures RingReady(dc, r)
    {}

    /** After a start in which every AUTH of a rack succeeded exactly the slots that connected are valid. */
    lemma StartedValidIff(dc: DcType, r: nat, nodes: multiset<Node>, env: SlotId -> Outcome)
      requires r < |Racks(dc)| && Started(dc, r, nodes, env)
      requires AllKnown(World(), RackIds(dc, r, Racks(dc)[r].ncontinuum))
      requires AuthsSucceed(World(), RackIds(dc, r, Racks(dc)[r].ncontinuum), env)
      ensures forall k :: 0 <= k < Racks(dc)[r].ncontinuum ==>
        SlotId(dc, r, k) in slots && slots[SlotId(dc, r, k)].valid == env(SlotId(dc, r, k)).connect.Connected?
    {
      hide FirstConnected, AuthsSucceed, LastAuth;
      var ids := RackIds(dc, r, Racks(dc)[r].ncontinuum);
      FirstConnectedIff(World(), ids, env);
      forall k | 0 <= k < Racks(dc)[r].ncontinuum
        ensures SlotId(dc, r, k) in slots
        ensures slots[SlotId(dc, r, k)].valid == env(SlotId(dc, r, k)).connect.Connected?
      {
        assert ids[k] == SlotId(dc, r, k);
      }
    }

    /** Right after such a start a command first tries the key's owner in local rack 0, finds it valid if it could
        be connected, and if the reply is good ends there. */
    lemma StartedOwnerAnswersFirst(nodes: multiset<Node>, env: SlotId -> Outcome, tried: seq<SlotId>, hash: u32,
                                   good: nat -> bool)
      requires Valid() && local.Some? && local.value != [] && Started(LocalDc, 0, nodes, env)
      requires AllKnown(World(), RackIds(LocalDc, 0, local.value[0].ncontinuum))
      requires AuthsSucceed(World(), RackIds(LocalDc, 0, local.value[0].ncontinuum), env)
      requires tried != [] && Visits(tried, hash) && AllKnown(World(), tried) && good(0)
      requires env(tried[0]).connect.Connected?
      ensures tried[0].dc == LocalDc && tried[0].rack == 0 && Routed(tried[0], hash)
      ensures Retry(World(), tried, good, Quiet(), 0).1 == Some(0)
    {
      hide Retry, Inv, Owns, AuthsSucceed, FirstConnected, RingReady;
      StartedValidIff(LocalDc, 0, nodes, env);
      assert tried[0] == SlotId(LocalDc, 0, tried[0].node);
      ValidFirstSlotAnswers(World(), tried, good);
    }
  }

  /** One more slot on the list: the other threads' steps and then its attempt start from where the last attempt
      left the world. */
  lemma NextAttempt(w: World, before: seq<SlotId>, id: SlotId, good: nat -> bool, others: nat -> seq<Action>)
    requires AllKnown(w, before) && Known(w, id)
    ensures AllKnown(w, before + [id])
    ensures var n := |before|; var v := Run(Reached(w, before, good, others), others(n));
      && Known(v, id)
      && Reached(w, before + [id], good, others) == CommandStep(v, id, good(n))
      && Reached(w, before + [id], good, others) == After(w, before + [id], good, others, n)
      && Succeeds(w, before + [id], good, others, n) == (v.slots[id].valid && good(n))
    ensures forall j :: 0 <= j < |before| ==>
      Succeeds(w, before + [id], good, others, j) == Succeeds(w, before, good, others, j)
  {
    hide CommandStep, After, Succeeds, WorldAt, Run;
    var all, n := before + [id], |before|;
    forall j | 0 <= j < n
      ensures Succeeds(w, all, good, others, j) == Succeeds(w, before, good, others, j)
    {
      PrefixWorlds(w, before, [id], good, others, j);
    }
    if n > 0 {
      PrefixWorlds(w, before, [id], good, others, n - 1);
    }
    WorldAtIs(w, all, good, others, n);
    AfterIs(w, all, good, others, n);
    SucceedsIs(w, all, good, others, n);
  }

  // ---------- From the configuration to the started client ----------

  ghost function RingsOf(d: Option<Datacenter>): set<object>
    reads if d.Some? then {d.value} else {}
  {
    if d.Some? then d.value.Rings() else {}
  }

  ghost predicate ValidIfAny(d: Option<Datacenter>)
    reads if d.Some? then {d.value} else {}, RingsOf(d)
  {
    d.Some? ==> d.value.Valid()
  }

  /** The nodes each rack of a datacenter has been given. */
  ghost function GivenTo(d: Option<Datacenter>): seq<multiset<Node>>
    requires ValidIfAny(d)
    reads if d.Some? then {d.value} else {}, RingsOf(d)
  {
    if d.Some? then d.value.Given() else []
  }

  lemma RingsAre(client: Dynoc, local: Option<Datacenter>, remote: Option<Datacenter>)
    requires client.local == if local.Some? then Some(local.value.racks) else None
    requires client.remote == if remote.Some? then Some(remote.value.racks) else None
    ensures client.Rings() == RingsOf(local) + RingsOf(remote)
  {}

  lemma RacksAreSeparate(client: Dynoc, local: Option<Datacenter>, remote: Option<Datacenter>)
    requires client.local == if local.Some? then Some(local.value.racks) else None
    requires client.remote == if remote.Some? then Some(remote.value.racks) else None
    requires ValidIfAny(local) && ValidIfAny(remote) && RingsOf(local) !! RingsOf(remote)
    ensures client.Separate()
  {
    hide Holds;
    forall r, r' | 0 <= r < |client.Racks(LocalDc)| && 0 <= r' < |client.Racks(RemoteDc)|
      ensures client.Racks(LocalDc)[r].ring != client.Racks(RemoteDc)[r'].ring
    {
      assert client.Racks(LocalDc)[r].ring in RingsOf(local) && client.Racks(RemoteDc)[r'].ring in RingsOf(remote);
    }
  }

  lemma ConfiguredIsFresh(client: Dynoc, dc: DcType, d: Datacenter, r: nat)
    requires d.Valid() && client.Racks(dc) == d.racks && r < |d.racks| && client.Empty(dc, r)
    ensures client.Fresh(dc, r, d.Given()[r])
  {
    hide Holds, NodesFor, GoodRing, EmptySlots;
    HoldsItsNodes(d.racks[r], d.added[d.since[r]..]);
  }

  lemma PoolsAreEmpty(d: Datacenter)
    requires d.Valid()
    ensures forall r :: 0 <= r < |d.racks| ==> PoolEmpty(d.racks[r])
  {}

  /** What belongs to a rack, from the lists for the two datacenters. */
  ghost function Assigned<T>(local: seq<multiset<T>>, remote: seq<multiset<T>>): (DcType, nat) -> multiset<T> {
    (dc: DcType, r: nat) =>
      var given := if dc.LocalDc? then local else remote; if r < |given| then given[r] else multiset{}
  }

  /** The client object over two configured datacenters. */
  method NewClient(local: Option<Datacenter>, remote: Option<Datacenter>, hashFunc: string -> u32)
    returns (client: Dynoc)
    requires ValidIfAny(local) && ValidIfAny(remote) && RingsOf(local) !! RingsOf(remote)
    ensures fresh(client) && client.hashFunc == hashFunc
    ensures client.local == if local.Some? then Some(local.value.racks) else None
    ensures client.remote == if remote.Some? then Some(remote.value.racks) else None
    ensures client.Rings() == RingsOf(local) + RingsOf(remote) && client.Separate()
    ensures Inv(client.World()) && forall id :: id in client.slots ==> client.IsRackSlot(id)
    ensures ValidIfAny(local) && ValidIfAny(remote)
    ensures forall dc, r :: 0 <= r < |client.Racks(dc)| ==>
      client.Fresh(dc, r, Assigned(GivenTo(local), GivenTo(remote))(dc, r))
  {
    hide Holds, Inv, PoolEmpty, GoodRing, EmptySlots, NodesFor;
    if local.Some? { PoolsAreEmpty(local.value); }
    if remote.Some? { PoolsAreEmpty(remote.value); }
    client := new Dynoc(if local.Some? then Some(local.value.racks) else None,
                        if remote.Some? then Some(remote.value.racks) else None, hashFunc);
    RingsAre(client, local, remote);
    RacksAreSeparate(client, local, remote);
    forall dc, r | 0 <= r < |client.Racks(dc)|
      ensures client.Fresh(dc, r, Assigned(GivenTo(local), GivenTo(remote))(dc, r))
    {
      ConfiguredIsFresh(client, dc, if dc.LocalDc? then local.value else remote.value, r);
    }
  }

  ghost function EndpointsGivenTo(d: Option<Datacenter>): seq<multiset<Endpoint>>
    requires ValidIfAny(d)
    reads if d.Some? then {d.value} else {}, RingsOf(d)
  {
    if d.Some? then d.value.GivenEndpoints() else []
  }

  lemma GivenMatch(d: Option<Datacenter>)
    requires ValidIfAny(d)
    ensures |GivenTo(d)| == |EndpointsGivenTo(d)| == if d.Some? then |d.value.racks| else 0
    ensures forall r :: 0 <= r < |GivenTo(d)| ==> Matches(GivenTo(d)[r], EndpointsGivenTo(d)[r])
  {
    if d.Some? {
      forall r | 0 <= r < |GivenTo(d)|
        ensures Matches(GivenTo(d)[r], EndpointsGivenTo(d)[r])
      {
        d.value.GivenMatches(r);
      }
    }
  }

  /** dynoc_start on two datacenters as configured by any run of dynoc_rack_init and dynoc_add_node: every rack's
      ring holds exactly the nodes added under its name, sorted and indexed. */
  method StartWithNodes(local: Option<Datacenter>, remote: Option<Datacenter>, hashFunc: string -> u32,
                        env: SlotId -> Outcome)
    returns (client: Dynoc)
    requires ValidIfAny(local) && ValidIfAny(remote) && RingsOf(local) !! RingsOf(remote)
    modifies RingsOf(local), RingsOf(remote)
    ensures fresh(client) && client.Valid() && client.hashFunc == hashFunc
    ensures client.local == if local.Some? then Some(local.value.racks) else None
    ensures client.remote == if remote.Some? then Some(remote.value.racks) else None
    ensures forall dc, r :: 0 <= r < |client.Racks(dc)| ==>
      client.Started(dc, r, Assigned(old(GivenTo(local)), old(GivenTo(remote)))(dc, r), env)
  {
    hide Inv, Ready, Bound, Assigned, SlotsStarted;
    ghost var givenLocal, givenRemote := GivenTo(local), GivenTo(remote);
    client := NewClient(local, remote, hashFunc);
    assert GivenTo(local) == givenLocal && GivenTo(remote) == givenRemote;
    client.Start(env, Assigned(givenLocal, givenRemote));
  }

  /** What StartConfigured promises of a rack, given the nodes and the endpoints passed in for it. */
  ghost predicate RackStarted(client: Dynoc, dc: DcType, r: nat, env: SlotId -> Outcome,
                              nodes: multiset<Node>, passed: multiset<Endpoint>)
    requires r < |client.Racks(dc)|
    reads client, client.Racks(dc)[r].ring
  {
    var rack := client.Racks(dc)[r];
    && client.RingReady(dc, r) && multiset(client.Entries(dc, r)) == nodes
    && (forall k :: 0 <= k < rack.ncontinuum ==> SlotId(dc, r, k) in client.endpoints)
    && multiset(client.SlotEndpoints(dc, r)) == passed
    && SlotsStarted(client.World(), dc, r, rack.ncontinuum, rack.ring.Length, env)
  }

  lemma StartedWithEndpoints(client: Dynoc, dc: DcType, r: nat, env: SlotId -> Outcome,
                             nodes: multiset<Node>, passed: multiset<Endpoint>)
    requires r < |client.Racks(dc)| && client.Started(dc, r, nodes, env) && Matches(nodes, passed)
    ensures RackStarted(client, dc, r, env, nodes, passed)
  {
    hide Ready, Bound, SlotsStarted, Matches;
    client.SlotEndpointsAre(dc, r, nodes, passed);
  }

  lemma AssignedMatch(local: Option<Datacenter>, remote: Option<Datacenter>, dc: DcType, r: nat)
    requires ValidIfAny(local) && ValidIfAny(remote)
    ensures Matches(Assigned(GivenTo(local), GivenTo(remote))(dc, r),
                    Assigned(EndpointsGivenTo(local), EndpointsGivenTo(remote))(dc, r))
  {
    hide ValidIfAny, Matches, GivenTo, EndpointsGivenTo;
    NothingMatches();
    GivenMatch(local);
    GivenMatch(remote);
  }

  lemma NothingMatches()
    ensures Matches(multiset{}, multiset{})
  {
    forall s: seq<Node> | multiset(s) == multiset{}
      ensures multiset(EndpointsOf(s)) == multiset{}
    {
      assert |multiset(s)| == |s|;
    }
  }

  /** The same in terms of what was passed in: each rack's slots are connected to exactly the endpoints passed with
      the additions under its name, passwords included. */
  method StartConfigured(local: Option<Datacenter>, remote: Option<Datacenter>, hashFunc: string -> u32,
                         env: SlotId -> Outcome)
    returns (client: Dynoc)
    requires ValidIfAny(local) && ValidIfAny(remote) && RingsOf(local) !! RingsOf(remote)
    modifies RingsOf(local), RingsOf(remote)
    ensures fresh(client) && client.Valid() && client.hashFunc == hashFunc
    ensures client.local == if local.Some? then Some(local.value.racks) else None
    ensures client.remote == if remote.Some? then Some(remote.value.racks) else None
    ensures forall dc, r :: 0 <= r < |client.Racks(dc)| ==>
      RackStarted(client, dc, r, env, Assigned(old(GivenTo(local)), old(GivenTo(remote)))(dc, r),
                  Assigned(old(EndpointsGivenTo(local)), old(EndpointsGivenTo(remote)))(dc, r))
  {
    hide *;
    ghost var nodes := Assigned(GivenTo(local), GivenTo(remote));
    ghost var passed := Assigned(EndpointsGivenTo(local), EndpointsGivenTo(remote));
    forall dc, r: nat
      ensures Matches(nodes(dc, r), passed(dc, r))
    {
      AssignedMatch(local, remote, dc, r);
    }
    client := StartWithNodes(local, remote, hashFunc, env);
    forall dc, r | 0 <= r < |client.Racks(dc)|
      ensures RackStarted(client, dc, r, env, nodes(dc, r), passed(dc, r))
    {
      StartedWithEndpoints(client, dc, r, env, nodes(dc, r), passed(dc, r));
    }
  }

  // ---------- Adding a node ----------

  /** Consistent hashing for the whole client: two started clients with one rack configured alike, but for one more
      node in the second, send every key to a slot of the same endpoint, except that the keys whose token is on
      the arc of the new node go to a slot of the new node's endpoint. */
  lemma NewNodeTakesItsArc(d: Dynoc, e: Dynoc, i: SlotId, j: SlotId, t: Node, hash: u32) returns (p: Node)
    requires d.Valid() && e.Valid() && d.Routed(i, hash) && e.Routed(j, hash)
    requires multiset(e.Entries(j.dc, j.rack)) == multiset(d.Entries(i.dc, i.rack)) + multiset{t}
    requires Distinct(e.Entries(j.dc, j.rack)) && t !in d.Entries(i.dc, i.rack)
    ensures GoodNode(p) && GoodNode(t) && Precedes(d.Entries(i.dc, i.rack), p, t)
    ensures WellFormed(IntToken(hash)) && i in d.endpoints && j in e.endpoints
    ensures e.endpoints[j] == if InArc(p.token, IntToken(hash), t.token) then t.endpoint else d.endpoints[i]
  {
    hide Owns, InArc, Compare, WellFormed, Distinct, Inv;
    var before, after := d.Entries(i.dc, i.rack), e.Entries(j.dc, j.rack);
    AddedFromMultiset(before, t, after);
    assert t in after;
    assert d.RingReady(i.dc, i.rack) && e.RingReady(j.dc, j.rack);
    p := PredecessorExists(before, t);
    OnlyTheArcMoves(before, t, after, p, IntToken(hash),
                    d.Racks(i.dc)[i.rack].ring[i.node].node, e.Racks(j.dc)[j.rack].ring[j.node].node);
    d.SlotOfEntry(i);
    e.SlotOfEntry(j);
  }
}
