/** The connection pool as a state machine. Each region of code between lock and unlock of one slot is one
    step; which connects, authentications, pings and commands succeed is up to the environment. */
module Pool {
  import opened Ring

  /** A hiredis context: allocated until freed, connected to one endpoint, authenticated or not. */
  datatype Context = Context(live: bool, authed: bool, endpoint: Endpoint)

  /** A pool slot: the status flag and the context pointer, NULL or the number of a context. */
  datatype Slot = Slot(valid: bool, ctx: Option<nat>)

  datatype DcType = RemoteDc | LocalDc

  /** Entry `node` of the connection pool of a rack. */
  datatype SlotId = SlotId(dc: DcType, rack: nat, node: nat)

  /** Every slot of every rack with the endpoint its node is configured with, every context ever allocated,
      and whether a step has used or freed a context it must not: a NULL one or one already freed. */
  datatype World =
    World(endpoints: map<SlotId, Endpoint>, slots: map<SlotId, Slot>, contexts: seq<Context>, fault: bool)

  predicate Known(w: World, id: SlotId) {
    id in w.slots && id in w.endpoints
  }

  // ---------- hiredis calls ----------

  predicate Live(w: World, ctx: Option<nat>) {
    ctx.Some? && ctx.value < |w.contexts| && w.contexts[ctx.value].live
  }

  /** Sending a command over a context. */
  function Use(w: World, ctx: Option<nat>): World {
    w.(fault := w.fault || !Live(w, ctx))
  }

  /** redisFree. */
  function Free(w: World, ctx: Option<nat>): World {
    if Live(w, ctx) then w.(contexts := w.contexts[ctx.value := w.contexts[ctx.value].(live := false)])
    else w.(fault := true)
  }

  /** How a connect ends: no context at all, a context with an error, or a connection. */
  datatype ConnectResult = Refused | Errored | Connected

  /** What the environment does in one health-check step on one slot. */
  datatype Outcome = Outcome(ping: bool, connect: ConnectResult, auth: bool)

  // ---------- The critical sections ----------

  /** reset_redis_connection. */
  function Reset(w: World, id: SlotId): World
    requires Known(w, id)
  {
    Free(w, w.slots[id].ctx).(slots := w.slots[id := Slot(false, None)])
  }

  /** A command's attempt on a slot: nothing on an invalid slot; on a valid one the command is sent, and a bad
      reply resets the slot. The first half of a health-check step does the same with PING. */
  function CommandStep(w: World, id: SlotId, good: bool): (w': World)
    requires Known(w, id)
    ensures w'.endpoints == w.endpoints && w'.slots.Keys == w.slots.Keys
  {
    var s := w.slots[id];
    if !s.valid then w
    else if good then Use(w, s.ctx)
    else Reset(Use(w, s.ctx), id)
  }

  /** Connecting a slot: the status carried over from slot to slot is replaced by the outcome of AUTH if the
      node has a password, and stored in the slot whenever the connect succeeds. */
  function ConnectStep(w: World, id: SlotId, carried: bool, o: Outcome): (r: (World, bool))
    requires Known(w, id)
    ensures r.0.endpoints == w.endpoints && r.0.slots.Keys == w.slots.Keys
  {
    var endpoint := w.endpoints[id];
    var ctx := Some(|w.contexts|);
    match o.connect
    case Refused => (w, carried)
    case Errored => (Free(w.(contexts := w.contexts + [Context(true, false, endpoint)]), ctx), carried)
    case Connected =>
      var protected := endpoint.pass.Some?;
      var status := if protected then o.auth else carried;
      var w1 := w.(contexts := w.contexts + [Context(true, protected && o.auth, endpoint)]);
      var w2 := if protected then Use(w1, ctx) else w1;
      (w2.(slots := w2.slots[id := Slot(status, ctx)]), status)
  }

  /** One health-check step: PING a valid slot, then connect it if it is not, or no longer, valid. */
  function HealthStep(w: World, id: SlotId, carried: bool, o: Outcome): (r: (World, bool))
    requires Known(w, id)
    ensures r.0.endpoints == w.endpoints && r.0.slots.Keys == w.slots.Keys
  {
    var w1 := CommandStep(w, id, o.ping);
    if w1.slots[id].valid then (w1, carried) else ConnectStep(w1, id, carried, o)
  }

  /** The fault flag records exactly the uses and frees of a context that is not live. */
  lemma CallFaultsIff(w: World, ctx: Option<nat>)
    ensures Use(w, ctx).fault <==> w.fault || !Live(w, ctx)
    ensures Free(w, ctx).fault <==> w.fault || !Live(w, ctx)
    ensures !Live(Free(w, ctx), ctx)
    ensures forall c: nat :: Some(c) != ctx ==> (Live(Free(w, ctx), Some(c)) <==> Live(w, Some(c)))
  {}

  /** A step adds a fault exactly if it is on a valid slot whose context is not live. */
  lemma StepFaultsIff(w: World, id: SlotId, good: bool, carried: bool, o: Outcome)
    requires Known(w, id)
    ensures CommandStep(w, id, good).fault <==> w.fault || (w.slots[id].valid && !Live(w, w.slots[id].ctx))
    ensures HealthStep(w, id, carried, o).0.fault <==> w.fault || (w.slots[id].valid && !Live(w, w.slots[id].ctx))
    ensures ConnectStep(w, id, carried, o).0.fault == w.fault
  {
    var w1 := CommandStep(w, id, o.ping);
    ConnectFaultless(w, id, carried, o);
    ConnectFaultless(w1, id, carried, o);
  }

  lemma ConnectFaultless(w: World, id: SlotId, carried: bool, o: Outcome)
    requires Known(w, id)
    ensures ConnectStep(w, id, carried, o).0.fault == w.fault
  {}

  // ---------- What every step keeps ----------

  ghost predicate SlotOk(w: World, id: SlotId)
    requires Known(w, id)
  {
    var s := w.slots[id];
    && (s.valid ==> s.ctx.Some?)
    && (s.ctx.Some? ==> Live(w, s.ctx) && w.contexts[s.ctx.value].endpoint == w.endpoints[id])
    && (s.valid && w.endpoints[id].pass.Some? ==> w.contexts[s.ctx.value].authed)
  }

  /** A valid slot owns a live context connected to its own endpoint and authenticated if the node has a
      password; no two slots own one context; nothing freed or NULL has been used or freed. */
  ghost predicate Inv(w: World) {
    && !w.fault
    && w.slots.Keys == w.endpoints.Keys
    && (forall id :: id in w.slots ==> SlotOk(w, id))
    && (forall i, j :: i in w.slots && j in w.slots && i != j && w.slots[i].ctx.Some? ==>
          w.slots[i].ctx != w.slots[j].ctx)
  }

  lemma CommandStepKeepsInv(w: World, id: SlotId, good: bool)
    requires Inv(w) && Known(w, id)
    ensures Inv(CommandStep(w, id, good))
  {
    assert SlotOk(w, id);
    var w1 := CommandStep(w, id, good);
    forall i | i in w1.slots ensures SlotOk(w1, i) {
      assert SlotOk(w, i);
    }
  }

  lemma MoreContextsKeepInv(w: World, c: Context)
    requires Inv(w)
    ensures Inv(w.(contexts := w.contexts + [c]))
  {
    var w1 := w.(contexts := w.contexts + [c]);
    forall i | i in w1.slots ensures SlotOk(w1, i) {
      assert SlotOk(w, i);
    }
  }

  lemma StoringFreshKeepsInv(w: World, id: SlotId, s: Slot)
    requires Inv(w) && Known(w, id)
    requires s.ctx.Some? && Live(w, s.ctx) && forall i :: i in w.slots ==> w.slots[i].ctx != s.ctx
    requires w.contexts[s.ctx.value].endpoint == w.endpoints[id]
    requires s.valid && w.endpoints[id].pass.Some? ==> w.contexts[s.ctx.value].authed
    ensures Inv(w.(slots := w.slots[id := s]))
  {
    var w1 := w.(slots := w.slots[id := s]);
    forall i | i in w1.slots ensures SlotOk(w1, i) {
      assert SlotOk(w, i);
    }
  }

  lemma ConnectStepKeepsInv(w: World, id: SlotId, carried: bool, o: Outcome)
    requires Inv(w) && Known(w, id)
    ensures Inv(ConnectStep(w, id, carried, o).0)
  {
    var endpoint := w.endpoints[id];
    var n := |w.contexts|;
    forall i | i in w.slots
      ensures w.slots[i].ctx != Some(n)
    {
      assert SlotOk(w, i);
    }
    match o.connect
    case Refused =>
    case Errored =>
      MoreContextsKeepInv(w, Context(false, false, endpoint));
      assert (w.contexts + [Context(true, false, endpoint)])[n := Context(false, false, endpoint)]
          == w.contexts + [Context(false, false, endpoint)];
    case Connected =>
      var protected := endpoint.pass.Some?;
      var w1 := w.(contexts := w.contexts + [Context(true, protected && o.auth, endpoint)]);
      MoreContextsKeepInv(w, Context(true, protected && o.auth, endpoint));
      StoringFreshKeepsInv(w1, id, Slot(if protected then o.auth else carried, Some(n)));
  }

  lemma HealthStepKeepsInv(w: World, id: SlotId, carried: bool, o: Outcome)
    requires Inv(w) && Known(w, id)
    ensures Inv(HealthStep(w, id, carried, o).0)
  {
    hide Inv;
    CommandStepKeepsInv(w, id, o.ping);
    var w1 := CommandStep(w, id, o.ping);
    if !w1.slots[id].valid {
      ConnectStepKeepsInv(w1, id, carried, o);
    }
  }

  // ---------- Runs ----------

  /** A step of some thread. A health-check step may carry in any status: the thread's own order of slots is
      one of the interleavings. */
  datatype Action =
    | Command(id: SlotId, good: bool)
    | Health(id: SlotId, carried: bool, outcome: Outcome)
    | Connect(id: SlotId, carried: bool, outcome: Outcome)

  function Act(w: World, a: Action): (w': World)
    ensures w'.endpoints == w.endpoints && w'.slots.Keys == w.slots.Keys
  {
    if !Known(w, a.id) then w
    else match a
      case Command(id, good) => CommandStep(w, id, good)
      case Health(id, carried, o) => HealthStep(w, id, carried, o).0
      case Connect(id, carried, o) => ConnectStep(w, id, carried, o).0
  }

  lemma ActIs(w: World, a: Action)
    ensures Act(w, a) ==
      if !Known(w, a.id) then w
      else if a.Command? then CommandStep(w, a.id, a.good)
      else if a.Health? then HealthStep(w, a.id, a.carried, a.outcome).0
      else ConnectStep(w, a.id, a.carried, a.outcome).0
  {
    hide CommandStep, HealthStep, ConnectStep;
  }

  function Run(w: World, actions: seq<Action>): (w': World)
    ensures w'.endpoints == w.endpoints && w'.slots.Keys == w.slots.Keys
    decreases actions
  {
    if actions == [] then w else Run(Act(w, actions[0]), actions[1..])
  }

  /** A fault is never taken back. */
  lemma {:induction false} FaultStays(w: World, actions: seq<Action>)
    requires w.fault
    ensures Run(w, actions).fault
    decreases actions
  {
    hide CommandStep, HealthStep, ConnectStep;
    if actions != [] {
      var a := actions[0];
      if Known(w, a.id) {
        StepFaultsIff(w, a.id, a.Command? && a.good, !a.Command? && a.carried,
                      if a.Command? then Outcome(a.good, Refused, false) else a.outcome);
      }
      FaultStays(Act(w, a), actions[1..]);
    }
  }

  /** All slots invalid and empty, as dynoc_rack_init leaves them. */
  function Initial(endpoints: map<SlotId, Endpoint>): World {
    World(endpoints, map id | id in endpoints :: Slot(false, None), [], false)
  }

  /** Safety of every run, in every interleaving of the pool initialisation, command critical sections and
      health-check steps, whatever the environment does. */
  lemma {:induction false} EveryRunIsSafe(w: World, actions: seq<Action>)
    requires Inv(w)
    ensures Inv(Run(w, actions))
    decreases actions
  {
    hide Inv;
    if actions != [] {
      var a := actions[0];
      if Known(w, a.id) {
        match a
        case Command(id, good) => CommandStepKeepsInv(w, id, good);
        case Health(id, carried, o) => HealthStepKeepsInv(w, id, carried, o);
        case Connect(id, carried, o) => ConnectStepKeepsInv(w, id, carried, o);
      }
      EveryRunIsSafe(Act(w, a), actions[1..]);
    }
  }

  lemma InitialInv(endpoints: map<SlotId, Endpoint>)
    ensures Inv(Initial(endpoints))
  {}

  lemma EveryRunFromStartIsSafe(endpoints: map<SlotId, Endpoint>, actions: seq<Action>)
    ensures Inv(Run(Initial(endpoints), actions))
  {
    EveryRunIsSafe(Initial(endpoints), actions);
  }

  // ---------- Where authentication comes from ----------

  /** A connect with a successful AUTH of the endpoint's password. */
  predicate Authenticates(endpoints: map<SlotId, Endpoint>, a: Action, endpoint: Endpoint) {
    && !a.Command? && a.outcome.connect.Connected? && a.outcome.auth
    && a.id in endpoints && endpoints[a.id] == endpoint && endpoint.pass.Some?
  }

  predicate Authed(w: World, c: nat) {
    c < |w.contexts| && w.contexts[c].authed
  }

  lemma CommandAuthsNothing(w: World, id: SlotId, good: bool, c: nat)
    requires Known(w, id)
    ensures |CommandStep(w, id, good).contexts| == |w.contexts|
    ensures c < |w.contexts| ==> CommandStep(w, id, good).contexts[c].(live := true) == w.contexts[c].(live := true)
  {}

  lemma ConnectAuths(w: World, id: SlotId, carried: bool, o: Outcome, c: nat)
    requires Known(w, id) && Authed(ConnectStep(w, id, carried, o).0, c)
    ensures Authed(w, c)
      || Authenticates(w.endpoints, Connect(id, carried, o), ConnectStep(w, id, carried, o).0.contexts[c].endpoint)
  {}

  /** One step: what it leaves authenticated was so before, or it was authenticated by this step. */
  lemma ActAuths(w: World, a: Action, c: nat)
    requires Authed(Act(w, a), c)
    ensures Authed(w, c) || Authenticates(w.endpoints, a, Act(w, a).contexts[c].endpoint)
  {
    hide CommandStep, ConnectStep;
    if Known(w, a.id) {
      match a
      case Command(id, good) => CommandAuthsNothing(w, id, good, c);
      case Connect(id, carried, o) => ConnectAuths(w, id, carried, o, c);
      case Health(id, carried, o) =>
        CommandAuthsNothing(w, id, o.ping, c);
        var w1 := CommandStep(w, id, o.ping);
        if !w1.slots[id].valid { ConnectAuths(w1, id, carried, o, c); }
    }
  }

  /** A context keeps its number and its endpoint. */
  lemma ActKeepsEndpoint(w: World, a: Action, c: nat)
    requires c < |w.contexts|
    ensures c < |Act(w, a).contexts| && Act(w, a).contexts[c].endpoint == w.contexts[c].endpoint
  {
    hide CommandStep, ConnectStep;
    if Known(w, a.id) {
      match a
      case Command(id, good) => CommandAuthsNothing(w, id, good, c);
      case Connect(id, carried, o) => ConnectKeepsEndpoint(w, id, carried, o, c);
      case Health(id, carried, o) =>
        CommandAuthsNothing(w, id, o.ping, c);
        ConnectKeepsEndpoint(CommandStep(w, id, o.ping), id, carried, o, c);
    }
  }

  lemma ConnectKeepsEndpoint(w: World, id: SlotId, carried: bool, o: Outcome, c: nat)
    requires Known(w, id) && c < |w.contexts|
    ensures c < |ConnectStep(w, id, carried, o).0.contexts|
    ensures ConnectStep(w, id, carried, o).0.contexts[c].endpoint == w.contexts[c].endpoint
  {}

  /** What a run leaves authenticated was so before, or one of the steps authenticated it with the password of
      its own endpoint. */
  lemma {:induction false} RunAuths(w: World, actions: seq<Action>, c: nat)
    requires Authed(Run(w, actions), c)
    ensures Authed(w, c)
      || exists a :: a in actions && Authenticates(w.endpoints, a, Run(w, actions).contexts[c].endpoint)
    decreases actions
  {
    hide Authenticates;
    if actions != [] {
      RunAuths(Act(w, actions[0]), actions[1..], c);
      if Authed(Act(w, actions[0]), c) {
        ActAuths(w, actions[0], c);
        RunKeepsEndpoint(Act(w, actions[0]), actions[1..], c);
      }
    }
  }

  lemma {:induction false} RunKeepsEndpoint(w: World, actions: seq<Action>, c: nat)
    requires c < |w.contexts|
    ensures c < |Run(w, actions).contexts| && Run(w, actions).contexts[c].endpoint == w.contexts[c].endpoint
    decreases actions
  {
    hide Act;
    if actions != [] {
      ActKeepsEndpoint(w, actions[0], c);
      RunKeepsEndpoint(Act(w, actions[0]), actions[1..], c);
    }
  }

  /** With EveryRunFromStartIsSafe: a valid slot of a node with a password has a context that one of the steps of the
      run authenticated with that password. */
  lemma ValidWasAuthenticated(endpoints: map<SlotId, Endpoint>, actions: seq<Action>, id: SlotId)
    requires id in endpoints && endpoints[id].pass.Some?
    requires Run(Initial(endpoints), actions).slots[id].valid
    ensures exists a :: a in actions && Authenticates(endpoints, a, endpoints[id])
  {
    hide Authenticates, Run, Act;
    var w := Run(Initial(endpoints), actions);
    EveryRunFromStartIsSafe(endpoints, actions);
    assert SlotOk(w, id);
    RunAuths(Initial(endpoints), actions, w.slots[id].ctx.value);
  }

  // ---------- Contexts that are lost ----------

  /** Every live context is still owned by a slot. */
  ghost predicate NoLeak(w: World) {
    forall c :: 0 <= c < |w.contexts| && w.contexts[c].live ==> exists id :: id in w.slots && w.slots[id].ctx == Some(c)
  }

  lemma CommandStepKeepsNoLeak(w: World, id: SlotId, good: bool)
    requires Inv(w) && NoLeak(w) && Known(w, id)
    ensures NoLeak(CommandStep(w, id, good))
  {
    var w1 := CommandStep(w, id, good);
    assert SlotOk(w, id);
    forall c | 0 <= c < |w1.contexts| && w1.contexts[c].live
      ensures exists i :: i in w1.slots && w1.slots[i].ctx == Some(c)
    {
      var i :| i in w.slots && w.slots[i].ctx == Some(c);
      assert i in w1.slots && w1.slots[i].ctx == Some(c);
    }
  }

  /** A health-check step loses a context exactly when it reconnects an invalid slot that still holds one,
      as a slot does after a failed AUTH: the old context is overwritten without being freed. */
  lemma HealthStepLeaksIff(w: World, id: SlotId, carried: bool, o: Outcome)
    requires Inv(w) && NoLeak(w) && Known(w, id)
    ensures NoLeak(HealthStep(w, id, carried, o).0) <==>
      !(!w.slots[id].valid && w.slots[id].ctx.Some? && o.connect.Connected?)
  {
    var w1 := CommandStep(w, id, o.ping);
    CommandStepKeepsNoLeak(w, id, o.ping);
    CommandStepKeepsInv(w, id, o.ping);
    if !w1.slots[id].valid {
      if w.slots[id].valid {
        assert w1.slots[id] == Slot(false, None);
      } else {
        assert w1 == w;
      }
      ConnectStepLeaksIff(w1, id, carried, o);
    }
  }

  lemma ConnectStepLeaksIff(w: World, id: SlotId, carried: bool, o: Outcome)
    requires Inv(w) && NoLeak(w) && Known(w, id)
    ensures NoLeak(ConnectStep(w, id, carried, o).0) <==> !(w.slots[id].ctx.Some? && o.connect.Connected?)
  {
    var w1 := ConnectStep(w, id, carried, o).0;
    var n := |w.contexts|;
    assert SlotOk(w, id);
    if w.slots[id].ctx.Some? && o.connect.Connected? {
      var c := w.slots[id].ctx.value;
      assert w1.contexts[c].live;
      forall i | i in w1.slots ensures w1.slots[i].ctx != Some(c) {}
    } else {
      forall c | 0 <= c < |w1.contexts| && w1.contexts[c].live
        ensures exists i :: i in w1.slots && w1.slots[i].ctx == Some(c)
      {
        if c == n {
          assert w1.slots[id].ctx == Some(c);
        } else {
          var i :| i in w.slots && w.slots[i].ctx == Some(c);
          assert i in w1.slots && w1.slots[i].ctx == Some(c);
        }
      }
    }
  }

  /** The step connects a slot that, when it comes to connect it, still holds a context. */
  predicate Overwrites(w: World, a: Action) {
    Known(w, a.id) && w.slots[a.id].ctx.Some? &&
    match a
    case Command(_, _) => false
    case Health(id, _, o) => !w.slots[id].valid && o.connect.Connected?
    case Connect(_, _, o) => o.connect.Connected?
  }

  lemma ActLeaksIff(w: World, a: Action)
    requires Inv(w) && NoLeak(w)
    ensures NoLeak(Act(w, a)) <==> !Overwrites(w, a)
  {
    hide Inv, NoLeak, CommandStep, HealthStep, ConnectStep;
    if Known(w, a.id) {
      match a
      case Command(id, good) => CommandStepKeepsNoLeak(w, id, good);
      case Health(id, carried, o) => HealthStepLeaksIff(w, id, carried, o);
      case Connect(id, carried, o) => ConnectStepLeaksIff(w, id, carried, o);
    }
  }

  /** A live context that no slot owns: nothing will ever free it. */
  ghost predicate Lost(w: World, c: nat) {
    Live(w, Some(c)) && forall id :: id in w.slots ==> w.slots[id].ctx != Some(c)
  }

  lemma CommandStepKeepsLost(w: World, id: SlotId, good: bool, c: nat)
    requires Lost(w, c) && Known(w, id)
    ensures Lost(CommandStep(w, id, good), c)
  {}

  lemma ConnectStepKeepsLost(w: World, id: SlotId, carried: bool, o: Outcome, c: nat)
    requires Lost(w, c) && Known(w, id)
    ensures Lost(ConnectStep(w, id, carried, o).0, c)
  {}

  lemma ActKeepsLost(w: World, a: Action, c: nat)
    requires Lost(w, c)
    ensures Lost(Act(w, a), c)
  {
    hide Lost, CommandStep, ConnectStep;
    if Known(w, a.id) {
      match a
      case Command(id, good) => CommandStepKeepsLost(w, id, good, c);
      case Health(id, carried, o) =>
        CommandStepKeepsLost(w, id, o.ping, c);
        ConnectStepKeepsLost(CommandStep(w, id, o.ping), id, carried, o, c);
      case Connect(id, carried, o) => ConnectStepKeepsLost(w, id, carried, o, c);
    }
  }

  lemma {:induction false} RunKeepsLost(w: World, actions: seq<Action>, c: nat)
    requires Lost(w, c)
    ensures Lost(Run(w, actions), c)
    decreases actions
  {
    hide Lost, Act;
    if actions != [] {
      ActKeepsLost(w, actions[0], c);
      RunKeepsLost(Act(w, actions[0]), actions[1..], c);
    }
  }

  /** Some step of the run overwrites a context. */
  predicate Overwriting(w: World, actions: seq<Action>)
    decreases actions
  {
    actions != [] && (Overwrites(w, actions[0]) || Overwriting(Act(w, actions[0]), actions[1..]))
  }

  lemma LeakIsLost(w: World)
    ensures NoLeak(w) <==> forall c: nat :: !Lost(w, c)
  {
    if !NoLeak(w) {
      var c :| 0 <= c < |w.contexts| && w.contexts[c].live
        && forall id :: id in w.slots ==> w.slots[id].ctx != Some(c);
      assert Lost(w, c);
    }
  }

  /** A run ends with a lost context exactly if one of its steps connects a slot that still holds one: what
      is lost once stays lost. */
  lemma {:induction false} RunLeaksIff(w: World, actions: seq<Action>)
    requires Inv(w) && NoLeak(w)
    ensures NoLeak(Run(w, actions)) <==> !Overwriting(w, actions)
    decreases actions
  {
    hide Inv, NoLeak, Lost, Act, Overwrites;
    if actions != [] {
      var w1 := Act(w, actions[0]);
      ActLeaksIff(w, actions[0]);
      EveryRunIsSafe(w, [actions[0]]);
      assert [actions[0]][1..] == [] && Run(w, [actions[0]]) == Run(w1, []) == w1;
      if NoLeak(w1) {
        RunLeaksIff(w1, actions[1..]);
      } else {
        LeakIsLost(w1);
        var c: nat :| Lost(w1, c);
        RunKeepsLost(w1, actions[1..], c);
        LeakIsLost(Run(w1, actions[1..]));
      }
    }
  }

  /** From the start on. */
  lemma RunFromStartLeaksIff(endpoints: map<SlotId, Endpoint>, actions: seq<Action>)
    ensures NoLeak(Run(Initial(endpoints), actions)) <==> !Overwriting(Initial(endpoints), actions)
  {
    InitialInv(endpoints);
    RunLeaksIff(Initial(endpoints), actions);
  }

  /** It happens: a node whose AUTH fails in two health checks loses the context of the first connect. */
  lemma ContextsCanBeLost(id: SlotId, host: string, port: int, pass: string)
    ensures var check := Health(id, true, Outcome(true, Connected, false));
      !NoLeak(Run(Initial(map[id := Endpoint(host, port, Some(pass))]), [check, check]))
  {
    var w := Initial(map[id := Endpoint(host, port, Some(pass))]);
    var check := Health(id, true, Outcome(true, Connected, false));
    assert [check, check][1..] == [check];
    assert Act(w, check).slots[id] == Slot(false, Some(0));
    assert Overwriting(Act(w, check), [check]);
    RunFromStartLeaksIff(w.endpoints, [check, check]);
  }
}
