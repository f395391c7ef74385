/** Whole passes of the health check, and whole commands, over the pool. */
module Passes {
  import opened Ring
  import opened Pool

  // ---------- One pass of the health check over the slots of a datacenter ----------

  ghost predicate AllKnown(w: World, ids: seq<SlotId>) {
    forall k :: 0 <= k < |ids| ==> Known(w, ids[k])
  }

  ghost predicate NoRepeats(ids: seq<SlotId>) {
    forall j, k :: 0 <= j < k < |ids| ==> ids[j] != ids[k]
  }

  /** The slots in order, the status variable carried from each to the next: others(id) is what the other threads
      do before the pass takes the lock of slot id. */
  function Pass(w: World, ids: seq<SlotId>, carried: bool, env: SlotId -> Outcome, others: SlotId -> seq<Action>)
    : (r: (World, bool))
    requires AllKnown(w, ids)
    ensures r.0.endpoints == w.endpoints && r.0.slots.Keys == w.slots.Keys
    decreases ids
  {
    if ids == [] then (w, carried)
    else
      var id := ids[0];
      var r := HealthStep(Run(w, others(id)), id, carried, env(id));
      Pass(r.0, ids[1..], r.1, env, others)
  }

  /** No other thread does anything during the pass. */
  function Calm(): SlotId -> seq<Action> {
    (id: SlotId) => []
  }

  lemma PassNothing(w: World, carried: bool, env: SlotId -> Outcome, others: SlotId -> seq<Action>)
    ensures Pass(w, [], carried, env, others) == (w, carried)
  {}

  lemma {:induction false} PassConcat(w: World, u: seq<SlotId>, v: seq<SlotId>, carried: bool,
      env: SlotId -> Outcome, others: SlotId -> seq<Action>)
    requires AllKnown(w, u) && AllKnown(w, v)
    ensures AllKnown(w, u + v)
    ensures var r := Pass(w, u, carried, env, others);
      Pass(w, u + v, carried, env, others) == Pass(r.0, v, r.1, env, others)
    decreases u
  {
    hide HealthStep, Run;
    if u == [] {
      assert u + v == v;
    } else {
      assert (u + v)[1..] == u[1..] + v;
      var r := HealthStep(Run(w, others(u[0])), u[0], carried, env(u[0]));
      PassConcat(r.0, u[1..], v, r.1, env, others);
    }
  }

  /** One more slot of the pass. */
  lemma PassOneMore(w: World, ids: seq<SlotId>, id: SlotId, carried: bool,
      env: SlotId -> Outcome, others: SlotId -> seq<Action>)
    requires AllKnown(w, ids) && Known(w, id)
    ensures AllKnown(w, ids + [id])
    ensures var r := Pass(w, ids, carried, env, others);
      Pass(w, ids + [id], carried, env, others) == HealthStep(Run(r.0, others(id)), id, r.1, env(id))
  {
    hide HealthStep, Run;
    PassConcat(w, ids, [id], carried, env, others);
    var r := Pass(w, ids, carried, env, others);
    assert [id][1..] == [];
    assert Pass(r.0, [id], r.1, env, others) == HealthStep(Run(r.0, others(id)), id, r.1, env(id));
  }

  // ---------- What a pass makes of each slot, in closed form ----------

  /** A slot the pass tries to connect: invalid before, or not answering PING. */
  predicate NeedsConnect(w: World, id: SlotId, o: Outcome)
    requires Known(w, id)
  {
    !(w.slots[id].valid && o.ping)
  }

  predicate AuthPerformed(w: World, id: SlotId, o: Outcome)
    requires Known(w, id)
  {
    NeedsConnect(w, id, o) && o.connect.Connected? && w.endpoints[id].pass.Some?
  }

  /** The outcome of the last AUTH performed on one of these slots, or the status from before them. */
  function LastAuth(w: World, ids: seq<SlotId>, initially: bool, env: SlotId -> Outcome): bool
    requires AllKnown(w, ids)
  {
    if ids == [] then initially
    else
      var id := ids[|ids| - 1];
      if AuthPerformed(w, id, env(id)) then env(id).auth else LastAuth(w, ids[..|ids| - 1], initially, env)
  }

  /** The nearest AUTH decides. */
  lemma {:induction false} LastAuthNearest(w: World, ids: seq<SlotId>, initially: bool, env: SlotId -> Outcome, j: nat)
    requires AllKnown(w, ids) && j < |ids| && AuthPerformed(w, ids[j], env(ids[j]))
    requires forall i :: j < i < |ids| ==> !AuthPerformed(w, ids[i], env(ids[i]))
    ensures LastAuth(w, ids, initially, env) == env(ids[j]).auth
    decreases ids
  {
    hide AuthPerformed;
    if j < |ids| - 1 {
      LastAuthNearest(w, ids[..|ids| - 1], initially, env, j);
    }
  }

  lemma {:induction false} NoAuthBefore(w: World, ids: seq<SlotId>, initially: bool, env: SlotId -> Outcome)
    requires AllKnown(w, ids) && forall i :: 0 <= i < |ids| ==> !AuthPerformed(w, ids[i], env(ids[i]))
    ensures LastAuth(w, ids, initially, env) == initially
    decreases ids
  {
    hide AuthPerformed;
    if ids != [] {
      NoAuthBefore(w, ids[..|ids| - 1], initially, env);
    }
  }

  /** Whether a slot is valid after its step, if the carried status was c. */
  predicate Settled(w: World, id: SlotId, c: bool, o: Outcome)
    requires Known(w, id)
  {
    || !NeedsConnect(w, id, o)
    || (o.connect.Connected? && if w.endpoints[id].pass.Some? then o.auth else c)
  }

  lemma CommandStepEffect(w: World, id: SlotId, good: bool)
    requires Known(w, id)
    ensures var w1 := CommandStep(w, id, good);
      && w1.slots[id].valid == (w.slots[id].valid && good)
      && forall other :: other in w.slots && other != id ==> w1.slots[other] == w.slots[other]
  {}

  lemma ConnectStepEffect(w: World, id: SlotId, carried: bool, o: Outcome)
    requires Known(w, id)
    ensures var r := ConnectStep(w, id, carried, o);
      && (r.1 == if o.connect.Connected? && w.endpoints[id].pass.Some? then o.auth else carried)
      && (r.0.slots[id].valid == if o.connect.Connected? then r.1 else w.slots[id].valid)
      && forall other :: other in w.slots && other != id ==> r.0.slots[other] == w.slots[other]
  {}

  lemma HealthStepSettles(w: World, id: SlotId, carried: bool, o: Outcome)
    requires Known(w, id)
    ensures var r := HealthStep(w, id, carried, o);
      && r.0.slots[id].valid == Settled(w, id, carried, o)
      && (r.1 == if AuthPerformed(w, id, o) then o.auth else carried)
      && forall other :: other in w.slots && other != id ==> r.0.slots[other] == w.slots[other]
  {
    hide CommandStep, ConnectStep;
    CommandStepEffect(w, id, o.ping);
    ConnectStepEffect(CommandStep(w, id, o.ping), id, carried, o);
  }

  // ---------- Whatever the other threads do ----------

  /** The world when the pass takes the lock of slot k. */
  function AtLock(w: World, ids: seq<SlotId>, carried: bool,
      env: SlotId -> Outcome, others: SlotId -> seq<Action>, k: nat): (v: World)
    requires AllKnown(w, ids) && k < |ids|
    ensures v.endpoints == w.endpoints && v.slots.Keys == w.slots.Keys
  {
    Run(Pass(w, ids[..k], carried, env, others).0, others(ids[k]))
  }

  /** The outcome of the last AUTH the pass performed on the first n slots, or the status from before them. */
  function LastAuthBefore(w: World, ids: seq<SlotId>, carried: bool,
      env: SlotId -> Outcome, others: SlotId -> seq<Action>, n: nat): bool
    requires AllKnown(w, ids) && n <= |ids|
    decreases n
  {
    if n == 0 then carried
    else
      var id := ids[n - 1];
      if AuthPerformed(AtLock(w, ids, carried, env, others, n - 1), id, env(id)) then env(id).auth
      else LastAuthBefore(w, ids, carried, env, others, n - 1)
  }

  lemma {:induction false} PassCarries(w: World, ids: seq<SlotId>, carried: bool,
      env: SlotId -> Outcome, others: SlotId -> seq<Action>, n: nat)
    requires AllKnown(w, ids) && n <= |ids|
    ensures Pass(w, ids[..n], carried, env, others).1 == LastAuthBefore(w, ids, carried, env, others, n)
    decreases n
  {
    hide HealthStep, Run, AuthPerformed;
    if n > 0 {
      var id, v := ids[n - 1], AtLock(w, ids, carried, env, others, n - 1);
      assert ids[..n] == ids[..n - 1] + [id];
      PassCarries(w, ids, carried, env, others, n - 1);
      PassOneMore(w, ids[..n - 1], id, carried, env, others);
      HealthStepSettles(v, id, Pass(w, ids[..n - 1], carried, env, others).1, env(id));
    }
  }

  /** In every interleaving, when the pass releases the lock of slot k the slot is valid if it was at the lock
      and answered PING; else exactly if it connected and, with a password, its own AUTH succeeded, or,
      without one, the last AUTH the pass performed before it did. */
  lemma PassSettlesAtRelease(w: World, ids: seq<SlotId>, carried: bool,
      env: SlotId -> Outcome, others: SlotId -> seq<Action>, k: nat)
    requires AllKnown(w, ids) && k < |ids|
    ensures Pass(w, ids[..k + 1], carried, env, others).0.slots[ids[k]].valid
        == Settled(AtLock(w, ids, carried, env, others, k), ids[k],
                   LastAuthBefore(w, ids, carried, env, others, k), env(ids[k]))
  {
    hide HealthStep, Run, AuthPerformed, LastAuthBefore, Pass, Settled;
    var v := AtLock(w, ids, carried, env, others, k);
    assert ids[..k + 1] == ids[..k] + [ids[k]];
    PassOneMore(w, ids[..k], ids[k], carried, env, others);
    PassCarries(w, ids, carried, env, others, k);
    HealthStepSettles(v, ids[k], LastAuthBefore(w, ids, carried, env, others, k), env(ids[k]));
  }

  /** Every AUTH the pass might perform succeeds. */
  ghost predicate AuthsSucceed(w: World, ids: seq<SlotId>, env: SlotId -> Outcome)
    requires AllKnown(w, ids)
  {
    forall j :: 0 <= j < |ids| && w.endpoints[ids[j]].pass.Some? ==> env(ids[j]).auth
  }

  /** In every interleaving, if every AUTH of a pass succeeds, a slot that can be connected is valid when the pass
      releases its lock. */
  lemma PassHealsAtRelease(w: World, ids: seq<SlotId>, env: SlotId -> Outcome, others: SlotId -> seq<Action>, k: nat)
    requires AllKnown(w, ids) && k < |ids|
    requires AuthsSucceed(w, ids, env) && env(ids[k]).connect.Connected?
    ensures Pass(w, ids[..k + 1], true, env, others).0.slots[ids[k]].valid
  {
    hide Pass, AtLock, LastAuthBefore;
    PassSettlesAtRelease(w, ids, true, env, others, k);
    NoAuthFails(w, ids, env, others, k);
  }

  lemma {:induction false} NoAuthFails(w: World, ids: seq<SlotId>,
      env: SlotId -> Outcome, others: SlotId -> seq<Action>, n: nat)
    requires AllKnown(w, ids) && n <= |ids| && AuthsSucceed(w, ids, env)
    ensures LastAuthBefore(w, ids, true, env, others, n)
    decreases n
  {
    hide AtLock;
    if n > 0 { NoAuthFails(w, ids, env, others, n - 1); }
  }

  // ---------- Without other threads: from the statuses before the pass ----------

  lemma CalmStep(w: World, id: SlotId)
    ensures Run(w, Calm()(id)) == w
  {}

  lemma {:induction false} PassLeavesOthers(w: World, ids: seq<SlotId>, carried: bool,
      env: SlotId -> Outcome, other: SlotId)
    requires AllKnown(w, ids) && Known(w, other) && other !in ids
    ensures Pass(w, ids, carried, env, Calm()).0.slots[other] == w.slots[other]
    decreases ids
  {
    hide HealthStep, Run, Calm;
    if ids != [] {
      var r := HealthStep(w, ids[0], carried, env(ids[0]));
      CalmStep(w, ids[0]);
      HealthStepSettles(w, ids[0], carried, env(ids[0]));
      PassLeavesOthers(r.0, ids[1..], r.1, env, other);
    }
  }

  /** Two worlds that have the same of one slot. */
  predicate SameSlot(v: World, w: World, id: SlotId) {
    Known(v, id) && Known(w, id) && v.slots[id] == w.slots[id] && v.endpoints[id] == w.endpoints[id]
  }

  lemma SettledDependsOnSlot(v: World, w: World, id: SlotId, c: bool, o: Outcome)
    requires SameSlot(v, w, id)
    ensures Settled(v, id, c, o) == Settled(w, id, c, o) && AuthPerformed(v, id, o) == AuthPerformed(w, id, o)
  {}

  lemma {:induction false} LastAuthDependsOnSlots(v: World, w: World, ids: seq<SlotId>,
      initially: bool, env: SlotId -> Outcome)
    requires AllKnown(v, ids) && AllKnown(w, ids) && forall k :: 0 <= k < |ids| ==> SameSlot(v, w, ids[k])
    ensures LastAuth(v, ids, initially, env) == LastAuth(w, ids, initially, env)
    decreases ids
  {
    if ids != [] {
      LastAuthDependsOnSlots(v, w, ids[..|ids| - 1], initially, env);
    }
  }

  /** A pass without other threads finds each slot as it was before the pass. */
  lemma CalmAtLock(w: World, ids: seq<SlotId>, carried: bool, env: SlotId -> Outcome, k: nat)
    requires AllKnown(w, ids) && NoRepeats(ids) && k < |ids|
    ensures SameSlot(AtLock(w, ids, carried, env, Calm(), k), w, ids[k])
  {
    hide Pass, Run, Calm;
    CalmStep(Pass(w, ids[..k], carried, env, Calm()).0, ids[k]);
    PassLeavesOthers(w, ids[..k], carried, env, ids[k]);
  }

  /** The last AUTH of any pass is, for one without other threads, the last one by the slots before the pass. */
  lemma {:induction false} CalmLastAuth(w: World, ids: seq<SlotId>, carried: bool, env: SlotId -> Outcome, n: nat)
    requires AllKnown(w, ids) && NoRepeats(ids) && n <= |ids|
    ensures LastAuthBefore(w, ids, carried, env, Calm(), n) == LastAuth(w, ids[..n], carried, env)
    decreases n
  {
    hide AtLock, AuthPerformed;
    if n > 0 {
      assert ids[..n][..n - 1] == ids[..n - 1];
      CalmLastAuth(w, ids, carried, env, n - 1);
      CalmAtLock(w, ids, carried, env, n - 1);
      SettledDependsOnSlot(AtLock(w, ids, carried, env, Calm(), n - 1), w, ids[n - 1], carried, env(ids[n - 1]));
    }
  }

  /** After a pass without other threads slot k is valid if it was before the pass and answered PING; else exactly
      if it connected and, with a password, its own AUTH succeeded, or, without one, the last AUTH performed
      before it in the pass did. */
  lemma PassSettles(w: World, ids: seq<SlotId>, carried: bool, env: SlotId -> Outcome, k: nat)
    requires AllKnown(w, ids) && NoRepeats(ids) && k < |ids|
    ensures Pass(w, ids, carried, env, Calm()).0.slots[ids[k]].valid
        == Settled(w, ids[k], LastAuth(w, ids[..k], carried, env), env(ids[k]))
  {
    hide Pass, Settled, AuthPerformed, AtLock, LastAuth, LastAuthBefore, Calm;
    var id, c := ids[k], LastAuth(w, ids[..k], carried, env);
    PassSettlesAtRelease(w, ids, carried, env, Calm(), k);
    CalmLastAuth(w, ids, carried, env, k);
    CalmAtLock(w, ids, carried, env, k);
    SettledDependsOnSlot(AtLock(w, ids, carried, env, Calm(), k), w, id, c, env(id));
    var r := Pass(w, ids[..k + 1], carried, env, Calm());
    assert ids == ids[..k + 1] + ids[k + 1..];
    PassConcat(w, ids[..k + 1], ids[k + 1..], carried, env, Calm());
    PassLeavesOthers(r.0, ids[k + 1..], r.1, env, id);
  }

  /** If every AUTH of a pass succeeds and no other thread interferes, every slot that can be connected ends up
      valid, whatever the slots were before and whatever PING said. */
  lemma PassHeals(w: World, ids: seq<SlotId>, env: SlotId -> Outcome)
    requires AllKnown(w, ids) && NoRepeats(ids) && AuthsSucceed(w, ids, env)
    ensures forall k :: 0 <= k < |ids| && env(ids[k]).connect.Connected? ==>
      Pass(w, ids, true, env, Calm()).0.slots[ids[k]].valid
  {
    hide Pass, AuthsSucceed;
    forall k | 0 <= k < |ids| && env(ids[k]).connect.Connected?
      ensures Pass(w, ids, true, env, Calm()).0.slots[ids[k]].valid
    {
      PassSettles(w, ids, true, env, k);
      AuthsSucceedBefore(w, ids, env, k);
      LastAuthAllGood(w, ids[..k], env);
      AuthsSucceedAt(w, ids, env, k);
    }
  }

  lemma AuthsSucceedBefore(w: World, ids: seq<SlotId>, env: SlotId -> Outcome, k: nat)
    requires AllKnown(w, ids) && AuthsSucceed(w, ids, env) && k <= |ids|
    ensures AuthsSucceed(w, ids[..k], env)
  {}

  lemma AuthsSucceedAt(w: World, ids: seq<SlotId>, env: SlotId -> Outcome, k: nat)
    requires AllKnown(w, ids) && AuthsSucceed(w, ids, env) && k < |ids|
    ensures w.endpoints[ids[k]].pass.Some? ==> env(ids[k]).auth
  {}

  lemma {:induction false} LastAuthAllGood(w: World, ids: seq<SlotId>, env: SlotId -> Outcome)
    requires AllKnown(w, ids) && AuthsSucceed(w, ids, env)
    ensures LastAuth(w, ids, true, env)
    decreases ids
  {
    if ids != [] {
      LastAuthAllGood(w, ids[..|ids| - 1], env);
    }
  }

  // ---------- Connecting slots for the first time ----------

  /** Each slot is as the first pass over empty slots leaves it: valid exactly if it connected and, with a
      password, its own AUTH succeeded, or, without one, the last AUTH performed before it in the pass did. */
  ghost predicate FirstConnected(w: World, ids: seq<SlotId>, env: SlotId -> Outcome) {
    AllKnown(w, ids) && AllKnown(Initial(w.endpoints), ids) && forall k :: 0 <= k < |ids| ==>
      w.slots[ids[k]].valid == (env(ids[k]).connect.Connected? &&
        if w.endpoints[ids[k]].pass.Some? then env(ids[k]).auth
        else LastAuth(Initial(w.endpoints), ids[..k], true, env))
  }

  lemma FirstPassConnects(w: World, ids: seq<SlotId>, env: SlotId -> Outcome)
    requires AllKnown(w, ids) && NoRepeats(ids)
    requires forall k :: 0 <= k < |ids| ==> w.slots[ids[k]] == Slot(false, None)
    ensures FirstConnected(Pass(w, ids, true, env, Calm()).0, ids, env)
  {
    hide Pass, Calm, LastAuth;
    var empty := Initial(w.endpoints);
    forall k | 0 <= k < |ids|
      ensures Pass(w, ids, true, env, Calm()).0.slots[ids[k]].valid
           == Settled(w, ids[k], LastAuth(empty, ids[..k], true, env), env(ids[k]))
    {
      PassSettles(w, ids, true, env, k);
      LastAuthDependsOnSlots(w, empty, ids[..k], true, env);
    }
  }

  /** What FirstConnected says depends on the slots in question and their endpoints alone. */
  lemma FirstConnectedKept(v: World, w: World, ids: seq<SlotId>, env: SlotId -> Outcome)
    requires FirstConnected(v, ids, env) && forall k :: 0 <= k < |ids| ==> SameSlot(v, w, ids[k])
    ensures FirstConnected(w, ids, env)
  {
    hide LastAuth;
    forall k | 0 <= k < |ids|
      ensures LastAuth(Initial(v.endpoints), ids[..k], true, env) == LastAuth(Initial(w.endpoints), ids[..k], true, env)
    {
      LastAuthDependsOnSlots(Initial(v.endpoints), Initial(w.endpoints), ids[..k], true, env);
    }
  }

  /** If every AUTH succeeds, exactly the slots that connected are valid. */
  lemma FirstConnectedIff(w: World, ids: seq<SlotId>, env: SlotId -> Outcome)
    requires FirstConnected(w, ids, env) && AuthsSucceed(w, ids, env)
    ensures forall k :: 0 <= k < |ids| ==> (w.slots[ids[k]].valid <==> env(ids[k]).connect.Connected?)
  {
    hide LastAuth;
    forall k | 0 <= k < |ids|
      ensures LastAuth(Initial(w.endpoints), ids[..k], true, env)
    {
      LastAuthAllGood(Initial(w.endpoints), ids[..k], env);
    }
  }

  /** A connected node without a password can still end up invalid: right after a node whose AUTH failed. */
  lemma FailedAuthSpoilsTheNextSlot()
    returns (w: World, ids: seq<SlotId>, env: SlotId -> Outcome)
    ensures Inv(w) && AllKnown(w, ids) && NoRepeats(ids) && |ids| == 2
    ensures env(ids[1]).connect.Connected? && w.endpoints[ids[1]].pass.None?
    ensures !Pass(w, ids, true, env, Calm()).0.slots[ids[1]].valid
  {
    var a, b := SlotId(LocalDc, 0, 0), SlotId(LocalDc, 0, 1);
    var locked, open := Endpoint("a", 1, Some("secret")), Endpoint("b", 1, None);
    w := Initial(map[a := locked, b := open]);
    ids := [a, b];
    env := (id: SlotId) => Outcome(true, Connected, false);
    PassSettles(w, ids, true, env, 1);
    assert ids[..1] == [a] && [a][..0] == [];
    assert AuthPerformed(w, a, env(a));
  }

  // ---------- One command, its attempts interleaved with everything else ----------

  /** The world just before attempt k, if none before it succeeded: others[k] is what the other threads do
      between the previous attempt and this one. */
  function WorldAt(w: World, ids: seq<SlotId>, good: nat -> bool, others: nat -> seq<Action>, k: nat): (w': World)
    requires AllKnown(w, ids) && k < |ids|
    ensures w'.endpoints == w.endpoints && w'.slots.Keys == w.slots.Keys
    decreases k, 0
  {
    if k == 0 then Run(w, others(0)) else Run(After(w, ids, good, others, k - 1), others(k))
  }

  /** The world when attempt k releases its lock. */
  function After(w: World, ids: seq<SlotId>, good: nat -> bool, others: nat -> seq<Action>, k: nat): (w': World)
    requires AllKnown(w, ids) && k < |ids|
    ensures w'.endpoints == w.endpoints && w'.slots.Keys == w.slots.Keys
    decreases k, 1
  {
    CommandStep(WorldAt(w, ids, good, others, k), ids[k], good(k))
  }

  /** The world when the last attempt released its lock. */
  function Reached(w: World, ids: seq<SlotId>, good: nat -> bool, others: nat -> seq<Action>): (w': World)
    requires AllKnown(w, ids)
    ensures w'.endpoints == w.endpoints && w'.slots.Keys == w.slots.Keys
  {
    if ids == [] then w else After(w, ids, good, others, |ids| - 1)
  }

  /** Attempt k finds a valid slot and gets a good reply. */
  predicate Succeeds(w: World, ids: seq<SlotId>, good: nat -> bool, others: nat -> seq<Action>, k: nat)
    requires AllKnown(w, ids) && k < |ids|
  {
    WorldAt(w, ids, good, others, k).slots[ids[k]].valid && good(k)
  }

  /** The retry loop from attempt k on: the world it ends in and the attempt that succeeded, if any. */
  function Retry(w: World, ids: seq<SlotId>, good: nat -> bool, others: nat -> seq<Action>, k: nat)
    : (World, Option<nat>)
    requires AllKnown(w, ids) && k < |ids|
    decreases |ids| - k
  {
    if Succeeds(w, ids, good, others, k) then (After(w, ids, good, others, k), Some(k))
    else if k + 1 == |ids| then (After(w, ids, good, others, k), None)
    else Retry(w, ids, good, others, k + 1)
  }

  /** An attempt that does not succeed leaves its slot invalid when it releases the lock. */
  lemma FailedAttemptLeavesInvalid(w: World, ids: seq<SlotId>, good: nat -> bool, others: nat -> seq<Action>, k: nat)
    requires AllKnown(w, ids) && k < |ids| && !Succeeds(w, ids, good, others, k)
    ensures !After(w, ids, good, others, k).slots[ids[k]].valid
  {
    hide WorldAt;
  }

  /** In every interleaving: success means the last attempt got its good reply from a valid slot and every
      earlier slot was invalid when its lock was released; failure means that of all of them. */
  lemma {:induction false} RetryOutcome(w: World, ids: seq<SlotId>, good: nat -> bool,
      others: nat -> seq<Action>, k: nat)
    requires AllKnown(w, ids) && k < |ids|
    requires forall j :: 0 <= j < k ==> !Succeeds(w, ids, good, others, j)
    ensures var r := Retry(w, ids, good, others, k).1;
      && (r.Some? ==> k <= r.value < |ids| && Succeeds(w, ids, good, others, r.value))
      && LeftInvalid(w, ids, good, others, if r.Some? then r.value else |ids|)
      && forall j :: 0 <= j < (if r.Some? then r.value else |ids|) ==> !Succeeds(w, ids, good, others, j)
    decreases |ids| - k
  {
    hide Succeeds, After, WorldAt;
    forall j | 0 <= j <= k && !Succeeds(w, ids, good, others, j)
      ensures !After(w, ids, good, others, j).slots[ids[j]].valid
    {
      FailedAttemptLeavesInvalid(w, ids, good, others, j);
    }
    if !Succeeds(w, ids, good, others, k) && k + 1 < |ids| {
      RetryOutcome(w, ids, good, others, k + 1);
    }
  }

  /** Each of the first n attempts left its slot invalid when it released the lock. */
  ghost predicate LeftInvalid(w: World, ids: seq<SlotId>, good: nat -> bool, others: nat -> seq<Action>, n: nat)
    requires AllKnown(w, ids) && n <= |ids|
  {
    forall j :: 0 <= j < n ==> !After(w, ids, good, others, j).slots[ids[j]].valid
  }

  /** No other thread does anything. */
  function Quiet(): nat -> seq<Action> {
    (k: nat) => []
  }

  lemma QuietWorldAt(w: World, ids: seq<SlotId>, good: nat -> bool, k: nat)
    requires AllKnown(w, ids) && 0 < k < |ids|
    ensures WorldAt(w, ids, good, Quiet(), k) == After(w, ids, good, Quiet(), k - 1)
  {
    hide After;
  }

  /** Without other threads, a slot an attempt left invalid stays so, and nothing else becomes valid. */
  lemma {:induction false} QuietKeepsInvalid(w: World, ids: seq<SlotId>, good: nat -> bool, j: nat, k: nat)
    requires AllKnown(w, ids) && j <= k < |ids|
    ensures forall id :: id in w.slots && !After(w, ids, good, Quiet(), j).slots[id].valid ==>
      !After(w, ids, good, Quiet(), k).slots[id].valid
    decreases k
  {
    hide After, WorldAt, CommandStep;
    if j < k {
      QuietKeepsInvalid(w, ids, good, j, k - 1);
      QuietWorldAt(w, ids, good, k);
      CommandNeverRevives(After(w, ids, good, Quiet(), k - 1), ids[k], good(k));
      AfterIs(w, ids, good, Quiet(), k);
    }
  }

  lemma QuietStart(w: World, ids: seq<SlotId>, good: nat -> bool)
    requires AllKnown(w, ids) && ids != []
    ensures WorldAt(w, ids, good, Quiet(), 0) == w
  {}

  lemma WorldAtIs(w: World, ids: seq<SlotId>, good: nat -> bool, others: nat -> seq<Action>, k: nat)
    requires AllKnown(w, ids) && k < |ids|
    ensures WorldAt(w, ids, good, others, k)
         == Run(if k == 0 then w else After(w, ids, good, others, k - 1), others(k))
  {
    hide After, Run;
  }

  lemma SucceedsIs(w: World, ids: seq<SlotId>, good: nat -> bool, others: nat -> seq<Action>, k: nat)
    requires AllKnown(w, ids) && k < |ids|
    ensures Succeeds(w, ids, good, others, k) == (WorldAt(w, ids, good, others, k).slots[ids[k]].valid && good(k))
  {
    hide WorldAt;
  }

  lemma AfterIs(w: World, ids: seq<SlotId>, good: nat -> bool, others: nat -> seq<Action>, k: nat)
    requires AllKnown(w, ids) && k < |ids|
    ensures After(w, ids, good, others, k) == CommandStep(WorldAt(w, ids, good, others, k), ids[k], good(k))
  {
    hide WorldAt, CommandStep;
  }

  lemma CommandNeverRevives(w: World, id: SlotId, good: bool)
    requires Known(w, id)
    ensures forall i :: i in w.slots && !w.slots[i].valid ==> !CommandStep(w, id, good).slots[i].valid
  {}

  /** A command that fails in a run without other threads leaves every slot it visited invalid. */
  lemma QuietFailureLeavesAllInvalid(w: World, ids: seq<SlotId>, good: nat -> bool)
    requires AllKnown(w, ids) && ids != [] && Retry(w, ids, good, Quiet(), 0).1.None?
    ensures forall j :: 0 <= j < |ids| ==> !After(w, ids, good, Quiet(), |ids| - 1).slots[ids[j]].valid
  {
    hide After, WorldAt, Succeeds, Retry;
    RetryOutcome(w, ids, good, Quiet(), 0);
    forall j | 0 <= j < |ids|
      ensures !After(w, ids, good, Quiet(), |ids| - 1).slots[ids[j]].valid
    {
      assert !Succeeds(w, ids, good, Quiet(), j);
      QuietKeepsInvalid(w, ids, good, j, |ids| - 1);
    }
  }

  /** What a loop with this result has gone through. */
  lemma RetryResult(w: World, ids: seq<SlotId>, good: nat -> bool, others: nat -> seq<Action>, end: World, ok: bool)
    requires AllKnown(w, ids) && ids != []
    requires Retry(w, ids, good, others, 0) == (end, if ok then Some(|ids| - 1) else None)
    ensures ok ==> Succeeds(w, ids, good, others, |ids| - 1)
    ensures LeftInvalid(w, ids, good, others, if ok then |ids| - 1 else |ids|)
    ensures !ok && others == Quiet() ==> forall id :: id in ids ==> Known(end, id) && !end.slots[id].valid
  {
    hide After, WorldAt, Succeeds, Retry, LeftInvalid;
    RetryOutcome(w, ids, good, others, 0);
    if !ok {
      RetryEnds(w, ids, good, others, 0, |ids| - 1);
      if others == Quiet() {
        QuietFailureLeavesAllInvalid(w, ids, good);
      }
    }
  }

  /** Without other threads, going back to a slot already tried never helps. */
  lemma QuietRepeatFails(w: World, ids: seq<SlotId>, good: nat -> bool, j: nat, k: nat)
    requires AllKnown(w, ids) && j < k < |ids| && ids[j] == ids[k]
    requires !Succeeds(w, ids, good, Quiet(), j)
    ensures !Succeeds(w, ids, good, Quiet(), k)
  {
    hide After, WorldAt, Succeeds;
    FailedAttemptLeavesInvalid(w, ids, good, Quiet(), j);
    QuietKeepsInvalid(w, ids, good, j, k - 1);
    QuietWorldAt(w, ids, good, k);
    SucceedsIs(w, ids, good, Quiet(), k);
  }

  /** A command whose first slot is valid, and answers well, ends there. */
  lemma ValidFirstSlotAnswers(w: World, ids: seq<SlotId>, good: nat -> bool)
    requires AllKnown(w, ids) && ids != [] && w.slots[ids[0]].valid && good(0)
    ensures Retry(w, ids, good, Quiet(), 0).1 == Some(0)
  {
    hide WorldAt, After;
    QuietStart(w, ids, good);
  }

  /** Interleaved or not, a command keeps the pool's invariant at every attempt. */
  lemma {:induction false} AttemptsKeepInv(w: World, ids: seq<SlotId>, good: nat -> bool,
      others: nat -> seq<Action>, k: nat)
    requires Inv(w) && AllKnown(w, ids) && k < |ids|
    ensures Inv(WorldAt(w, ids, good, others, k)) && Inv(After(w, ids, good, others, k))
    decreases k
  {
    hide Inv, CommandStep, Run;
    if k == 0 {
      EveryRunIsSafe(w, others(0));
    } else {
      AttemptsKeepInv(w, ids, good, others, k - 1);
      EveryRunIsSafe(After(w, ids, good, others, k - 1), others(k));
    }
    CommandStepKeepsInv(WorldAt(w, ids, good, others, k), ids[k], good(k));
  }

  lemma {:induction false} PrefixWorlds(w: World, ids: seq<SlotId>, more: seq<SlotId>, good: nat -> bool,
      others: nat -> seq<Action>, k: nat)
    requires AllKnown(w, ids) && AllKnown(w, ids + more) && k < |ids|
    ensures WorldAt(w, ids + more, good, others, k) == WorldAt(w, ids, good, others, k)
    ensures After(w, ids + more, good, others, k) == After(w, ids, good, others, k)
    ensures Succeeds(w, ids + more, good, others, k) == Succeeds(w, ids, good, others, k)
    decreases k
  {
    hide *;
    if k > 0 { PrefixWorlds(w, ids, more, good, others, k - 1); }
    WorldAtIs(w, ids, good, others, k); WorldAtIs(w, ids + more, good, others, k);
    AfterIs(w, ids, good, others, k); AfterIs(w, ids + more, good, others, k);
    SucceedsIs(w, ids, good, others, k); SucceedsIs(w, ids + more, good, others, k);
  }

  /** The loop ends at the first attempt that succeeds, or after the last one. */
  lemma {:induction false} RetryEnds(w: World, ids: seq<SlotId>, good: nat -> bool, others: nat -> seq<Action>,
      k: nat, last: nat)
    requires AllKnown(w, ids) && k <= last < |ids|
    requires forall j :: k <= j < last ==> !Succeeds(w, ids, good, others, j)
    ensures Succeeds(w, ids, good, others, last) ==>
      Retry(w, ids, good, others, k) == (After(w, ids, good, others, last), Some(last))
    ensures !Succeeds(w, ids, good, others, last) && last + 1 == |ids| ==>
      Retry(w, ids, good, others, k) == (After(w, ids, good, others, last), None)
    decreases last - k
  {
    hide Succeeds, After;
    if k < last { RetryEnds(w, ids, good, others, k + 1, last); }
  }
}
