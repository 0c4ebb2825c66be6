/** The registry with its pool objects: routes, and goroutines between their steps, hold pointers to
    pools that they found earlier.  The names in `Hooks` stand for those pointers: in every reachable
    state each of them is the registry's current pool of its host. */
module Handles {
  import opened Registry
  import opened Hooks
  import opened Runs

  /** A pool object is a handle, a position in `members`. */
  datatype Server = Server(
    rest: State,                      // all but the pools: its own `pools` is empty
    byName: map<string, nat>,         // the registry's map of pools
    members: seq<seq<ClientTunnel>>,  // what each pool object holds
    routes: map<string, nat>,         // the pool in the routes of each host
    authPool: map<nat, nat>,          // the variable `pool` of authenticateConnect, of Register
    regPool: map<string, nat>,        // and of SetLocalHealth
    healthPool: map<nat, nat>)

  function MembersOf(sv: Server, h: nat): seq<ClientTunnel> {
    if h < |sv.members| then sv.members[h] else []
  }

  function Current(sv: Server): Pools {
    map k | k in sv.byName :: MembersOf(sv, sv.byName[k])
  }

  /** The state as `Hooks` has it. */
  function Named(sv: Server): State {
    sv.rest.(pools := Current(sv))
  }

  /** The state as a goroutine has it that holds one pool of one host. */
  function Behind(sv: Server, sub: string, h: nat): State {
    sv.rest.(pools := map[sub := MembersOf(sv, h)])
  }

  /** Steps that look a pool up in the registry's map. */
  predicate LooksUp(act: Action) {
    act.AuthFindPool? || act.RegLock? || act.HealthFindPool? || act.DiscRemove?
  }

  /** Steps that use the pool found before. */
  predicate UsesHeld(act: Action) {
    act.AuthFindClient? || act.AuthCount? || act.RegDrop? || act.RegAdd? || act.HealthFindClient?
  }

  /** The host whose pool a step is about. */
  function HostOf(c: Bindings, st: State, act: Action): string
    requires Enabled(c, st, act) && (LooksUp(act) || UsesHeld(act))
  {
    match act
    case AuthFindPool(a) => c[st.auths[a].client].subdomain
    case AuthFindClient(a) => c[st.auths[a].client].subdomain
    case AuthCount(a) => c[st.auths[a].client].subdomain
    case RegLock(s) => st.regs[s].tunnel.subdomain
    case RegDrop(s) => st.regs[s].tunnel.subdomain
    case RegAdd(s) => st.regs[s].tunnel.subdomain
    case DiscRemove(d) => st.discs[d].pc.victim.subdomain
    case HealthFindPool(h) => st.healths[h].subdomain
    case HealthFindClient(h) => st.healths[h].subdomain
  }

  /** The pointer that the goroutine holds; a position beyond all pools for none. */
  function Held(sv: Server, act: Action): nat
    requires UsesHeld(act)
  {
    if act.AuthFindClient? || act.AuthCount? then (if act.a in sv.authPool then sv.authPool[act.a] else |sv.members|)
    else if act.RegDrop? || act.RegAdd? then (if act.s in sv.regPool then sv.regPool[act.s] else |sv.members|)
    else if act.h in sv.healthPool then sv.healthPool[act.h]
    else |sv.members|
  }

  /** A step on the pool with handle h, which it may change. */
  function OnPool(c: Bindings, sv: Server, act: Action, sub: string, h: nat): Server
    requires Enabled(c, sv.rest, act)
  {
    var next := Apply(c, Behind(sv, sub, h), act);
    var ms := if sub in next.pools then next.pools[sub] else [];
    sv.(rest := next.(pools := map[]), members := if h < |sv.members| then sv.members[h := ms] else sv.members)
  }

  /** The goroutine keeps the pool that it has looked up. */
  function Keep(sv: Server, act: Action, h: nat): Server {
    match act
    case AuthFindPool(a) => sv.(authPool := sv.authPool[a := h])
    case RegLock(s) => sv.(regPool := sv.regPool[s := h])
    case HealthFindPool(n) => sv.(healthPool := sv.healthPool[n := h])
    case _ => sv
  }

  function Step(c: Bindings, sv: Server, act: Action): Server
    requires Enabled(c, sv.rest, act)
  {
    if UsesHeld(act) then OnPool(c, sv, act, HostOf(c, sv.rest, act), Held(sv, act))
    else if LooksUp(act) then
      var sub := HostOf(c, sv.rest, act);
      if sub in sv.byName then Keep(OnPool(c, sv, act, sub, sv.byName[sub]), act, sv.byName[sub])
      else if act.RegLock? then Create(c, sv, act.s)
      else sv.(rest := Apply(c, sv.rest, act).(pools := map[]))
    else sv.(rest := Apply(c, sv.rest, act).(pools := map[]))
  }

  /** Register finds no pool and puts a new one into the map. */
  function Create(c: Bindings, sv: Server, s: string): Server
    requires Enabled(c, sv.rest, RegLock(s))
  {
    var h := |sv.members|;
    sv.(rest := Apply(c, sv.rest, RegLock(s)).(pools := map[]),
        byName := sv.byName[sv.rest.regs[s].tunnel.subdomain := h],
        members := sv.members + [[]],
        regPool := sv.regPool[s := h])
  }

  predicate LeadsTo(c: Bindings, sv: Server, acts: seq<Action>, sv': Server)
    decreases |acts|
  {
    if acts == [] then sv' == sv
    else Enabled(c, sv.rest, acts[0]) && LeadsTo(c, Step(c, sv, acts[0]), acts[1..], sv')
  }

  // ---- No pointer is stale

  ghost predicate NamesOk(byName: map<string, nat>, n: nat) {
    && (forall k :: k in byName ==> byName[k] < n)
    && (forall j, k :: j in byName && k in byName && byName[j] == byName[k] ==> j == k)
  }

  predicate Points(byName: map<string, nat>, k: string, h: nat) {
    k in byName && byName[k] == h
  }

  ghost predicate RoutesHeld(byName: map<string, nat>, routes: map<string, nat>) {
    forall k :: k in routes ==> Points(byName, k, routes[k])
  }

  ghost predicate AuthsHeld(c: Bindings, byName: map<string, nat>, auths: map<nat, Auth>, held: map<nat, nat>) {
    forall a :: a in auths && (auths[a].pc == FindClient || auths[a].pc == CountMembers) ==>
      auths[a].client in c && a in held && Points(byName, c[auths[a].client].subdomain, held[a])
  }

  ghost predicate RegsHeld(byName: map<string, nat>, regs: Regs, held: map<string, nat>) {
    forall s :: s in regs && Critical(regs[s].pc) ==>
      s in held && Points(byName, regs[s].tunnel.subdomain, held[s])
  }

  ghost predicate HealthsHeld(byName: map<string, nat>, healths: map<nat, Health>, held: map<nat, nat>) {
    forall h :: h in healths && healths[h].pc == HealthClient ==>
      h in held && Points(byName, healths[h].subdomain, held[h])
  }

  ghost predicate NothingStale(c: Bindings, sv: Server) {
    && sv.rest.pools == map[]
    && NamesOk(sv.byName, |sv.members|)
    && RoutesHeld(sv.byName, sv.routes)
    && AuthsHeld(c, sv.byName, sv.rest.auths, sv.authPool)
    && RegsHeld(sv.byName, sv.rest.regs, sv.regPool)
    && HealthsHeld(sv.byName, sv.rest.healths, sv.healthPool)
  }

  /** The server after it has compiled its routes. */
  ghost predicate Compiled(sv: Server) {
    && Initial(Named(sv)) && sv.rest.pools == map[]
    && NamesOk(sv.byName, |sv.members|) && RoutesHeld(sv.byName, sv.routes)
  }

  // ---- A step sees of the pools only the one it is about

  lemma PoolFree(c: Bindings, st: State, act: Action, pools: Pools)
    requires Enabled(c, st, act) && !LooksUp(act) && !UsesHeld(act)
    ensures Apply(c, st.(pools := pools), act) == Apply(c, st, act).(pools := pools)
  {
    if IsReg(act) {
      PoolFreeReg(c, st, act, pools);
    } else if IsDisc(act) {
      PoolFreeDisc(c, st, act, pools);
    }
  }

  lemma PoolFreeReg(c: Bindings, st: State, act: Action, pools: Pools)
    requires Enabled(c, st, act) && IsReg(act) && !LooksUp(act) && !UsesHeld(act)
    ensures Apply(c, st.(pools := pools), act) == Apply(c, st, act).(pools := pools)
  {}

  lemma PoolFreeDisc(c: Bindings, st: State, act: Action, pools: Pools)
    requires Enabled(c, st, act) && IsDisc(act) && !LooksUp(act)
    ensures Apply(c, st.(pools := pools), act) == Apply(c, st, act).(pools := pools)
  {
    if act.DiscLock? {
      PoolFreeLock(c, st, act.d, pools);
    }
  }

  lemma PoolFreeLock(c: Bindings, st: State, d: nat, pools: Pools)
    requires Enabled(c, st, DiscLock(d))
    ensures Apply(c, st.(pools := pools), DiscLock(d)) == Apply(c, st, DiscLock(d)).(pools := pools)
  {
    LockOutcome(c, st, d);
    LockOutcome(c, st.(pools := pools), d);
    if st.discs[d].session in st.bySess {
      TakeOutIsPoolFree(st, d, pools);
    } else {
      NothingToDoIsPoolFree(st, d, pools);
    }
  }

  lemma LockOutcome(c: Bindings, st: State, d: nat)
    requires Enabled(c, st, DiscLock(d))
    ensures Apply(c, st, DiscLock(d))
            == if st.discs[d].session in st.bySess then TakeOut(st, d) else NothingToDo(st, d)
  {}

  lemma TakeOutIsPoolFree(st: State, d: nat, pools: Pools)
    requires d in st.discs && st.discs[d].session in st.bySess
    ensures TakeOut(st.(pools := pools), d) == TakeOut(st, d).(pools := pools)
  {}

  lemma NothingToDoIsPoolFree(st: State, d: nat, pools: Pools)
    requires d in st.discs
    ensures NothingToDo(st.(pools := pools), d) == NothingToDo(st, d).(pools := pools)
  {}

  /** A step on another map of pools that agrees on the host it is about. */
  ghost predicate SameOn(sub: string, a: Pools, b: Pools) {
    (sub in a <==> sub in b) && (sub in a ==> a[sub] == b[sub])
  }

  /** Both do the same, and change no pool but the one. */
  ghost predicate LocalOn(sub: string, st: State, here: State, there: State) {
    && there.(pools := map[]) == here.(pools := map[])
    && SameOn(sub, here.pools, there.pools)
    && here.pools == if sub in here.pools then st.pools[sub := here.pools[sub]] else st.pools
  }

  lemma Local(c: Bindings, st: State, act: Action, pools: Pools)
    requires Enabled(c, st, act) && (LooksUp(act) || UsesHeld(act))
    requires SameOn(HostOf(c, st, act), st.pools, pools)
    ensures LocalOn(HostOf(c, st, act), st, Apply(c, st, act), Apply(c, st.(pools := pools), act))
  {
    match act
    case AuthFindPool(a) => LocalAuth(c, st, act, pools);
    case AuthFindClient(a) => LocalAuth(c, st, act, pools);
    case AuthCount(a) => LocalAuth(c, st, act, pools);
    case RegLock(s) => LocalLock(c, st, s, pools);
    case RegDrop(s) => LocalDrop(c, st, s, pools);
    case RegAdd(s) => LocalAdd(c, st, s, pools);
    case DiscRemove(d) => LocalRemove(c, st, d, pools);
    case HealthFindPool(h) => LocalHealth(c, st, act, pools);
    case HealthFindClient(h) => LocalHealth(c, st, act, pools);
  }

  lemma LocalAuth(c: Bindings, st: State, act: Action, pools: Pools)
    requires Enabled(c, st, act) && (act.AuthFindPool? || act.AuthFindClient? || act.AuthCount?)
    requires SameOn(HostOf(c, st, act), st.pools, pools)
    ensures LocalOn(HostOf(c, st, act), st, Apply(c, st, act), Apply(c, st.(pools := pools), act))
  {}

  lemma LocalHealth(c: Bindings, st: State, act: Action, pools: Pools)
    requires Enabled(c, st, act) && (act.HealthFindPool? || act.HealthFindClient?)
    requires SameOn(HostOf(c, st, act), st.pools, pools)
    ensures LocalOn(HostOf(c, st, act), st, Apply(c, st, act), Apply(c, st.(pools := pools), act))
  {}

  lemma LocalLock(c: Bindings, st: State, s: string, pools: Pools)
    requires Enabled(c, st, RegLock(s))
    requires SameOn(HostOf(c, st, RegLock(s)), st.pools, pools)
    ensures LocalOn(HostOf(c, st, RegLock(s)), st, Apply(c, st, RegLock(s)), Apply(c, st.(pools := pools), RegLock(s)))
  {}

  lemma LocalDrop(c: Bindings, st: State, s: string, pools: Pools)
    requires Enabled(c, st, RegDrop(s))
    requires SameOn(HostOf(c, st, RegDrop(s)), st.pools, pools)
    ensures LocalOn(HostOf(c, st, RegDrop(s)), st, Apply(c, st, RegDrop(s)), Apply(c, st.(pools := pools), RegDrop(s)))
  {}

  lemma LocalAdd(c: Bindings, st: State, s: string, pools: Pools)
    requires Enabled(c, st, RegAdd(s))
    requires SameOn(HostOf(c, st, RegAdd(s)), st.pools, pools)
    ensures LocalOn(HostOf(c, st, RegAdd(s)), st, Apply(c, st, RegAdd(s)), Apply(c, st.(pools := pools), RegAdd(s)))
  {
    var there, t := st.(pools := pools), st.regs[s].tunnel;
    assert PoolIn(there, t.subdomain) == PoolIn(st, t.subdomain);
    assert Apply(c, st, RegAdd(s)) == AddStep(c, st, s) && Apply(c, there, RegAdd(s)) == AddStep(c, there, s);
    LocalOutcome(c, st, s, there);
  }

  lemma LocalOutcome(c: Bindings, st: State, s: string, there: State)
    requires RegAt(st, s, Dropped) && st.regs[s].tunnel.id in c
    requires there == st.(pools := there.pools) && SameOn(st.regs[s].tunnel.subdomain, st.pools, there.pools)
    ensures LocalOn(st.regs[s].tunnel.subdomain, st, AddStep(c, st, s), AddStep(c, there, s))
  {
    var t := st.regs[s].tunnel;
    if HasId(PoolIn(st, t.subdomain), t.id) {
      LocalSupersede(st, s, there);
    } else if |PoolIn(st, t.subdomain)| < c[t.id].maxClients {
      LocalAppend(st, s, there);
    }
  }

  lemma LocalSupersede(st: State, s: string, there: State)
    requires s in st.regs && HasId(PoolIn(st, st.regs[s].tunnel.subdomain), st.regs[s].tunnel.id)
    requires there == st.(pools := there.pools) && SameOn(st.regs[s].tunnel.subdomain, st.pools, there.pools)
    ensures LocalOn(st.regs[s].tunnel.subdomain, st, Supersede(st, s), Supersede(there, s))
  {}

  lemma LocalAppend(st: State, s: string, there: State)
    requires s in st.regs
    requires there == st.(pools := there.pools) && SameOn(st.regs[s].tunnel.subdomain, st.pools, there.pools)
    ensures LocalOn(st.regs[s].tunnel.subdomain, st, Append(st, s), Append(there, s))
  {}

  lemma LocalRemove(c: Bindings, st: State, d: nat, pools: Pools)
    requires Enabled(c, st, DiscRemove(d))
    requires SameOn(HostOf(c, st, DiscRemove(d)), st.pools, pools)
    ensures LocalOn(HostOf(c, st, DiscRemove(d)), st,
      Apply(c, st, DiscRemove(d)), Apply(c, st.(pools := pools), DiscRemove(d)))
  {}

  // ---- Every step is the step of `Hooks`

  lemma HeldIsCurrent(c: Bindings, sv: Server, act: Action)
    requires NothingStale(c, sv) && Enabled(c, sv.rest, act) && UsesHeld(act)
    ensures Points(sv.byName, HostOf(c, sv.rest, act), Held(sv, act))
  {}

  lemma EnabledEither(c: Bindings, st: State, act: Action, pools: Pools)
    requires Enabled(c, st, act)
    ensures Enabled(c, st.(pools := pools), act)
    ensures LooksUp(act) || UsesHeld(act) ==> HostOf(c, st.(pools := pools), act) == HostOf(c, st, act)
  {}

  lemma CurrentAfter(sv: Server, sub: string, h: nat, ms: seq<ClientTunnel>)
    requires NamesOk(sv.byName, |sv.members|) && Points(sv.byName, sub, h)
    ensures Current(sv.(members := sv.members[h := ms])) == Current(sv)[sub := ms]
  {}

  /** Writing the one pool back gives the state that the step on all pools gives. */
  lemma PutBack(sv: Server, sub: string, h: nat, here: State, there: State)
    requires NamesOk(sv.byName, |sv.members|) && Points(sv.byName, sub, h)
    requires LocalOn(sub, Named(sv), here, there)
    ensures sub in there.pools
    ensures Named(sv.(rest := there.(pools := map[]), members := sv.members[h := there.pools[sub]])) == here
  {
    CurrentAfter(sv, sub, h, there.pools[sub]);
    SameState(here, there, here.pools);
  }

  /** A step on a pool that is the current one is the step on the current pools. */
  lemma OnCurrentPool(c: Bindings, sv: Server, act: Action, sub: string, h: nat)
    requires sv.rest.pools == map[] && NamesOk(sv.byName, |sv.members|) && Points(sv.byName, sub, h)
    requires Enabled(c, sv.rest, act) && (LooksUp(act) || UsesHeld(act)) && sub == HostOf(c, sv.rest, act)
    ensures Enabled(c, Named(sv), act) && Named(OnPool(c, sv, act, sub, h)) == Apply(c, Named(sv), act)
    ensures OnPool(c, sv, act, sub, h).byName == sv.byName
    ensures |OnPool(c, sv, act, sub, h).members| == |sv.members|
  {
    EnabledEither(c, sv.rest, act, Current(sv));
    LocalBehind(c, sv, act, sub, h);
    PutBack(sv, sub, h, Apply(c, Named(sv), act), Apply(c, Behind(sv, sub, h), act));
  }

  lemma LocalBehind(c: Bindings, sv: Server, act: Action, sub: string, h: nat)
    requires sv.rest.pools == map[] && Points(sv.byName, sub, h)
    requires Enabled(c, sv.rest, act) && (LooksUp(act) || UsesHeld(act)) && sub == HostOf(c, sv.rest, act)
    ensures Enabled(c, Named(sv), act) && Enabled(c, Behind(sv, sub, h), act)
    ensures LocalOn(sub, Named(sv), Apply(c, Named(sv), act), Apply(c, Behind(sv, sub, h), act))
  {
    var seen := map[sub := MembersOf(sv, h)];
    EnabledEither(c, sv.rest, act, Current(sv));
    assert Named(sv).(pools := seen) == Behind(sv, sub, h);
    Local(c, Named(sv), act, seen);
  }

  lemma SameState(here: State, there: State, pools: Pools)
    requires there.(pools := map[]) == here.(pools := map[])
    ensures there.(pools := map[]).(pools := pools) == here.(pools := pools)
  {}

  lemma CurrentWithNew(sv: Server, sub: string)
    requires sub !in sv.byName && NamesOk(sv.byName, |sv.members|)
    ensures Current(sv.(byName := sv.byName[sub := |sv.members|], members := sv.members + [[]]))
            == Current(sv)[sub := []]
    ensures NamesOk(sv.byName[sub := |sv.members|], |sv.members + [[]]|)
  {}

  lemma AddPool(sv: Server, sub: string, here: State, there: State, regPool: map<string, nat>)
    requires sub !in sv.byName && NamesOk(sv.byName, |sv.members|)
    requires LocalOn(sub, Named(sv), here, there) && here.pools == Current(sv)[sub := []]
    ensures Named(sv.(rest := there.(pools := map[]), byName := sv.byName[sub := |sv.members|],
                     members := sv.members + [[]], regPool := regPool)) == here
  {
    var named := sv.(byName := sv.byName[sub := |sv.members|], members := sv.members + [[]]);
    var last := named.(rest := there.(pools := map[]), regPool := regPool);
    CurrentWithNew(sv, sub);
    assert Current(last) == Current(named);
    SameState(here, there, here.pools);
  }

  lemma LocalFromNothing(c: Bindings, sv: Server, act: Action)
    requires sv.rest.pools == map[] && Enabled(c, sv.rest, act) && LooksUp(act)
    requires HostOf(c, sv.rest, act) !in sv.byName
    ensures Enabled(c, Named(sv), act)
    ensures LocalOn(HostOf(c, sv.rest, act), Named(sv), Apply(c, Named(sv), act), Apply(c, sv.rest, act))
    ensures Apply(c, Named(sv), act).pools == PoolsAfter(c, Named(sv), act)
  {
    EnabledEither(c, sv.rest, act, Current(sv));
    assert Named(sv).(pools := map[]) == sv.rest;
    Local(c, Named(sv), act, map[]);
    StepEffect(c, Named(sv), act);
  }

  lemma CreatedIsNew(c: Bindings, sv: Server, s: string)
    requires sv.rest.pools == map[] && NamesOk(sv.byName, |sv.members|)
    requires Enabled(c, sv.rest, RegLock(s)) && sv.rest.regs[s].tunnel.subdomain !in sv.byName
    ensures Enabled(c, Named(sv), RegLock(s)) && Named(Create(c, sv, s)) == Apply(c, Named(sv), RegLock(s))
    ensures NamesOk(Create(c, sv, s).byName, |Create(c, sv, s).members|)
  {
    CurrentWithNew(sv, sv.rest.regs[s].tunnel.subdomain);
    LocalFromNothing(c, sv, RegLock(s));
    AddPool(sv, sv.rest.regs[s].tunnel.subdomain, Apply(c, Named(sv), RegLock(s)), Apply(c, sv.rest, RegLock(s)),
      sv.regPool[s := |sv.members|]);
  }

  /** Steps that need no pool, or find none. */
  lemma WithoutPool(c: Bindings, sv: Server, act: Action)
    requires sv.rest.pools == map[] && Enabled(c, sv.rest, act) && !UsesHeld(act) && !act.RegLock?
    requires LooksUp(act) ==> HostOf(c, sv.rest, act) !in sv.byName
    ensures Enabled(c, Named(sv), act)
    ensures Named(sv.(rest := Apply(c, sv.rest, act).(pools := map[]))) == Apply(c, Named(sv), act)
  {
    var st := Named(sv);
    assert st.(pools := map[]) == sv.rest;
    EnabledEither(c, sv.rest, act, Current(sv));
    if LooksUp(act) {
      Local(c, st, act, map[]);
    } else {
      PoolFree(c, st, act, map[]);
    }
    StepEffect(c, st, act);
    SameState(Apply(c, st, act), Apply(c, sv.rest, act), Current(sv));
  }

  lemma KeepIsUnseen(sv: Server, act: Action, h: nat)
    ensures Named(Keep(sv, act, h)) == Named(sv)
    ensures Keep(sv, act, h).byName == sv.byName && Keep(sv, act, h).members == sv.members
    ensures Keep(sv, act, h).routes == sv.routes && Keep(sv, act, h).rest == sv.rest
  {}

  lemma StepWithPool(c: Bindings, sv: Server, act: Action, sub: string, h: nat)
    requires sv.rest.pools == map[] && NamesOk(sv.byName, |sv.members|) && Points(sv.byName, sub, h)
    requires Enabled(c, sv.rest, act) && (LooksUp(act) || UsesHeld(act)) && sub == HostOf(c, sv.rest, act)
    requires UsesHeld(act) ==> h == Held(sv, act)
    ensures Enabled(c, Named(sv), act) && Named(Step(c, sv, act)) == Apply(c, Named(sv), act)
    ensures Step(c, sv, act).byName == sv.byName && |Step(c, sv, act).members| == |sv.members|
  {
    OnCurrentPool(c, sv, act, sub, h);
    KeepIsUnseen(OnPool(c, sv, act, sub, h), act, h);
    var next := Step(c, sv, act);
    assert next == if UsesHeld(act) then OnPool(c, sv, act, sub, h) else Keep(OnPool(c, sv, act, sub, h), act, h);
  }

  lemma StepWithoutPool(c: Bindings, sv: Server, act: Action)
    requires sv.rest.pools == map[] && NamesOk(sv.byName, |sv.members|) && Enabled(c, sv.rest, act)
    requires !UsesHeld(act) && (LooksUp(act) ==> HostOf(c, sv.rest, act) !in sv.byName)
    ensures Enabled(c, Named(sv), act) && Named(Step(c, sv, act)) == Apply(c, Named(sv), act)
    ensures NamesOk(Step(c, sv, act).byName, |Step(c, sv, act).members|)
  {
    if act.RegLock? {
      CreatedIsNew(c, sv, act.s);
      assert Step(c, sv, act) == Create(c, sv, act.s);
    } else {
      WithoutPool(c, sv, act);
      assert Step(c, sv, act) == sv.(rest := Apply(c, sv.rest, act).(pools := map[]));
    }
  }

  lemma StepSimulates(c: Bindings, sv: Server, act: Action)
    requires NothingStale(c, sv) && Enabled(c, sv.rest, act)
    ensures Enabled(c, Named(sv), act) && Named(Step(c, sv, act)) == Apply(c, Named(sv), act)
    ensures NamesOk(Step(c, sv, act).byName, |Step(c, sv, act).members|)
  {
    if UsesHeld(act) {
      HeldIsCurrent(c, sv, act);
      StepWithPool(c, sv, act, HostOf(c, sv.rest, act), Held(sv, act));
    } else if LooksUp(act) && HostOf(c, sv.rest, act) in sv.byName {
      StepWithPool(c, sv, act, HostOf(c, sv.rest, act), sv.byName[HostOf(c, sv.rest, act)]);
    } else {
      StepWithoutPool(c, sv, act);
    }
  }

  // ---- And keeps every pointer current

  /** The registry's map only gains entries. */
  ghost predicate Extends(byName: map<string, nat>, byName': map<string, nat>) {
    forall k :: k in byName ==> Points(byName', k, byName[k])
  }

  predicate Using(pc: AuthPc) {
    pc == FindClient || pc == CountMembers
  }

  /** Which goroutines use a pool after a step: those that did, and the one that has just found
      it. */
  ghost predicate AuthUsers(c: Bindings, st: State, act: Action, auths: map<nat, Auth>) {
    forall a :: a in auths && Using(auths[a].pc) ==>
      && a in st.auths && st.auths[a].client == auths[a].client
      && if Using(st.auths[a].pc) then act != AuthFindPool(a)
         else act == AuthFindPool(a) && auths[a].client in c && c[auths[a].client].subdomain in st.pools
  }

  ghost predicate RegUsers(st: State, act: Action, regs: Regs) {
    forall s :: s in regs && Critical(regs[s].pc) ==>
      && s in st.regs && st.regs[s].tunnel == regs[s].tunnel
      && if Critical(st.regs[s].pc) then act != RegLock(s) else act == RegLock(s)
  }

  ghost predicate HealthUsers(st: State, act: Action, healths: map<nat, Health>) {
    forall h :: h in healths && healths[h].pc == HealthClient ==>
      && h in st.healths && st.healths[h].subdomain == healths[h].subdomain
      && if st.healths[h].pc == HealthClient then act != HealthFindPool(h)
         else act == HealthFindPool(h) && healths[h].subdomain in st.pools
  }

  ghost predicate Users(c: Bindings, st: State, act: Action, st': State) {
    AuthUsers(c, st, act, st'.auths) && RegUsers(st, act, st'.regs) && HealthUsers(st, act, st'.healths)
  }

  lemma UsersOfReg(c: Bindings, st: State, act: Action)
    requires Enabled(c, st, act) && IsReg(act) && !act.RegAdd?
    ensures Users(c, st, act, Apply(c, st, act))
  {}

  lemma UsersOfAdd(c: Bindings, st: State, s: string)
    requires Enabled(c, st, RegAdd(s))
    ensures Users(c, st, RegAdd(s), Apply(c, st, RegAdd(s)))
  {
    AddKeepsOthers(c, st, s);
    assert Apply(c, st, RegAdd(s)) == AddStep(c, st, s);
  }

  lemma AddKeepsOthers(c: Bindings, st: State, s: string)
    requires Enabled(c, st, RegAdd(s))
    ensures var st' := AddStep(c, st, s);
      && st'.auths == st.auths && st'.healths == st.healths
      && st'.regs == st.regs[s := st.regs[s].(pc := if Admits(c, st, s) then Added else Rejected)]
  {
    AddChanges(c, st, s);
    if HasId(PoolIn(st, st.regs[s].tunnel.subdomain), st.regs[s].tunnel.id) {
      assert AddStep(c, st, s) == Supersede(st, s);
    } else if Admits(c, st, s) {
      assert AddStep(c, st, s) == Append(st, s);
    } else {
      assert AddStep(c, st, s) == TurnAway(st, s);
    }
  }

  lemma UsersOfDisc(c: Bindings, st: State, act: Action)
    requires Enabled(c, st, act) && IsDisc(act)
    ensures Users(c, st, act, Apply(c, st, act))
  {
    DiscFrame(c, st, act);
  }

  lemma DiscFrame(c: Bindings, st: State, act: Action)
    requires Enabled(c, st, act) && IsDisc(act)
    ensures var st' := Apply(c, st, act);
      st'.auths == st.auths && st'.regs == st.regs && st'.healths == st.healths
  {
    if act.DiscLock? {
      if st.discs[act.d].session in st.bySess {
        assert Apply(c, st, act) == TakeOut(st, act.d);
      } else {
        assert Apply(c, st, act) == NothingToDo(st, act.d);
      }
    }
  }

  lemma UsersOfLookup(c: Bindings, st: State, act: Action)
    requires Enabled(c, st, act) && (act.AuthStart? || act.AuthFindPool?)
    ensures Users(c, st, act, Apply(c, st, act))
  {}

  lemma UsersOfAuth(c: Bindings, st: State, act: Action)
    requires Enabled(c, st, act) && (act.AuthFindClient? || act.AuthCount?)
    ensures Users(c, st, act, Apply(c, st, act))
  {}

  lemma UsersOfRest(c: Bindings, st: State, act: Action)
    requires Enabled(c, st, act) && !IsReg(act) && !IsDisc(act)
    requires !(act.AuthStart? || act.AuthFindPool? || act.AuthFindClient? || act.AuthCount?)
    ensures Users(c, st, act, Apply(c, st, act))
  {}

  lemma StepUsers(c: Bindings, st: State, act: Action)
    requires Enabled(c, st, act)
    ensures Users(c, st, act, Apply(c, st, act))
  {
    if act.RegAdd? {
      UsersOfAdd(c, st, act.s);
    } else if IsReg(act) {
      UsersOfReg(c, st, act);
    } else if IsDisc(act) {
      UsersOfDisc(c, st, act);
    } else if act.AuthStart? || act.AuthFindPool? {
      UsersOfLookup(c, st, act);
    } else if act.AuthFindClient? || act.AuthCount? {
      UsersOfAuth(c, st, act);
    } else {
      UsersOfRest(c, st, act);
    }
  }

  /** What a step does to the pointers. */
  ghost predicate Pointers(c: Bindings, sv: Server, act: Action, sv': Server)
    requires Enabled(c, sv.rest, act)
  {
    && Extends(sv.byName, sv'.byName) && sv'.routes == sv.routes && sv'.rest.pools == map[]
    && (if act.AuthFindPool? && HostOf(c, sv.rest, act) in sv.byName
        then sv'.authPool == sv.authPool[act.a := sv.byName[HostOf(c, sv.rest, act)]]
        else sv'.authPool == sv.authPool)
    && (if act.RegLock?
        then act.s in sv'.regPool && sv'.regPool == sv.regPool[act.s := sv'.regPool[act.s]]
             && Points(sv'.byName, HostOf(c, sv.rest, act), sv'.regPool[act.s])
        else sv'.regPool == sv.regPool)
    && (if act.HealthFindPool? && HostOf(c, sv.rest, act) in sv.byName
        then sv'.healthPool == sv.healthPool[act.h := sv.byName[HostOf(c, sv.rest, act)]]
        else sv'.healthPool == sv.healthPool)
  }

  predicate SamePointers(sv: Server, sv': Server) {
    && sv'.byName == sv.byName && sv'.routes == sv.routes && sv'.rest.pools == map[]
    && sv'.authPool == sv.authPool && sv'.regPool == sv.regPool && sv'.healthPool == sv.healthPool
  }

  lemma OnPoolKeepsPointers(c: Bindings, sv: Server, act: Action, sub: string, h: nat)
    requires Enabled(c, sv.rest, act)
    ensures SamePointers(sv, OnPool(c, sv, act, sub, h))
  {}

  lemma StepPointers(c: Bindings, sv: Server, act: Action)
    requires Enabled(c, sv.rest, act)
    ensures Pointers(c, sv, act, Step(c, sv, act))
  {
    if UsesHeld(act) {
      OnPoolKeepsPointers(c, sv, act, HostOf(c, sv.rest, act), Held(sv, act));
      UsesPointers(c, sv, act, OnPool(c, sv, act, HostOf(c, sv.rest, act), Held(sv, act)));
    } else if LooksUp(act) && HostOf(c, sv.rest, act) in sv.byName {
      var sub := HostOf(c, sv.rest, act);
      OnPoolKeepsPointers(c, sv, act, sub, sv.byName[sub]);
      FindPointers(c, sv, act, OnPool(c, sv, act, sub, sv.byName[sub]));
    } else if act.RegLock? {
      CreatePointers(c, sv, act.s);
    } else {
      assert Step(c, sv, act) == sv.(rest := Apply(c, sv.rest, act).(pools := map[]));
    }
  }

  lemma UsesPointers(c: Bindings, sv: Server, act: Action, sv': Server)
    requires Enabled(c, sv.rest, act) && UsesHeld(act) && SamePointers(sv, sv')
    ensures Pointers(c, sv, act, sv')
  {}

  lemma FindPointers(c: Bindings, sv: Server, act: Action, sv': Server)
    requires Enabled(c, sv.rest, act) && LooksUp(act) && HostOf(c, sv.rest, act) in sv.byName && SamePointers(sv, sv')
    ensures Pointers(c, sv, act, Keep(sv', act, sv.byName[HostOf(c, sv.rest, act)]))
  {}

  lemma CreatePointers(c: Bindings, sv: Server, s: string)
    requires Enabled(c, sv.rest, RegLock(s)) && HostOf(c, sv.rest, RegLock(s)) !in sv.byName
    ensures Pointers(c, sv, RegLock(s), Create(c, sv, s))
  {}

  lemma AuthsStayHeld(c: Bindings, sv: Server, act: Action, sv': Server, st: State)
    requires Enabled(c, sv.rest, act) && Pointers(c, sv, act, sv')
    requires st == Named(sv) && AuthUsers(c, st, act, sv'.rest.auths)
    requires AuthsHeld(c, sv.byName, sv.rest.auths, sv.authPool)
    ensures AuthsHeld(c, sv'.byName, sv'.rest.auths, sv'.authPool)
  {}

  lemma RegsStayHeld(c: Bindings, sv: Server, act: Action, sv': Server, st: State)
    requires Enabled(c, sv.rest, act) && Pointers(c, sv, act, sv')
    requires st == Named(sv) && RegUsers(st, act, sv'.rest.regs)
    requires RegsHeld(sv.byName, sv.rest.regs, sv.regPool)
    ensures RegsHeld(sv'.byName, sv'.rest.regs, sv'.regPool)
  {}

  lemma HealthsStayHeld(c: Bindings, sv: Server, act: Action, sv': Server, st: State)
    requires Enabled(c, sv.rest, act) && Pointers(c, sv, act, sv')
    requires st == Named(sv) && HealthUsers(st, act, sv'.rest.healths)
    requires HealthsHeld(sv.byName, sv.rest.healths, sv.healthPool)
    ensures HealthsHeld(sv'.byName, sv'.rest.healths, sv'.healthPool)
  {}

  /** Every step of the server with pool objects keeps every pointer current, and is the step that
      `Hooks` takes by name. */
  lemma StepKeepsCurrent(c: Bindings, sv: Server, act: Action)
    requires NothingStale(c, sv) && Enabled(c, sv.rest, act)
    ensures NothingStale(c, Step(c, sv, act)) && Step(c, sv, act).routes == sv.routes
    ensures Enabled(c, Named(sv), act) && Named(Step(c, sv, act)) == Apply(c, Named(sv), act)
  {
    var st, sv' := Named(sv), Step(c, sv, act);
    StepSimulates(c, sv, act);
    StepPointers(c, sv, act);
    StepUsers(c, st, act);
    KeepsCurrent(c, sv, act, sv', st, Apply(c, st, act));
  }

  lemma KeepsCurrent(c: Bindings, sv: Server, act: Action, sv': Server, st: State, st': State)
    requires NothingStale(c, sv) && Enabled(c, sv.rest, act) && Pointers(c, sv, act, sv')
    requires st == Named(sv) && st' == Named(sv') && Users(c, st, act, st')
    requires NamesOk(sv'.byName, |sv'.members|)
    ensures NothingStale(c, sv') && sv'.routes == sv.routes
  {
    AuthsStayHeld(c, sv, act, sv', st);
    RegsStayHeld(c, sv, act, sv', st);
    HealthsStayHeld(c, sv, act, sv', st);
  }

  /** Over every run no pointer goes stale, and the run is one of `Hooks`. */
  lemma {:induction false} RunKeepsCurrent(c: Bindings, sv: Server, acts: seq<Action>, sv': Server)
    requires NothingStale(c, sv) && LeadsTo(c, sv, acts, sv')
    ensures NothingStale(c, sv') && sv'.routes == sv.routes
    ensures Reaches(c, Named(sv), acts, Named(sv'))
    decreases |acts|
  {
    if acts != [] {
      StepKeepsCurrent(c, sv, acts[0]);
      RunKeepsCurrent(c, Step(c, sv, acts[0]), acts[1..], sv');
    }
  }

  /** And every run of `Hooks` is one of the server with pool objects. */
  lemma {:induction false} RunLifts(c: Bindings, sv: Server, acts: seq<Action>, st: State) returns (sv': Server)
    requires NothingStale(c, sv) && Reaches(c, Named(sv), acts, st)
    ensures LeadsTo(c, sv, acts, sv') && Named(sv') == st
    decreases |acts|
  {
    if acts == [] {
      sv' := sv;
    } else {
      EnabledEither(c, Named(sv), acts[0], map[]);
      assert Named(sv).(pools := map[]) == sv.rest;
      StepKeepsCurrent(c, sv, acts[0]);
      sv' := RunLifts(c, Step(c, sv, acts[0]), acts[1..], st);
    }
  }

  // ---- What this means for requests

  /** In every reachable state each route's pool is the registry's current pool of its host, so a
      request can only be given a tunnel of the host it is for, which is a member right now. */
  lemma RoutesNeverStale(c: Bindings, first: Server, acts: seq<Action>, sv: Server, k: string)
    requires Compiled(first) && LeadsTo(c, first, acts, sv) && k in first.routes
    ensures k in sv.routes && Points(sv.byName, k, sv.routes[k])
    ensures PoolIn(Named(sv), k) == MembersOf(sv, sv.routes[k])
    ensures forall m :: m in MembersOf(sv, sv.routes[k]) ==> m.subdomain == k && Member(Named(sv).pools, m)
    ensures Run(c, Named(first), acts, Named(sv))
  {
    RunKeepsCurrent(c, first, acts, sv);
    RunInv(c, Named(first), acts, Named(sv));
  }

  /** The pool that a goroutine has looked up is the current one whenever it uses it: what it reads
      and what it changes are never an abandoned pool's members. */
  lemma HeldPoolsNeverStale(c: Bindings, first: Server, acts: seq<Action>, sv: Server, act: Action)
    requires Compiled(first) && LeadsTo(c, first, acts, sv) && Enabled(c, sv.rest, act) && UsesHeld(act)
    ensures Points(sv.byName, HostOf(c, sv.rest, act), Held(sv, act))
  {
    RunKeepsCurrent(c, first, acts, sv);
    HeldIsCurrent(c, sv, act);
  }
}
