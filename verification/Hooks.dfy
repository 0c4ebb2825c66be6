/** The registry under concurrent hooks (`internal/server/server.go` on `internal/registry`).
    Every action below is one step that runs without interruption: a read or a write under one
    lock, or an atomic store.  Between the steps of one goroutine any other may run. */
module Hooks {
  import opened Config
  import opened Registry

  /** ClientRegistry: the binding of each client ID. */
  type Bindings = map<string, ClientBinding>

  /** authenticateConnect: find the pool, look for the client, count the members. */
  datatype AuthPc = FindPool | FindClient | CountMembers | Admitted | Refused

  datatype Auth = Auth(client: string, pc: AuthPc)

  /** onConnect: wait for the registry lock, then the statements of Register. */
  datatype RegPc = Waiting | Locked | Dropped | Added | Healthy | Registered | Rejected | TurnedAway

  datatype Reg = Reg(tunnel: ClientTunnel, pc: RegPc)

  /** onDisconnect: get, close the transport, lock and unindex, remove from the pool. */
  datatype DiscPc = Get | CloseTransport(t: ClientTunnel) | WaitForLock | Removing(victim: ClientTunnel) | Done

  datatype Disc = Disc(session: string, pc: DiscPc)

  /** onPoll with a health header: SetLocalHealth. */
  datatype HealthPc = HealthPool | HealthClient | HealthStore(t: ClientTunnel) | HealthDone

  datatype Health = Health(subdomain: string, client: string, ok: bool, pc: HealthPc)

  datatype Lock = Free | ByReg(session: string) | ByDisc(d: nat)

  datatype State = State(
    pools: map<string, seq<ClientTunnel>>,
    bySess: map<string, ClientTunnel>,
    lock: Lock,
    auths: map<nat, Auth>,
    regs: map<string, Reg>,           // by the session that pollmux created
    discs: map<nat, Disc>,
    healths: map<nat, Health>,
    healthy: set<ClientTunnel>,
    closed: set<ClientTunnel>,        // tunnels whose transport was closed
    workers: seq<ClientTunnel>,       // one drain worker per entry
    gone: set<string>,                // sessions whose RemoveBySessionID has returned
    joined: map<ClientTunnel, nat>,   // when the tunnel's client last entered the pool
    clock: nat)

  datatype Action =
    | AuthStart(a: nat, client: string)
    | AuthFindPool(a: nat)
    | AuthFindClient(a: nat)
    | AuthCount(a: nat)
    | OnConnect(a: nat, tunnel: ClientTunnel)
    | RegLock(s: string)
    | RegDrop(s: string)
    | RegAdd(s: string)
    | RegHealthy(s: string)
    | RegIndex(s: string)
    | RegClose(s: string)
    | DiscStart(d: nat, s: string)
    | DiscGet(d: nat)
    | DiscClose(d: nat)
    | DiscLock(d: nat)
    | DiscRemove(d: nat)
    | HealthStart(h: nat, subdomain: string, client: string, ok: bool)
    | HealthFindPool(h: nat)
    | HealthFindClient(h: nat)
    | HealthSet(h: nat)
    | DrainClose(w: nat)

  predicate RegAt(st: State, s: string, pc: RegPc) {
    s in st.regs && st.regs[s].pc == pc
  }

  predicate AuthAt(st: State, a: nat, pc: AuthPc) {
    a in st.auths && st.auths[a].pc == pc
  }

  predicate HealthAt(st: State, h: nat, pc: HealthPc) {
    h in st.healths && st.healths[h].pc == pc
  }

  function PoolIn(st: State, sub: string): seq<ClientTunnel> {
    if sub in st.pools then st.pools[sub] else []
  }

  predicate Enabled(c: Bindings, st: State, act: Action) {
    match act
    case AuthStart(a, client) => a !in st.auths && client in c
    case AuthFindPool(a) => AuthAt(st, a, FindPool) && st.auths[a].client in c && st.lock.Free?
    case AuthFindClient(a) => AuthAt(st, a, FindClient) && st.auths[a].client in c
    case AuthCount(a) => AuthAt(st, a, CountMembers) && st.auths[a].client in c
    case OnConnect(a, t) =>
      && AuthAt(st, a, Admitted) && t.id == st.auths[a].client
      && t.id in c && t.subdomain == c[t.id].subdomain
      && t.session != null && t.session.id !in st.regs
    case RegLock(s) => RegAt(st, s, Waiting) && st.lock.Free?
    case RegDrop(s) => RegAt(st, s, Locked)
    case RegAdd(s) => RegAt(st, s, Dropped) && st.regs[s].tunnel.id in c
    case RegHealthy(s) => RegAt(st, s, Added)
    case RegIndex(s) => RegAt(st, s, Healthy)
    case RegClose(s) => RegAt(st, s, Rejected)
    case DiscStart(d, s) => d !in st.discs && RegAt(st, s, Registered)
    case DiscGet(d) => d in st.discs && st.discs[d].pc.Get? && st.lock.Free?
    case DiscClose(d) => d in st.discs && st.discs[d].pc.CloseTransport?
    case DiscLock(d) => d in st.discs && st.discs[d].pc.WaitForLock? && st.lock.Free?
    case DiscRemove(d) => d in st.discs && st.discs[d].pc.Removing?
    case HealthStart(h, _, _, _) => h !in st.healths
    case HealthFindPool(h) => HealthAt(st, h, HealthPool) && st.lock.Free?
    case HealthFindClient(h) => HealthAt(st, h, HealthClient)
    case HealthSet(h) => h in st.healths && st.healths[h].pc.HealthStore?
    case DrainClose(w) => w < |st.workers|
  }

  function AuthTo(st: State, a: nat, pc: AuthPc): map<nat, Auth>
    requires a in st.auths
  {
    st.auths[a := st.auths[a].(pc := pc)]
  }

  function RegTo(st: State, s: string, pc: RegPc): map<string, Reg>
    requires s in st.regs
  {
    st.regs[s := st.regs[s].(pc := pc)]
  }

  function DiscTo(st: State, d: nat, pc: DiscPc): map<nat, Disc>
    requires d in st.discs
  {
    st.discs[d := st.discs[d].(pc := pc)]
  }

  function HealthTo(st: State, h: nat, pc: HealthPc): map<nat, Health>
    requires h in st.healths
  {
    st.healths[h := st.healths[h].(pc := pc)]
  }

  predicate IsReg(act: Action) {
    || act.OnConnect? || act.RegLock? || act.RegDrop? || act.RegAdd?
    || act.RegHealthy? || act.RegIndex? || act.RegClose?
  }

  predicate IsDisc(act: Action) {
    act.DiscStart? || act.DiscGet? || act.DiscClose? || act.DiscLock? || act.DiscRemove?
  }

  function Apply(c: Bindings, st: State, act: Action): State
    requires Enabled(c, st, act)
  {
    if IsReg(act) then RegisterStep(c, st, act)
    else if IsDisc(act) then DisconnectStep(c, st, act)
    else OtherStep(c, st, act)
  }

  function OtherStep(c: Bindings, st: State, act: Action): State
    requires Enabled(c, st, act) && !IsReg(act) && !IsDisc(act)
  {
    match act
    case AuthStart(a, client) => st.(auths := st.auths[a := Auth(client, FindPool)])
    case AuthFindPool(a) =>
      st.(auths := AuthTo(st, a, if c[st.auths[a].client].subdomain in st.pools then FindClient else Admitted))
    case AuthFindClient(a) =>
      var client := st.auths[a].client;
      st.(auths := AuthTo(st, a, if HasId(PoolIn(st, c[client].subdomain), client) then Admitted else CountMembers))
    case AuthCount(a) =>
      var b := c[st.auths[a].client];
      st.(auths := AuthTo(st, a, if |PoolIn(st, b.subdomain)| >= b.maxClients then Refused else Admitted))
    case HealthStart(h, sub, client, ok) => st.(healths := st.healths[h := Health(sub, client, ok, HealthPool)])
    case HealthFindPool(h) =>
      st.(healths := HealthTo(st, h, if st.healths[h].subdomain in st.pools then HealthClient else HealthDone))
    case HealthFindClient(h) =>
      var ms, client := PoolIn(st, st.healths[h].subdomain), st.healths[h].client;
      st.(healths := HealthTo(st, h, if HasId(ms, client) then HealthStore(ms[IndexOf(ms, client)]) else HealthDone))
    case HealthSet(h) =>
      var t := st.healths[h].pc.t;
      st.(healths := HealthTo(st, h, HealthDone),
          healthy := if st.healths[h].ok then st.healthy + {t} else st.healthy - {t})
    case DrainClose(w) => st.(closed := st.closed + {st.workers[w]})
  }

  function RegisterStep(c: Bindings, st: State, act: Action): State
    requires Enabled(c, st, act) && IsReg(act)
  {
    match act
    case OnConnect(a, t) => st.(auths := st.auths - {a}, regs := st.regs[t.session.id := Reg(t, Waiting)])
    case RegLock(s) =>
      var sub := st.regs[s].tunnel.subdomain;
      st.(regs := RegTo(st, s, Locked), lock := ByReg(s), pools := st.pools[sub := PoolIn(st, sub)])
    case RegDrop(s) =>
      var t := st.regs[s].tunnel;
      st.(regs := RegTo(st, s, Dropped), bySess := DropPrevious(PoolIn(st, t.subdomain), t.id, st.bySess))
    case RegAdd(s) => AddStep(c, st, s)
    case RegHealthy(s) => st.(regs := RegTo(st, s, Healthy), healthy := st.healthy + {st.regs[s].tunnel})
    case RegIndex(s) =>
      st.(regs := RegTo(st, s, Registered), bySess := st.bySess[s := st.regs[s].tunnel], lock := Free)
    case RegClose(s) => st.(regs := RegTo(st, s, TurnedAway), closed := st.closed + {st.regs[s].tunnel})
  }

  function DisconnectStep(c: Bindings, st: State, act: Action): State
    requires Enabled(c, st, act) && IsDisc(act)
  {
    match act
    case DiscStart(d, s) => st.(discs := st.discs[d := Disc(s, Get)])
    case DiscGet(d) =>
      var s := st.discs[d].session;
      st.(discs := DiscTo(st, d, if s in st.bySess then CloseTransport(st.bySess[s]) else WaitForLock))
    case DiscClose(d) => st.(discs := DiscTo(st, d, WaitForLock), closed := st.closed + {st.discs[d].pc.t})
    case DiscLock(d) =>
      if st.discs[d].session in st.bySess then TakeOut(st, d) else NothingToDo(st, d)
    case DiscRemove(d) =>
      var t := st.discs[d].pc.victim;
      st.(discs := DiscTo(st, d, Done), lock := Free, gone := st.gone + {st.discs[d].session},
          pools := if t.subdomain in st.pools
            then st.pools[t.subdomain := Delete(st.pools[t.subdomain], t.id)] else st.pools)
  }

  function TakeOut(st: State, d: nat): State
    requires d in st.discs && st.discs[d].session in st.bySess
  {
    var s := st.discs[d].session;
    st.(discs := DiscTo(st, d, Removing(st.bySess[s])), lock := ByDisc(d), bySess := st.bySess - {s})
  }

  function NothingToDo(st: State, d: nat): State
    requires d in st.discs
  {
    st.(discs := DiscTo(st, d, Done), gone := st.gone + {st.discs[d].session})
  }

  /** TunnelPool.Add under the pool's lock, and what Register does with its answer. */
  function AddStep(c: Bindings, st: State, s: string): State
    requires RegAt(st, s, Dropped) && st.regs[s].tunnel.id in c
  {
    var t := st.regs[s].tunnel;
    var ms := PoolIn(st, t.subdomain);
    if HasId(ms, t.id) then Supersede(st, s)
    else if |ms| >= c[t.id].maxClients then TurnAway(st, s)
    else Append(st, s)
  }

  function Supersede(st: State, s: string): State
    requires s in st.regs && HasId(PoolIn(st, st.regs[s].tunnel.subdomain), st.regs[s].tunnel.id)
  {
    var t := st.regs[s].tunnel;
    var ms := PoolIn(st, t.subdomain);
    var previous := ms[IndexOf(ms, t.id)];
    st.(regs := RegTo(st, s, Added),
        pools := st.pools[t.subdomain := Put(ms, t)],
        workers := st.workers + [previous],
        joined := if previous in st.joined then st.joined[t := st.joined[previous]] else st.joined)
  }

  function TurnAway(st: State, s: string): State
    requires s in st.regs
  {
    st.(regs := RegTo(st, s, Rejected), lock := Free)
  }

  function Append(st: State, s: string): State
    requires s in st.regs
  {
    var t := st.regs[s].tunnel;
    st.(regs := RegTo(st, s, Added),
        pools := st.pools[t.subdomain := Put(PoolIn(st, t.subdomain), t)],
        joined := st.joined[t := st.clock],
        clock := st.clock + 1)
  }

  /** A server that has compiled its routes: the pools exist and are empty. */
  predicate Initial(st: State) {
    && (forall k :: k in st.pools ==> st.pools[k] == [])
    && st.bySess == map[] && st.lock == Free
    && st.auths == map[] && st.regs == map[] && st.discs == map[] && st.healths == map[]
    && st.healthy == {} && st.closed == {} && st.workers == [] && st.gone == {} && st.joined == map[]
  }

  /** A run: some goroutine takes each step, in any order the locks allow. */
  predicate Reaches(c: Bindings, st: State, acts: seq<Action>, st': State)
    decreases |acts|
  {
    if acts == [] then st' == st
    else Enabled(c, st, acts[0]) && Reaches(c, Apply(c, st, acts[0]), acts[1..], st')
  }

  // ---- The invariant

  predicate Critical(pc: RegPc) {
    pc == Locked || pc == Dropped || pc == Added || pc == Healthy
  }

  predicate InPool(pc: RegPc) {
    pc == Added || pc == Healthy || pc == Registered
  }

  type Regs = map<string, Reg>
  type Pools = map<string, seq<ClientTunnel>>

  /** What may be missing from the session index while somebody holds the registry lock. */
  function HoleOf(lock: Lock, regs: Regs, discs: map<nat, Disc>): Hole {
    match lock
    case Free => NoHole
    case ByReg(s) =>
      if s in regs && regs[s].pc != Locked
      then Hole(regs[s].tunnel.subdomain, regs[s].tunnel.id) else NoHole
    case ByDisc(d) =>
      if d in discs && discs[d].pc.Removing?
      then Hole(discs[d].pc.victim.subdomain, discs[d].pc.victim.id) else NoHole
  }

  predicate IsRegistered(regs: Regs, s: string) {
    s in regs && regs[s].pc == Registered
  }

  ghost predicate RegsOk(c: Bindings, regs: Regs, pools: Pools) {
    forall s :: s in regs ==> RegOk(c, s, regs[s], pools)
  }

  ghost predicate RegOk(c: Bindings, s: string, r: Reg, pools: Pools) {
    && r.tunnel.session != null && r.tunnel.session.id == s
    && r.tunnel.id in c && r.tunnel.subdomain == c[r.tunnel.id].subdomain
    && (r.pc != Waiting ==> r.tunnel.subdomain in pools)
  }

  /** Every member of a pool got there through its own Register. */
  ghost predicate MembersOk(pools: Pools, regs: Regs) {
    forall k, m :: k in pools && m in pools[k] ==> CameThroughRegister(m, regs)
  }

  predicate CameThroughRegister(m: ClientTunnel, regs: Regs) {
    m.session != null && m.session.id in regs
    && regs[m.session.id].tunnel == m && InPool(regs[m.session.id].pc)
  }

  /** Only the goroutine that holds the registry lock is between its lock and unlock. */
  ghost predicate LockOk(lock: Lock, regs: Regs, discs: map<nat, Disc>) {
    && (forall s :: s in regs && Critical(regs[s].pc) ==> lock == ByReg(s))
    && (forall d :: d in discs && discs[d].pc.Removing? ==> lock == ByDisc(d))
  }

  ghost predicate HolderOk(lock: Lock, regs: Regs, discs: map<nat, Disc>, pools: Pools) {
    match lock
    case Free => true
    case ByReg(s) =>
      && s in regs && Critical(regs[s].pc)
      && (regs[s].pc == Added || regs[s].pc == Healthy ==> Member(pools, regs[s].tunnel))
    case ByDisc(d) =>
      && d in discs && discs[d].pc.Removing? && discs[d].session in regs
      && discs[d].pc.victim == regs[discs[d].session].tunnel && Member(pools, discs[d].pc.victim)
  }

  ghost predicate DiscsOk(discs: map<nat, Disc>, regs: Regs) {
    forall d :: d in discs ==> IsRegistered(regs, discs[d].session)
  }

  /** Superseded tunnels have left their pools for good. */
  ghost predicate WorkersOk(workers: seq<ClientTunnel>, regs: Regs, pools: Pools) {
    forall w :: w in workers ==> Retired(w, regs, pools)
  }

  ghost predicate Retired(w: ClientTunnel, regs: Regs, pools: Pools) {
    && w.session != null && IsRegistered(regs, w.session.id) && regs[w.session.id].tunnel == w
    && !Member(pools, w)
  }

  ghost predicate NoDuplicates(workers: seq<ClientTunnel>) {
    forall i, j :: 0 <= i < j < |workers| ==> workers[i] != workers[j]
  }

  ghost predicate GoneOk(gone: set<string>, regs: Regs, pools: Pools) {
    forall s :: s in gone ==> IsRegistered(regs, s) && !Member(pools, regs[s].tunnel)
  }

  /** A pool that is not empty fits the limit of one of its host's bindings. */
  ghost predicate CapacityOk(c: Bindings, pools: Pools) {
    forall k :: k in pools && pools[k] != [] ==> FitsSomeBinding(c, k, |pools[k]|)
  }

  ghost predicate FitsSomeBinding(c: Bindings, k: string, n: nat) {
    exists id :: id in c && c[id].subdomain == k && n <= c[id].maxClients
  }

  /** Pools are in the order in which their clients joined. */
  ghost predicate OrderOk(pools: Pools, joined: map<ClientTunnel, nat>, clock: nat) {
    forall k :: k in pools ==> InOrder(pools[k], joined, clock)
  }

  ghost predicate InOrder(ms: seq<ClientTunnel>, joined: map<ClientTunnel, nat>, clock: nat) {
    && (forall i :: 0 <= i < |ms| ==> ms[i] in joined && joined[ms[i]] < clock)
    && (forall i, j :: 0 <= i < j < |ms| ==> joined[ms[i]] < joined[ms[j]])
  }

  /** Who does what: registrations, disconnects, the lock between them, the two indices. */
  ghost predicate Threads(c: Bindings, st: State) {
    match st
    case State(pools, bySess, lock, _, regs, discs, _, _, _, _, _, _, _) =>
      && RegsOk(c, regs, pools)
      && MembersOk(pools, regs)
      && LockOk(lock, regs, discs)
      && HolderOk(lock, regs, discs, pools)
      && DiscsOk(discs, regs)
      && Agree(pools, bySess, HoleOf(lock, regs, discs))
  }

  /** What the pools may hold, and in what order. */
  ghost predicate Ledger(c: Bindings, st: State) {
    match st
    case State(pools, _, _, _, regs, _, _, _, _, workers, gone, joined, clock) =>
      && WorkersOk(workers, regs, pools)
      && NoDuplicates(workers)
      && GoneOk(gone, regs, pools)
      && CapacityOk(c, pools)
      && OrderOk(pools, joined, clock)
  }

  ghost predicate Inv(c: Bindings, st: State) {
    Threads(c, st) && Ledger(c, st)
  }

  lemma InitialInv(c: Bindings, st: State)
    requires Initial(st)
    ensures Inv(c, st)
  {}

  // ---- Every step keeps it

  /** The parts of the state that the invariant is about. */
  predicate SameRegistry(st: State, st': State) {
    && st'.pools == st.pools && st'.bySess == st.bySess && st'.lock == st.lock
    && st'.regs == st.regs && st'.discs == st.discs && st'.workers == st.workers
    && st'.gone == st.gone && st'.joined == st.joined && st'.clock == st.clock
  }

  lemma OutsideStep(c: Bindings, st: State, st': State)
    requires Inv(c, st) && SameRegistry(st, st')
    ensures Inv(c, st')
  {}

  /** Nobody who was registered is forgotten or turned back. */
  ghost predicate KeepsRegistered(regs: Regs, regs': Regs) {
    forall s :: IsRegistered(regs, s) ==> s in regs' && regs'[s] == regs[s]
  }

  ghost predicate KeepsInPool(regs: Regs, regs': Regs) {
    forall s :: s in regs && InPool(regs[s].pc) ==>
      s in regs' && regs'[s].tunnel == regs[s].tunnel && InPool(regs'[s].pc)
  }

  lemma MembersPersist(pools: Pools, regs: Regs, regs': Regs)
    requires MembersOk(pools, regs) && KeepsInPool(regs, regs')
    ensures MembersOk(pools, regs')
  {
    forall k, m | k in pools && m in pools[k] ensures CameThroughRegister(m, regs') {
      assert CameThroughRegister(m, regs);
    }
  }

  lemma DiscsPersist(discs: map<nat, Disc>, regs: Regs, regs': Regs)
    requires KeepsRegistered(regs, regs') && DiscsOk(discs, regs)
    ensures DiscsOk(discs, regs')
  {}

  lemma WorkersPersist(workers: seq<ClientTunnel>, regs: Regs, regs': Regs, pools: Pools)
    requires KeepsRegistered(regs, regs') && WorkersOk(workers, regs, pools)
    ensures WorkersOk(workers, regs', pools)
  {
    forall w | w in workers ensures Retired(w, regs', pools) {
      assert Retired(w, regs, pools);
    }
  }

  lemma GonePersist(gone: set<string>, regs: Regs, regs': Regs, pools: Pools)
    requires KeepsRegistered(regs, regs') && GoneOk(gone, regs, pools)
    ensures GoneOk(gone, regs', pools)
  {
    forall s | s in gone ensures IsRegistered(regs', s) && !Member(pools, regs'[s].tunnel) {
      assert IsRegistered(regs, s);
    }
  }

  lemma RegsExtend(c: Bindings, regs: Regs, pools: Pools, s: string, r: Reg)
    requires RegsOk(c, regs, pools) && RegOk(c, s, r, pools)
    ensures RegsOk(c, regs[s := r], pools)
  {}

  lemma RegsInMorePools(c: Bindings, regs: Regs, pools: Pools, pools': Pools)
    requires RegsOk(c, regs, pools) && pools.Keys <= pools'.Keys
    ensures RegsOk(c, regs, pools')
  {
    forall s | s in regs ensures RegOk(c, s, regs[s], pools') {
      assert RegOk(c, s, regs[s], pools);
    }
  }

  /** The registry lock follows the one goroutine that enters or leaves Register. */
  lemma LockFollowsReg(lock: Lock, lock': Lock, regs: Regs, discs: map<nat, Disc>, s: string, r: Reg)
    requires LockOk(lock, regs, discs)
    requires Critical(r.pc) ==> lock == Free || lock == ByReg(s)
    requires lock' == if Critical(r.pc) then ByReg(s) else if lock == ByReg(s) then Free else lock
    ensures LockOk(lock', regs[s := r], discs)
  {}

  lemma LockFollowsDisc(lock: Lock, lock': Lock, regs: Regs, discs: map<nat, Disc>, d: nat, x: Disc)
    requires LockOk(lock, regs, discs)
    requires x.pc.Removing? ==> lock == Free || lock == ByDisc(d)
    requires lock' == if x.pc.Removing? then ByDisc(d) else if lock == ByDisc(d) then Free else lock
    ensures LockOk(lock', regs, discs[d := x])
  {}

  /** Whoever does not hold the lock changes nothing for its holder. */
  lemma HolderUnaffectedByDisc(lock: Lock, regs: Regs, discs: map<nat, Disc>, pools: Pools, d: nat, x: Disc)
    requires HolderOk(lock, regs, discs, pools) && lock != ByDisc(d)
    ensures HolderOk(lock, regs, discs[d := x], pools)
    ensures HoleOf(lock, regs, discs[d := x]) == HoleOf(lock, regs, discs)
  {}

  lemma HolderUnaffectedByReg(lock: Lock, regs: Regs, discs: map<nat, Disc>, pools: Pools, s: string, r: Reg)
    requires HolderOk(lock, regs, discs, pools) && lock != ByReg(s)
    requires s in regs ==> regs[s].tunnel == r.tunnel
    requires DiscsOk(discs, regs)
    ensures HolderOk(lock, regs[s := r], discs, pools)
    ensures HoleOf(lock, regs[s := r], discs) == HoleOf(lock, regs, discs)
  {}

  predicate Continues(r: Reg, r': Reg) {
    r'.tunnel == r.tunnel && r.pc != Registered && (InPool(r.pc) ==> InPool(r'.pc))
  }

  /** A step of one registration that leaves the pools as they are. */
  lemma RegMoves(c: Bindings, st: State, s: string, r: Reg)
    requires Inv(c, st) && RegOk(c, s, r, st.pools)
    requires s in st.regs ==> Continues(st.regs[s], r)
    ensures var regs' := st.regs[s := r];
      && RegsOk(c, regs', st.pools) && MembersOk(st.pools, regs') && DiscsOk(st.discs, regs')
      && WorkersOk(st.workers, regs', st.pools) && GoneOk(st.gone, regs', st.pools)
  {
    var regs' := st.regs[s := r];
    RegsExtend(c, st.regs, st.pools, s, r);
    MembersPersist(st.pools, st.regs, regs');
    DiscsPersist(st.discs, st.regs, regs');
    WorkersPersist(st.workers, st.regs, regs', st.pools);
    GonePersist(st.gone, st.regs, regs', st.pools);
  }

  lemma OnConnectStep(c: Bindings, st: State, a: nat, t: ClientTunnel)
    requires Inv(c, st) && Enabled(c, st, OnConnect(a, t))
    ensures Inv(c, Apply(c, st, OnConnect(a, t)))
  {
    assert st.lock != ByReg(t.session.id);
    RegMoves(c, st, t.session.id, Reg(t, Waiting));
    LockFollowsReg(st.lock, st.lock, st.regs, st.discs, t.session.id, Reg(t, Waiting));
    HolderUnaffectedByReg(st.lock, st.regs, st.discs, st.pools, t.session.id, Reg(t, Waiting));
  }

  lemma RegDropStep(c: Bindings, st: State, s: string)
    requires Inv(c, st) && Enabled(c, st, RegDrop(s))
    ensures Inv(c, Apply(c, st, RegDrop(s)))
  {
    var t := st.regs[s].tunnel;
    assert RegOk(c, s, st.regs[s], st.pools);
    RegMoves(c, st, s, Reg(t, Dropped));
    LockFollowsReg(st.lock, st.lock, st.regs, st.discs, s, Reg(t, Dropped));
    DropAgrees(st.pools, st.bySess, t.subdomain, t.id);
  }

  /** An empty pool more changes nothing. */
  lemma PoolCreated(c: Bindings, st: State, sub: string)
    requires Inv(c, st) && st.lock.Free?
    ensures Inv(c, st.(pools := st.pools[sub := PoolIn(st, sub)]))
  {
    var pools' := st.pools[sub := PoolIn(st, sub)];
    if sub in st.pools {
      assert pools' == st.pools;
    } else {
      NewPoolAgrees(st.pools, st.bySess, sub);
      RegsInMorePools(c, st.regs, st.pools, pools');
      FewerMembers(st, pools');
    }
  }

  ghost predicate NoNewMembers(pools: Pools, pools': Pools) {
    forall k, m :: k in pools' && m in pools'[k] ==> k in pools && m in pools[k]
  }

  /** Tunnels that are out stay out when no pool gains a member. */
  lemma FewerMembers(st: State, pools': Pools)
    requires MembersOk(st.pools, st.regs) && WorkersOk(st.workers, st.regs, st.pools)
    requires GoneOk(st.gone, st.regs, st.pools) && NoNewMembers(st.pools, pools')
    ensures MembersOk(pools', st.regs) && WorkersOk(st.workers, st.regs, pools')
    ensures GoneOk(st.gone, st.regs, pools')
  {
    forall w | w in st.workers ensures Retired(w, st.regs, pools') {
      assert Retired(w, st.regs, st.pools);
    }
  }

  lemma RegLockStep(c: Bindings, st: State, s: string)
    requires Inv(c, st) && Enabled(c, st, RegLock(s))
    ensures Inv(c, Apply(c, st, RegLock(s)))
  {
    var t := st.regs[s].tunnel;
    var mid := st.(pools := st.pools[t.subdomain := PoolIn(st, t.subdomain)]);
    PoolCreated(c, st, t.subdomain);
    assert RegOk(c, s, st.regs[s], st.pools);
    RegMoves(c, mid, s, Reg(t, Locked));
    LockFollowsReg(Free, ByReg(s), st.regs, st.discs, s, Reg(t, Locked));
  }

  lemma RegHealthyStep(c: Bindings, st: State, s: string)
    requires Inv(c, st) && Enabled(c, st, RegHealthy(s))
    ensures Inv(c, Apply(c, st, RegHealthy(s)))
  {
    var t := st.regs[s].tunnel;
    assert RegOk(c, s, st.regs[s], st.pools);
    RegMoves(c, st, s, Reg(t, Healthy));
    LockFollowsReg(st.lock, st.lock, st.regs, st.discs, s, Reg(t, Healthy));
  }

  lemma RegIndexStep(c: Bindings, st: State, s: string)
    requires Inv(c, st) && Enabled(c, st, RegIndex(s))
    ensures Inv(c, Apply(c, st, RegIndex(s)))
  {
    var t := st.regs[s].tunnel;
    assert RegOk(c, s, st.regs[s], st.pools);
    RegMoves(c, st, s, Reg(t, Registered));
    LockFollowsReg(st.lock, Free, st.regs, st.discs, s, Reg(t, Registered));
    FillHole(st.pools, st.bySess, t);
  }

  lemma FillHole(pools: Pools, sess: map<string, ClientTunnel>, t: ClientTunnel)
    requires Agree(pools, sess, Hole(t.subdomain, t.id)) && Member(pools, t) && t.session != null
    ensures Agree(pools, sess[t.session.id := t], NoHole)
  {
    IndexAgrees(pools, sess, t);
  }

  lemma MemberCameThrough(pools: Pools, regs: Regs, t: ClientTunnel)
    requires MembersOk(pools, regs) && Member(pools, t)
    ensures CameThroughRegister(t, regs)
  {}

  /** Nobody is indexed under the session of a tunnel that is not in its pool yet. */
  lemma NotIndexedYet(c: Bindings, st: State, s: string)
    requires Inv(c, st) && s in st.regs && !InPool(st.regs[s].pc)
    ensures s !in st.bySess && !Member(st.pools, st.regs[s].tunnel)
  {
    assert RegOk(c, s, st.regs[s], st.pools);
    if s in st.bySess {
      MemberCameThrough(st.pools, st.regs, st.bySess[s]);
    }
    if Member(st.pools, st.regs[s].tunnel) {
      MemberCameThrough(st.pools, st.regs, st.regs[s].tunnel);
    }
  }

  lemma RejectedStep(c: Bindings, st: State, s: string)
    requires Inv(c, st) && RegAt(st, s, Dropped) && st.regs[s].tunnel.id in c
    requires !HasId(PoolIn(st, st.regs[s].tunnel.subdomain), st.regs[s].tunnel.id)
    requires |PoolIn(st, st.regs[s].tunnel.subdomain)| >= c[st.regs[s].tunnel.id].maxClients
    ensures Inv(c, TurnAway(st, s))
  {
    var t := st.regs[s].tunnel;
    assert RegOk(c, s, st.regs[s], st.pools);
    RegMoves(c, st, s, Reg(t, Rejected));
    LockFollowsReg(st.lock, Free, st.regs, st.discs, s, Reg(t, Rejected));
    NothingMissing(st.pools, st.bySess, t.subdomain, t.id);
  }

  /** onConnect closes the transport of a tunnel that was turned away, after the lock is free. */
  lemma RegCloseStep(c: Bindings, st: State, s: string)
    requires Inv(c, st) && Enabled(c, st, RegClose(s))
    ensures Inv(c, Apply(c, st, RegClose(s)))
  {
    var t := st.regs[s].tunnel;
    assert RegOk(c, s, st.regs[s], st.pools);
    assert st.lock != ByReg(s);
    RegMoves(c, st, s, Reg(t, TurnedAway));
    LockFollowsReg(st.lock, st.lock, st.regs, st.discs, s, Reg(t, TurnedAway));
    HolderUnaffectedByReg(st.lock, st.regs, st.discs, st.pools, s, Reg(t, TurnedAway));
  }

  // ---- A tunnel enters its pool

  /** What the pools become, and who stays out of them. */
  lemma PutStaysOut(c: Bindings, st: State, s: string)
    requires s in st.regs && st.regs[s].pc == Dropped && st.regs[s].tunnel.subdomain in st.pools
    requires RegsOk(c, st.regs, st.pools) && PoolsOk(st.pools) && MembersOk(st.pools, st.regs)
    requires WorkersOk(st.workers, st.regs, st.pools) && GoneOk(st.gone, st.regs, st.pools)
    ensures var t := st.regs[s].tunnel;
      var pools', regs' := st.pools[t.subdomain := Put(st.pools[t.subdomain], t)], st.regs[s := Reg(t, Added)];
      && MembersOk(pools', regs') && WorkersOk(st.workers, regs', pools') && GoneOk(st.gone, regs', pools')
  {
    var t := st.regs[s].tunnel;
    var ms := st.pools[t.subdomain];
    var pools', regs' := st.pools[t.subdomain := Put(ms, t)], st.regs[s := Reg(t, Added)];
    PutMembers(ms, t);
    assert RegOk(c, s, st.regs[s], st.pools);
    forall k, m | k in pools' && m in pools'[k] && m != t ensures CameThroughRegister(m, regs') {
      assert m in st.pools[k];
      assert CameThroughRegister(m, st.regs);
    }
    forall w | w in st.workers ensures Retired(w, regs', pools') {
      assert Retired(w, st.regs, st.pools);
    }
    forall g | g in st.gone ensures IsRegistered(regs', g) && !Member(pools', regs'[g].tunnel) {
      assert IsRegistered(st.regs, g) && !Member(st.pools, st.regs[g].tunnel);
      assert RegOk(c, g, st.regs[g], st.pools);
    }
  }

  /** The tunnel that is replaced: it was registered, it leaves, and it had no worker yet. */
  lemma SupersededRetires(c: Bindings, st: State, s: string, previous: ClientTunnel)
    requires RegsOk(c, st.regs, st.pools) && PoolsOk(st.pools) && MembersOk(st.pools, st.regs)
    requires LockOk(st.lock, st.regs, st.discs)
    requires RegAt(st, s, Dropped) && st.regs[s].tunnel.subdomain in st.pools
    requires previous in st.pools[st.regs[s].tunnel.subdomain] && previous.id == st.regs[s].tunnel.id
    ensures var t := st.regs[s].tunnel;
      var pools', regs' := st.pools[t.subdomain := Put(st.pools[t.subdomain], t)], st.regs[s := Reg(t, Added)];
      Retired(previous, regs', pools')
  {
    var t := st.regs[s].tunnel;
    PutMembers(st.pools[t.subdomain], t);
    assert RegOk(c, s, st.regs[s], st.pools);
    assert CameThroughRegister(previous, st.regs);
    assert st.lock == ByReg(s);
  }

  lemma WorkerAdded(workers: seq<ClientTunnel>, w: ClientTunnel, regs: Regs, before: Pools, after: Pools)
    requires NoDuplicates(workers) && Member(before, w)
    requires forall x :: x in workers ==> !Member(before, x)
    requires WorkersOk(workers, regs, after) && Retired(w, regs, after)
    ensures NoDuplicates(workers + [w]) && WorkersOk(workers + [w], regs, after)
  {}

  lemma PutInOrder(ms: seq<ClientTunnel>, t: ClientTunnel, joined: map<ClientTunnel, nat>, clock: nat)
    requires InOrder(ms, joined, clock) && t !in ms
    ensures var i := IndexOf(ms, t.id);
      if i < |ms| then InOrder(Put(ms, t), joined[t := joined[ms[i]]], clock)
      else InOrder(Put(ms, t), joined[t := clock], clock + 1)
  {
    var i := IndexOf(ms, t.id);
    if i < |ms| {
      ReplacedInOrder(ms, i, t, joined, clock);
    } else {
      AppendedInOrder(ms, t, joined, clock);
    }
  }

  lemma ReplacedInOrder(ms: seq<ClientTunnel>, i: nat, t: ClientTunnel, joined: map<ClientTunnel, nat>, clock: nat)
    requires InOrder(ms, joined, clock) && t !in ms && i < |ms|
    ensures InOrder(ms[i := t], joined[t := joined[ms[i]]], clock)
  {
    var stamp := joined[ms[i]];
    forall k | 0 <= k < |ms|
      ensures ms[i := t][k] in joined[t := stamp] && joined[t := stamp][ms[i := t][k]] == joined[ms[k]]
    {
      assert ms[k] in ms;
    }
  }

  lemma AppendedInOrder(ms: seq<ClientTunnel>, t: ClientTunnel, joined: map<ClientTunnel, nat>, clock: nat)
    requires InOrder(ms, joined, clock) && t !in ms
    ensures InOrder(ms + [t], joined[t := clock], clock + 1)
  {
    forall k | 0 <= k < |ms| ensures joined[t := clock][ms[k]] == joined[ms[k]] {
      assert ms[k] in ms;
    }
  }

  lemma OrderAfterPut(pools: Pools, t: ClientTunnel, joined: map<ClientTunnel, nat>, clock: nat)
    requires OrderOk(pools, joined, clock) && t.subdomain in pools && !Member(pools, t) && PoolsOk(pools)
    ensures var ms := pools[t.subdomain];
      var i := IndexOf(ms, t.id);
      var pools' := pools[t.subdomain := Put(ms, t)];
      if i < |ms| then ms[i] in joined && OrderOk(pools', joined[t := joined[ms[i]]], clock)
      else OrderOk(pools', joined[t := clock], clock + 1)
  {
    var ms := pools[t.subdomain];
    PutInOrder(ms, t, joined, clock);
    forall k | k in pools ensures t !in pools[k] || k == t.subdomain {
      if t in pools[k] { assert t.subdomain == k; }
    }
    forall k | k in pools && k != t.subdomain
      ensures InOrder(pools[k], joined[t := clock], clock + 1)
      ensures IndexOf(ms, t.id) < |ms| ==> InOrder(pools[k], joined[t := joined[ms[IndexOf(ms, t.id)]]], clock)
    {
      assert InOrder(pools[k], joined, clock);
    }
  }

  lemma CapacityAfterPut(c: Bindings, pools: Pools, t: ClientTunnel)
    requires CapacityOk(c, pools) && t.subdomain in pools
    requires t.id in c && c[t.id].subdomain == t.subdomain
    requires HasId(pools[t.subdomain], t.id) || |pools[t.subdomain]| < c[t.id].maxClients
    ensures CapacityOk(c, pools[t.subdomain := Put(pools[t.subdomain], t)])
  {
    var ms := pools[t.subdomain];
    if HasId(ms, t.id) {
      assert FitsSomeBinding(c, t.subdomain, |ms|);
    } else {
      assert FitsSomeBinding(c, t.subdomain, |ms| + 1);
    }
  }

  /** What holds of the registrations, the pools and the index once t is in its pool. */
  lemma EntersPool(c: Bindings, st: State, s: string)
    requires Inv(c, st) && Enabled(c, st, RegAdd(s))
    requires st.regs[s].tunnel.subdomain in st.pools
    ensures var t := st.regs[s].tunnel;
      var pools', regs' := st.pools[t.subdomain := Put(st.pools[t.subdomain], t)], st.regs[s := Reg(t, Added)];
      && RegsOk(c, regs', pools') && MembersOk(pools', regs') && LockOk(st.lock, regs', st.discs)
      && DiscsOk(st.discs, regs') && WorkersOk(st.workers, regs', pools') && GoneOk(st.gone, regs', pools')
      && Agree(pools', st.bySess, Hole(t.subdomain, t.id))
      && st.lock == ByReg(s) && Member(pools', t) && !Member(st.pools, t)
  {
    var t := st.regs[s].tunnel;
    var pools', regs' := st.pools[t.subdomain := Put(st.pools[t.subdomain], t)], st.regs[s := Reg(t, Added)];
    assert RegOk(c, s, st.regs[s], st.pools);
    NotIndexedYet(c, st, s);
    PutStaysOut(c, st, s);
    PutMembers(st.pools[t.subdomain], t);
    RegsInMorePools(c, st.regs, st.pools, pools');
    RegsExtend(c, st.regs, pools', s, Reg(t, Added));
    LockFollowsReg(st.lock, st.lock, st.regs, st.discs, s, Reg(t, Added));
    DiscsPersist(st.discs, st.regs, regs');
    AddAgrees(st.pools, st.bySess, t);
  }

  lemma OneMoreWorker(c: Bindings, st: State, s: string, previous: ClientTunnel)
    requires RegsOk(c, st.regs, st.pools) && PoolsOk(st.pools) && MembersOk(st.pools, st.regs)
    requires LockOk(st.lock, st.regs, st.discs)
    requires NoDuplicates(st.workers) && WorkersOk(st.workers, st.regs, st.pools)
    requires RegAt(st, s, Dropped) && st.regs[s].tunnel.subdomain in st.pools
    requires previous in st.pools[st.regs[s].tunnel.subdomain] && previous.id == st.regs[s].tunnel.id
    ensures var t := st.regs[s].tunnel;
      var pools', regs' := st.pools[t.subdomain := Put(st.pools[t.subdomain], t)], st.regs[s := Reg(t, Added)];
      WorkersOk(st.workers, regs', pools') ==>
        NoDuplicates(st.workers + [previous]) && WorkersOk(st.workers + [previous], regs', pools')
  {
    var t := st.regs[s].tunnel;
    var pools', regs' := st.pools[t.subdomain := Put(st.pools[t.subdomain], t)], st.regs[s := Reg(t, Added)];
    SupersededRetires(c, st, s, previous);
    forall x | x in st.workers ensures !Member(st.pools, x) {
      assert Retired(x, st.regs, st.pools);
    }
    if WorkersOk(st.workers, regs', pools') {
      WorkerAdded(st.workers, previous, regs', st.pools, pools');
    }
  }

  lemma SupersedeStep(c: Bindings, st: State, s: string)
    requires Inv(c, st) && Enabled(c, st, RegAdd(s))
    requires st.regs[s].tunnel.subdomain in st.pools
    requires HasId(st.pools[st.regs[s].tunnel.subdomain], st.regs[s].tunnel.id)
    ensures Inv(c, Supersede(st, s))
  {
    SupersedeThreads(c, st, s);
    SupersedeLedger(c, st, s);
  }

  lemma SupersedeThreads(c: Bindings, st: State, s: string)
    requires Inv(c, st) && Enabled(c, st, RegAdd(s))
    requires st.regs[s].tunnel.subdomain in st.pools
    requires HasId(st.pools[st.regs[s].tunnel.subdomain], st.regs[s].tunnel.id)
    ensures Threads(c, Supersede(st, s))
  {
    EntersPool(c, st, s);
  }

  lemma SupersedeLedger(c: Bindings, st: State, s: string)
    requires Inv(c, st) && Enabled(c, st, RegAdd(s))
    requires st.regs[s].tunnel.subdomain in st.pools
    requires HasId(st.pools[st.regs[s].tunnel.subdomain], st.regs[s].tunnel.id)
    ensures Ledger(c, Supersede(st, s))
  {
    var t := st.regs[s].tunnel;
    var ms := st.pools[t.subdomain];
    assert RegOk(c, s, st.regs[s], st.pools);
    EntersPool(c, st, s);
    CapacityAfterPut(c, st.pools, t);
    OrderAfterPut(st.pools, t, st.joined, st.clock);
    OneMoreWorker(c, st, s, ms[IndexOf(ms, t.id)]);
  }

  lemma AppendStep(c: Bindings, st: State, s: string)
    requires Inv(c, st) && Enabled(c, st, RegAdd(s))
    requires st.regs[s].tunnel.subdomain in st.pools
    requires !HasId(st.pools[st.regs[s].tunnel.subdomain], st.regs[s].tunnel.id)
    requires |st.pools[st.regs[s].tunnel.subdomain]| < c[st.regs[s].tunnel.id].maxClients
    ensures Inv(c, Append(st, s))
  {
    AppendThreads(c, st, s);
    AppendLedger(c, st, s);
  }

  lemma AppendThreads(c: Bindings, st: State, s: string)
    requires Inv(c, st) && Enabled(c, st, RegAdd(s))
    requires st.regs[s].tunnel.subdomain in st.pools
    requires !HasId(st.pools[st.regs[s].tunnel.subdomain], st.regs[s].tunnel.id)
    requires |st.pools[st.regs[s].tunnel.subdomain]| < c[st.regs[s].tunnel.id].maxClients
    ensures Threads(c, Append(st, s))
  {
    EntersPool(c, st, s);
  }

  lemma AppendLedger(c: Bindings, st: State, s: string)
    requires Inv(c, st) && Enabled(c, st, RegAdd(s))
    requires st.regs[s].tunnel.subdomain in st.pools
    requires !HasId(st.pools[st.regs[s].tunnel.subdomain], st.regs[s].tunnel.id)
    requires |st.pools[st.regs[s].tunnel.subdomain]| < c[st.regs[s].tunnel.id].maxClients
    ensures Ledger(c, Append(st, s))
  {
    assert RegOk(c, s, st.regs[s], st.pools);
    EntersPool(c, st, s);
    CapacityAfterPut(c, st.pools, st.regs[s].tunnel);
    OrderAfterPut(st.pools, st.regs[s].tunnel, st.joined, st.clock);
  }

  lemma RegAddStep(c: Bindings, st: State, s: string)
    requires Inv(c, st) && Enabled(c, st, RegAdd(s))
    ensures Inv(c, AddStep(c, st, s))
  {
    var t := st.regs[s].tunnel;
    assert RegOk(c, s, st.regs[s], st.pools);
    var ms := st.pools[t.subdomain];
    if HasId(ms, t.id) {
      SupersedeStep(c, st, s);
    } else if |ms| >= c[t.id].maxClients {
      RejectedStep(c, st, s);
    } else {
      AppendStep(c, st, s);
    }
  }

  // ---- Disconnects

  lemma DiscStartStep(c: Bindings, st: State, d: nat, s: string)
    requires Inv(c, st) && Enabled(c, st, DiscStart(d, s))
    ensures Inv(c, Apply(c, st, DiscStart(d, s)))
  {
    assert st.lock != ByDisc(d);
    LockFollowsDisc(st.lock, st.lock, st.regs, st.discs, d, Disc(s, Get));
    HolderUnaffectedByDisc(st.lock, st.regs, st.discs, st.pools, d, Disc(s, Get));
  }

  /** The steps of onDisconnect before it takes the lock. */
  lemma DiscMoves(c: Bindings, st: State, d: nat, pc: DiscPc, closed: set<ClientTunnel>)
    requires Inv(c, st) && d in st.discs && !st.discs[d].pc.Removing? && !pc.Removing?
    ensures Inv(c, st.(discs := DiscTo(st, d, pc), closed := closed))
  {
    assert st.lock != ByDisc(d);
    LockFollowsDisc(st.lock, st.lock, st.regs, st.discs, d, st.discs[d].(pc := pc));
    HolderUnaffectedByDisc(st.lock, st.regs, st.discs, st.pools, d, st.discs[d].(pc := pc));
  }

  /** Taking the lock for a removal, on the parts of the state it involves. */
  lemma TakesLock(st: State, d: nat)
    requires st.lock.Free? && d in st.discs && st.discs[d].session in st.bySess
    requires LockOk(Free, st.regs, st.discs) && MembersOk(st.pools, st.regs) && DiscsOk(st.discs, st.regs)
    requires Agree(st.pools, st.bySess, NoHole)
    ensures var s := st.discs[d].session;
      var discs' := st.discs[d := Disc(s, Removing(st.bySess[s]))];
      && LockOk(ByDisc(d), st.regs, discs') && HolderOk(ByDisc(d), st.regs, discs', st.pools)
      && DiscsOk(discs', st.regs)
      && Agree(st.pools, st.bySess - {s}, HoleOf(ByDisc(d), st.regs, discs'))
  {
    var s := st.discs[d].session;
    var t := st.bySess[s];
    MemberCameThrough(st.pools, st.regs, t);
    LockFollowsDisc(Free, ByDisc(d), st.regs, st.discs, d, Disc(s, Removing(t)));
    UnindexAgrees(st.pools, st.bySess, s);
  }

  lemma DiscLockFound(c: Bindings, st: State, d: nat)
    requires Inv(c, st) && Enabled(c, st, DiscLock(d)) && st.discs[d].session in st.bySess
    ensures Inv(c, Apply(c, st, DiscLock(d)))
  {
    TakesLock(st, d);
  }

  lemma DiscLockMissing(c: Bindings, st: State, d: nat)
    requires Inv(c, st) && Enabled(c, st, DiscLock(d)) && st.discs[d].session !in st.bySess
    ensures Inv(c, Apply(c, st, DiscLock(d)))
  {
    var s := st.discs[d].session;
    DiscMoves(c, st, d, Done, st.closed);
    NotIndexedIsOut(c, st, s);
    GoneGrows(st.gone, s, st.regs, st.pools);
  }

  lemma NotIndexedIsOut(c: Bindings, st: State, s: string)
    requires RegsOk(c, st.regs, st.pools) && Agree(st.pools, st.bySess, NoHole) && s in st.regs && s !in st.bySess
    ensures !Member(st.pools, st.regs[s].tunnel)
  {
    assert RegOk(c, s, st.regs[s], st.pools);
    AgreeMeansExact(st.pools, st.bySess, s, st.regs[s].tunnel);
  }

  lemma DeleteInOrder(ms: seq<ClientTunnel>, id: string, joined: map<ClientTunnel, nat>, clock: nat)
    requires InOrder(ms, joined, clock)
    ensures InOrder(Delete(ms, id), joined, clock)
  {
    var i, ds := IndexOf(ms, id), Delete(ms, id);
    if i < |ms| {
      assert forall j :: 0 <= j < |ds| ==> ds[j] == ms[if j < i then j else j + 1];
    }
  }

  lemma CapacityAfterDelete(c: Bindings, pools: Pools, sub: string, id: string)
    requires CapacityOk(c, pools) && sub in pools
    ensures CapacityOk(c, pools[sub := Delete(pools[sub], id)])
  {
    if Delete(pools[sub], id) != [] {
      assert FitsSomeBinding(c, sub, |pools[sub]|);
      var b :| b in c && c[b].subdomain == sub && |pools[sub]| <= c[b].maxClients;
      assert FitsSomeBinding(c, sub, |Delete(pools[sub], id)|);
    }
  }

  /** A member leaves its pool, on the parts of the state it involves. */
  lemma LeavesPool(c: Bindings, st: State, t: ClientTunnel)
    requires RegsOk(c, st.regs, st.pools) && MembersOk(st.pools, st.regs) && PoolsOk(st.pools)
    requires WorkersOk(st.workers, st.regs, st.pools) && GoneOk(st.gone, st.regs, st.pools)
    requires CapacityOk(c, st.pools) && OrderOk(st.pools, st.joined, st.clock) && Member(st.pools, t)
    ensures var pools' := st.pools[t.subdomain := Delete(st.pools[t.subdomain], t.id)];
      && RegsOk(c, st.regs, pools') && MembersOk(pools', st.regs) && WorkersOk(st.workers, st.regs, pools')
      && GoneOk(st.gone, st.regs, pools') && CapacityOk(c, pools') && OrderOk(pools', st.joined, st.clock)
      && !Member(pools', t)
  {
    var pools' := st.pools[t.subdomain := Delete(st.pools[t.subdomain], t.id)];
    DeleteMembers(st.pools[t.subdomain], t.id);
    FewerMembers(st, pools');
    RegsInMorePools(c, st.regs, st.pools, pools');
    DeleteInOrder(st.pools[t.subdomain], t.id, st.joined, st.clock);
    CapacityAfterDelete(c, st.pools, t.subdomain, t.id);
  }

  /** Leaving the lock after a removal, on the parts of the state it involves. */
  lemma ReleasesLock(st: State, d: nat)
    requires d in st.discs && st.discs[d].pc.Removing?
    requires LockOk(st.lock, st.regs, st.discs) && HolderOk(st.lock, st.regs, st.discs, st.pools)
    requires DiscsOk(st.discs, st.regs) && Agree(st.pools, st.bySess, HoleOf(st.lock, st.regs, st.discs))
    ensures var t, s := st.discs[d].pc.victim, st.discs[d].session;
      var discs' := st.discs[d := Disc(s, Done)];
      && Member(st.pools, t) && IsRegistered(st.regs, s) && st.regs[s].tunnel == t
      && LockOk(Free, st.regs, discs') && DiscsOk(discs', st.regs)
      && Agree(st.pools[t.subdomain := Delete(st.pools[t.subdomain], t.id)], st.bySess, NoHole)
  {
    var t, s := st.discs[d].pc.victim, st.discs[d].session;
    assert st.lock == ByDisc(d);
    LockFollowsDisc(st.lock, Free, st.regs, st.discs, d, Disc(s, Done));
    DeleteAgrees(st.pools, st.bySess, t.subdomain, t.id);
  }

  lemma DiscRemoveStep(c: Bindings, st: State, d: nat)
    requires Inv(c, st) && Enabled(c, st, DiscRemove(d))
    ensures Inv(c, Apply(c, st, DiscRemove(d)))
  {
    RemoveThreads(c, st, d);
    RemoveLedger(c, st, d);
  }

  lemma RemoveThreads(c: Bindings, st: State, d: nat)
    requires Inv(c, st) && Enabled(c, st, DiscRemove(d))
    ensures Threads(c, Apply(c, st, DiscRemove(d)))
  {
    ReleasesLock(st, d);
    LeavesPool(c, st, st.discs[d].pc.victim);
  }

  lemma RemoveLedger(c: Bindings, st: State, d: nat)
    requires Inv(c, st) && Enabled(c, st, DiscRemove(d))
    ensures Ledger(c, Apply(c, st, DiscRemove(d)))
  {
    var s, t := st.discs[d].session, st.discs[d].pc.victim;
    ReleasesLock(st, d);
    LeavesPool(c, st, t);
    GoneGrows(st.gone, s, st.regs, st.pools[t.subdomain := Delete(st.pools[t.subdomain], t.id)]);
  }

  lemma GoneGrows(gone: set<string>, s: string, regs: Regs, pools: Pools)
    requires GoneOk(gone, regs, pools) && IsRegistered(regs, s) && !Member(pools, regs[s].tunnel)
    ensures GoneOk(gone + {s}, regs, pools)
  {}

  // ---- All runs

  lemma RegisterKeepsInv(c: Bindings, st: State, act: Action)
    requires Inv(c, st) && Enabled(c, st, act)
    requires IsReg(act) && !act.OnConnect?
    ensures Inv(c, Apply(c, st, act))
  {
    match act
    case RegLock(s) => RegLockStep(c, st, s);
    case RegDrop(s) => RegDropStep(c, st, s);
    case RegAdd(s) => RegAddStep(c, st, s);
    case RegHealthy(s) => RegHealthyStep(c, st, s);
    case RegIndex(s) => RegIndexStep(c, st, s);
    case RegClose(s) => RegCloseStep(c, st, s);
  }

  lemma DisconnectKeepsInv(c: Bindings, st: State, act: Action)
    requires Inv(c, st) && Enabled(c, st, act)
    requires act.DiscStart? || act.DiscGet? || act.DiscClose?
    ensures Inv(c, Apply(c, st, act))
  {
    match act
    case DiscStart(d, s) => DiscStartStep(c, st, d, s);
    case DiscGet(d) =>
      var s := st.discs[d].session;
      DiscMoves(c, st, d, if s in st.bySess then CloseTransport(st.bySess[s]) else WaitForLock, st.closed);
    case DiscClose(d) => DiscMoves(c, st, d, WaitForLock, st.closed + {st.discs[d].pc.t});
  }

  lemma RemovalKeepsInv(c: Bindings, st: State, act: Action)
    requires Inv(c, st) && Enabled(c, st, act)
    requires act.DiscLock? || act.DiscRemove?
    ensures Inv(c, Apply(c, st, act))
  {
    if act.DiscRemove? {
      DiscRemoveStep(c, st, act.d);
    } else if st.discs[act.d].session in st.bySess {
      DiscLockFound(c, st, act.d);
    } else {
      DiscLockMissing(c, st, act.d);
    }
  }

  lemma StepKeepsInv(c: Bindings, st: State, act: Action)
    requires Inv(c, st) && Enabled(c, st, act)
    ensures Inv(c, Apply(c, st, act))
  {
    if act.OnConnect? {
      OnConnectStep(c, st, act.a, act.tunnel);
    } else if IsReg(act) {
      RegisterKeepsInv(c, st, act);
    } else if act.DiscStart? || act.DiscGet? || act.DiscClose? {
      DisconnectKeepsInv(c, st, act);
    } else if act.DiscLock? || act.DiscRemove? {
      RemovalKeepsInv(c, st, act);
    } else {
      OutsideStep(c, st, Apply(c, st, act));
    }
  }

  /** Every reachable state satisfies the invariant, whatever the interleaving. */
  lemma {:induction false} RunKeepsInv(c: Bindings, st: State, acts: seq<Action>, st': State)
    requires Inv(c, st) && Reaches(c, st, acts, st')
    ensures Inv(c, st')
    decreases |acts|
  {
    if acts != [] {
      StepKeepsInv(c, st, acts[0]);
      RunKeepsInv(c, Apply(c, st, acts[0]), acts[1..], st');
    }
  }
}
