/** Whose tunnel answers for a path prefix: pools belong to hosts, so the clients bound to prefixes
    of one host share a pool, and each of them can be the one that is picked. */
module Sharing {
  import opened Paths
  import opened Config
  import opened Registry
  import opened Router
  import opened Hooks
  import opened Handles
  import opened Runs

  // ---- Who can be in a pool

  /** Only clients with room for a tunnel ever have one. */
  ghost predicate MembersAllowed(c: Bindings, pools: Pools) {
    forall k, m :: k in pools && m in pools[k] ==> m.id in c && c[m.id].maxClients >= 1
  }

  lemma AllowedAfterPut(c: Bindings, pools: Pools, t: ClientTunnel, ms: seq<ClientTunnel>)
    requires MembersAllowed(c, pools) && DistinctIds(ms) && t.id in c
    requires ms == if t.subdomain in pools then pools[t.subdomain] else []
    requires HasId(ms, t.id) || |ms| < c[t.id].maxClients
    ensures MembersAllowed(c, pools[t.subdomain := Put(ms, t)])
  {
    PutMembers(ms, t);
    if HasId(ms, t.id) {
      assert ms[IndexOf(ms, t.id)] in pools[t.subdomain];
    }
  }

  lemma AllowedAfterDelete(c: Bindings, pools: Pools, sub: string, id: string)
    requires MembersAllowed(c, pools) && sub in pools && DistinctIds(pools[sub])
    ensures MembersAllowed(c, pools[sub := Delete(pools[sub], id)])
  {
    DeleteMembers(pools[sub], id);
  }

  lemma AllowedStep(c: Bindings, st: State, act: Action)
    requires PoolsOk(st.pools) && MembersAllowed(c, st.pools) && Enabled(c, st, act)
    ensures MembersAllowed(c, PoolsAfter(c, st, act))
  {
    match act
    case RegAdd(s) =>
      var t := st.regs[s].tunnel;
      if Admits(c, st, s) {
        AllowedAfterPut(c, st.pools, t, PoolIn(st, t.subdomain));
      }
    case DiscRemove(d) =>
      var t := st.discs[d].pc.victim;
      if t.subdomain in st.pools {
        AllowedAfterDelete(c, st.pools, t.subdomain, t.id);
      }
    case _ =>
  }

  lemma {:induction false} RunKeepsAllowed(c: Bindings, st: State, acts: seq<Action>, st': State)
    requires Inv(c, st) && MembersAllowed(c, st.pools) && Reaches(c, st, acts, st')
    ensures Inv(c, st') && MembersAllowed(c, st'.pools)
    decreases |acts|
  {
    if acts != [] {
      StepEffect(c, st, acts[0]);
      AllowedStep(c, st, acts[0]);
      StepKeepsInv(c, st, acts[0]);
      RunKeepsAllowed(c, Apply(c, st, acts[0]), acts[1..], st');
    }
  }

  /** A member of a host's pool belongs to a client of that host which may have a tunnel. */
  lemma MembersComeFromTheHost(c: Bindings, first: State, acts: seq<Action>, st: State, k: string, m: ClientTunnel)
    requires Run(c, first, acts, st) && m in PoolIn(st, k)
    ensures m.id in c && c[m.id].subdomain == k && c[m.id].maxClients >= 1
  {
    InitialInv(c, first);
    RunKeepsAllowed(c, first, acts, st);
    MemberCameThrough(st.pools, st.regs, m);
    assert RegOk(c, m.session.id, st.regs[m.session.id], st.pools);
  }

  // ---- A run in which one client is alone in its pool

  lemma {:induction false} Extend(c: Bindings, st: State, acts: seq<Action>, mid: State, act: Action)
    requires Reaches(c, st, acts, mid) && Enabled(c, mid, act)
    ensures Reaches(c, st, acts + [act], Apply(c, mid, act))
    decreases |acts|
  {
    if acts == [] {
      assert ([] + [act])[1..] == [];
    } else {
      Extend(c, Apply(c, st, acts[0]), acts[1..], mid, act);
      assert (acts + [act])[1..] == acts[1..] + [act];
    }
  }

  /** A server on which one client is being authenticated. */
  predicate Authenticating(first: State, st: State, a: nat, x: Auth) {
    st == first.(auths := map[a := x])
  }

  lemma Starts(c: Bindings, first: State, a: nat, id: string)
    requires Initial(first) && id in c
    ensures Enabled(c, first, AuthStart(a, id))
    ensures Authenticating(first, Apply(c, first, AuthStart(a, id)), a, Auth(id, FindPool))
  {}

  function NextCheck(a: nat, pc: AuthPc): Action
    requires pc != Admitted && pc != Refused
  {
    match pc
    case FindPool => AuthFindPool(a)
    case FindClient => AuthFindClient(a)
    case CountMembers => AuthCount(a)
  }

  function ChecksLeft(pc: AuthPc): nat {
    match pc
    case FindPool => 3
    case FindClient => 2
    case CountMembers => 1
    case _ => 0
  }

  lemma AuthMoves(c: Bindings, first: State, st: State, a: nat, id: string, pc: AuthPc) returns (next: AuthPc)
    requires Initial(first) && id in c && c[id].maxClients >= 1 && pc != Admitted && pc != Refused
    requires Authenticating(first, st, a, Auth(id, pc))
    ensures Enabled(c, st, NextCheck(a, pc))
    ensures Authenticating(first, Apply(c, st, NextCheck(a, pc)), a, Auth(id, next))
    ensures next != Refused && ChecksLeft(next) < ChecksLeft(pc)
  {
    assert PoolIn(st, c[id].subdomain) == [];
    next := if pc == FindPool && c[id].subdomain in first.pools then FindClient
      else if pc == FindClient then CountMembers else Admitted;
  }

  lemma {:induction false} IsAdmitted(c: Bindings, first: State, acts: seq<Action>, st: State,
                                       a: nat, id: string, pc: AuthPc)
    returns (all: seq<Action>, last: State)
    requires Initial(first) && id in c && c[id].maxClients >= 1 && pc != Refused
    requires Reaches(c, first, acts, st) && Authenticating(first, st, a, Auth(id, pc))
    ensures Reaches(c, first, all, last) && Authenticating(first, last, a, Auth(id, Admitted))
    decreases ChecksLeft(pc)
  {
    if pc == Admitted {
      all, last := acts, st;
    } else {
      var next := AuthMoves(c, first, st, a, id, pc);
      Extend(c, first, acts, st, NextCheck(a, pc));
      all, last := IsAdmitted(c, first, acts + [NextCheck(a, pc)], Apply(c, st, NextCheck(a, pc)), a, id, next);
    }
  }

  /** Register has come this far for t, and nothing else was registered before it. */
  ghost predicate Alone(st: State, t: ClientTunnel, s: string, pc: RegPc) {
    && st.regs == map[s := Reg(t, pc)]
    && st.discs == map[] && st.closed == {} && st.workers == []
    && st.bySess == (if pc == Registered then map[s := t] else map[])
    && PoolIn(st, t.subdomain) == (if InPool(pc) then [t] else [])
    && (pc == Waiting ==> st.lock == Free)
    && (pc == Healthy || pc == Registered ==> t in st.healthy)
  }

  lemma Connects(c: Bindings, first: State, st: State, a: nat, t: ClientTunnel)
    requires Initial(first) && Authenticating(first, st, a, Auth(t.id, Admitted))
    requires t.session != null && t.id in c && t.subdomain == c[t.id].subdomain
    ensures Enabled(c, st, OnConnect(a, t)) && Alone(Apply(c, st, OnConnect(a, t)), t, t.session.id, Waiting)
  {}

  function NextStep(s: string, pc: RegPc): (Action, RegPc)
    requires pc == Waiting || Critical(pc)
  {
    match pc
    case Waiting => (RegLock(s), Locked)
    case Locked => (RegDrop(s), Dropped)
    case Dropped => (RegAdd(s), Added)
    case Added => (RegHealthy(s), Healthy)
    case Healthy => (RegIndex(s), Registered)
  }

  lemma GoesOn(c: Bindings, st: State, t: ClientTunnel, s: string, pc: RegPc)
    requires Alone(st, t, s, pc) && (pc == Waiting || Critical(pc))
    requires t.id in c && c[t.id].maxClients >= 1
    ensures var (act, next) := NextStep(s, pc);
      Enabled(c, st, act) && Alone(Apply(c, st, act), t, s, next)
  {
    if pc == Dropped {
      assert Apply(c, st, RegAdd(s)) == AddStep(c, st, s) == Append(st, s);
      assert [] + [t] == [t];
    }
  }

  function StepsLeft(pc: RegPc): nat {
    match pc
    case Waiting => 5
    case Locked => 4
    case Dropped => 3
    case Added => 2
    case Healthy => 1
    case _ => 0
  }

  lemma {:induction false} GoesThrough(c: Bindings, first: State, acts: seq<Action>, st: State,
                                        t: ClientTunnel, s: string, pc: RegPc)
    returns (all: seq<Action>, last: State)
    requires Reaches(c, first, acts, st) && Alone(st, t, s, pc) && (pc == Waiting || InPool(pc) || Critical(pc))
    requires t.id in c && c[t.id].maxClients >= 1
    ensures Reaches(c, first, all, last) && Alone(last, t, s, Registered)
    decreases StepsLeft(pc)
  {
    if pc == Registered {
      all, last := acts, st;
    } else {
      var (act, next) := NextStep(s, pc);
      GoesOn(c, st, t, s, pc);
      Extend(c, first, acts, st, act);
      all, last := GoesThrough(c, first, acts + [act], Apply(c, st, act), t, s, next);
    }
  }

  /** Any client that may have a tunnel can be alone in its pool, healthy and open. */
  lemma CanBeAlone(c: Bindings, first: State, t: ClientTunnel) returns (acts: seq<Action>, st: State)
    requires Initial(first) && t.session != null
    requires t.id in c && t.subdomain == c[t.id].subdomain && c[t.id].maxClients >= 1
    ensures Run(c, first, acts, st) && Alone(st, t, t.session.id, Registered)
  {
    var start := AuthStart(0, t.id);
    var mid: State;
    Starts(c, first, 0, t.id);
    Extend(c, first, [], first, start);
    acts, mid := IsAdmitted(c, first, [] + [start], Apply(c, first, start), 0, t.id, FindPool);
    Connects(c, first, mid, 0, t);
    Extend(c, first, acts, mid, OnConnect(0, t));
    mid := Apply(c, mid, OnConnect(0, t));
    acts, st := GoesThrough(c, first, acts + [OnConnect(0, t)], mid, t, t.session.id, Waiting);
  }

  // ---- One client per prefix

  /** A tunnel that the client with this ID could connect with. */
  predicate Connectable(c: Bindings, id: string, t: ClientTunnel) {
    id in c && t.id == id && t.subdomain == c[id].subdomain && t.session != null
  }

  /** The pool behind a client's routes holds no other client's tunnel in any reachable state
      exactly when no other client that may have a tunnel is bound to the same host. */
  lemma OwnClientOnlyExactly(c: Bindings, first: State, own: string, supply: map<string, ClientTunnel>)
    requires Initial(first) && own in c
    requires forall id :: id in c ==> id in supply && Connectable(c, id, supply[id])
    ensures (forall acts, st, m :: Run(c, first, acts, st) && m in PoolIn(st, c[own].subdomain) ==> m.id == own)
      <==> (forall id :: id in c && id != own && c[id].subdomain == c[own].subdomain ==> c[id].maxClients < 1)
  {
    var k := c[own].subdomain;
    if id :| id in c && id != own && c[id].subdomain == k && c[id].maxClients >= 1 {
      var acts, st := CanBeAlone(c, first, supply[id]);
      assert supply[id] in PoolIn(st, k);
    } else {
      forall acts, st, m | Run(c, first, acts, st) && m in PoolIn(st, k) ensures m.id == own {
        MembersComeFromTheHost(c, first, acts, st, k, m);
      }
    }
  }

  // ---- And the routes

  /** NewClientRegistry. */
  function ByClient(clients: seq<ClientBinding>): Bindings {
    if clients == [] then map[]
    else ByClient(clients[..|clients| - 1])[clients[|clients| - 1].clientId := clients[|clients| - 1]]
  }

  lemma {:induction false} ByClientFinds(clients: seq<ClientBinding>, j: nat)
    requires j < |clients| && forall i :: 0 <= i < |clients| && i != j ==> clients[i].clientId != clients[j].clientId
    ensures clients[j].clientId in ByClient(clients) && ByClient(clients)[clients[j].clientId] == clients[j]
  {
    if j < |clients| - 1 {
      ByClientFinds(clients[..|clients| - 1], j);
    }
  }

  /** So a request under the prefix of one client, answered by that client's own route and no other,
      can be given the tunnel of another client: the one member of the pool in the route. */
  lemma AnotherClientAnswers(clients: seq<ClientBinding>, i: nat, j: nat, pool: TunnelPool, rs: seq<Route>,
                             q: string, first: Server, t: ClientTunnel)
    requires ValidBindings(clients) && i < |clients| && j < |clients| && i != j
    requires clients[j].subdomain == clients[i].subdomain && clients[j].maxClients >= 1
    requires multiset(rs) == multiset(RoutesOf(clients, clients[i].subdomain, pool))
    requires !CatchAll(EntryOf(clients[i]).prefix) && Under(EntryOf(clients[i]).prefix, q)
    requires Compiled(first) && clients[i].subdomain in first.routes
    requires t.session != null && t.id == clients[j].clientId && t.subdomain == clients[j].subdomain
    ensures forall r :: Best(rs, q, r) <==> r == RouteOf(clients[i], pool)
    ensures t.id != clients[i].clientId
    ensures exists acts, sv ::
      && LeadsTo(ByClient(clients), first, acts, sv) && OnlyUsable(sv, clients[i].subdomain, t)
  {
    forall r ensures Best(rs, q, r) <==> r == RouteOf(clients[i], pool) {
      BindingAnswersItsPaths(clients, i, pool, rs, q, r);
    }
    assert forall n :: 0 <= n < |clients| && n != j ==>
      Separate(clients[n], clients[j]) || Separate(clients[j], clients[n]);
    ByClientFinds(clients, j);
    var acts, sv := AloneBehindRoute(ByClient(clients), first, t);
  }

  /** The pool in the routes of a host holds this tunnel only, and the balancer can pick it. */
  predicate OnlyUsable(sv: Server, host: string, t: ClientTunnel) {
    && host in sv.routes && MembersOf(sv, sv.routes[host]) == [t]
    && t in sv.rest.healthy && t !in sv.rest.closed && t !in sv.rest.workers
  }

  lemma AloneBehindRoute(c: Bindings, first: Server, t: ClientTunnel) returns (acts: seq<Action>, sv: Server)
    requires Compiled(first) && t.subdomain in first.routes && t.session != null
    requires t.id in c && t.subdomain == c[t.id].subdomain && c[t.id].maxClients >= 1
    ensures LeadsTo(c, first, acts, sv) && OnlyUsable(sv, t.subdomain, t)
  {
    var st: State;
    acts, st := CanBeAlone(c, Named(first), t);
    sv := RunLifts(c, first, acts, st);
    RoutesNeverStale(c, first, acts, sv, t.subdomain);
  }
}
