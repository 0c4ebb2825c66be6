/** Who gets in: what authenticateConnect, Register and SetLocalHealth decide when the other
    goroutines rest between their steps. */
module Admission {
  import opened Registry
  import opened Hooks
  import opened Runs
  import opened Refine
  import opened Sharing

  lemma HasIdExactly(ms: seq<ClientTunnel>, id: string)
    ensures HasId(ms, id) <==> exists m :: m in ms && m.id == id
  {
    NoneBefore(ms, id);
    if HasId(ms, id) {
      assert ms[IndexOf(ms, id)] in ms;
    }
  }

  // ---- Authentication

  /** The host has a pool, which is full, and the client has no tunnel in it to replace. */
  ghost predicate NoRoomFor(c: Bindings, pools: Pools, id: string)
    requires id in c
  {
    var sub := c[id].subdomain;
    sub in pools && |pools[sub]| >= c[id].maxClients && forall m :: m in pools[sub] ==> m.id != id
  }

  predicate AuthStepsOf(acts: seq<Action>, a: nat) {
    forall i :: 0 <= i < |acts| ==>
      (acts[i].AuthFindPool? || acts[i].AuthFindClient? || acts[i].AuthCount?) && acts[i].a == a
  }

  /** What an authentication knows about the pools, by how far it is. */
  ghost predicate Knows(c: Bindings, pools: Pools, x: Auth) {
    && x.client in c
    && var sub := c[x.client].subdomain;
       match x.pc
       case FindPool => true
       case FindClient => sub in pools
       case CountMembers => sub in pools && forall m :: m in pools[sub] ==> m.id != x.client
       case Admitted => !NoRoomFor(c, pools, x.client)
       case Refused => NoRoomFor(c, pools, x.client)
  }

  /** Only this authentication has moved. */
  ghost predicate Checked(c: Bindings, before: State, a: nat, x: Auth, st: State) {
    st == before.(auths := before.auths[a := x]) && Knows(c, before.pools, x)
  }

  lemma AuthStepKnows(c: Bindings, before: State, a: nat, x: Auth, st: State, act: Action) returns (next: Auth)
    requires Checked(c, before, a, x, st) && Enabled(c, st, act)
    requires (act.AuthFindPool? || act.AuthFindClient? || act.AuthCount?) && act.a == a
    ensures Checked(c, before, a, next, Apply(c, st, act)) && next.client == x.client
    ensures ChecksLeft(next.pc) < ChecksLeft(x.pc)
  {
    HasIdExactly(PoolIn(before, c[x.client].subdomain), x.client);
    next := Apply(c, st, act).auths[a];
    assert Apply(c, st, act).auths == before.auths[a := next];
  }

  lemma {:induction false} AuthRunKnows(c: Bindings, before: State, a: nat, x: Auth, st: State,
                                        acts: seq<Action>, st': State)
    returns (last: Auth)
    requires Checked(c, before, a, x, st) && AuthStepsOf(acts, a) && Reaches(c, st, acts, st')
    ensures Checked(c, before, a, last, st') && last.client == x.client
    decreases |acts|
  {
    if acts == [] {
      last := x;
    } else {
      var next := AuthStepKnows(c, before, a, x, st, acts[0]);
      last := AuthRunKnows(c, before, a, next, Apply(c, st, acts[0]), acts[1..], st');
    }
  }

  lemma StartKnows(c: Bindings, before: State, a: nat, id: string)
    requires id in c && a !in before.auths
    ensures Enabled(c, before, AuthStart(a, id))
    ensures Checked(c, before, a, Auth(id, FindPool), Apply(c, before, AuthStart(a, id)))
  {}

  /** An authentication that runs by itself is refused exactly if the pool of its host exists, is
      full and holds no tunnel of this client, and admitted exactly if not. */
  lemma RefusedExactly(c: Bindings, before: State, a: nat, id: string, acts: seq<Action>, st: State)
    requires id in c && a !in before.auths
    requires AuthStepsOf(acts, a) && Reaches(c, Apply(c, before, AuthStart(a, id)), acts, st)
    requires AuthAt(st, a, Admitted) || AuthAt(st, a, Refused)
    ensures AuthAt(st, a, Refused) <==> NoRoomFor(c, before.pools, id)
    ensures st == before.(auths := st.auths)
  {
    StartKnows(c, before, a, id);
    var last := AuthRunKnows(c, before, a, Auth(id, FindPool), Apply(c, before, AuthStart(a, id)), acts, st);
  }

  /** And it comes to a decision, when nobody holds the registry lock. */
  lemma {:induction false} AuthDecides(c: Bindings, before: State, a: nat, x: Auth, st: State)
    returns (acts: seq<Action>, st': State, last: Auth)
    requires Checked(c, before, a, x, st) && st.lock.Free?
    ensures AuthStepsOf(acts, a) && Reaches(c, st, acts, st') && Checked(c, before, a, last, st')
    ensures last.client == x.client && (last.pc == Admitted || last.pc == Refused)
    decreases ChecksLeft(x.pc)
  {
    if x.pc == Admitted || x.pc == Refused {
      acts, st', last := [], st, x;
    } else {
      var act := NextCheck(a, x.pc);
      assert Enabled(c, st, act);
      var next := AuthStepKnows(c, before, a, x, st, act);
      var rest;
      rest, st', last := AuthDecides(c, before, a, next, Apply(c, st, act));
      acts := [act] + rest;
      assert acts[1..] == rest;
    }
  }

  // ---- Registration

  lemma {:induction false} Chain(c: Bindings, st: State, acts: seq<Action>, mid: State, more: seq<Action>, last: State)
    requires Reaches(c, st, acts, mid) && Reaches(c, mid, more, last)
    ensures Reaches(c, st, acts + more, last)
    decreases |acts|
  {
    if acts == [] {
      assert [] + more == more;
    } else {
      Chain(c, Apply(c, st, acts[0]), acts[1..], mid, more, last);
      assert (acts + more)[1..] == acts[1..] + more;
    }
  }

  /** Each step of Register leads to the next one. */
  lemma NextPc(c: Bindings, st: State, s: string)
    requires s in st.regs && Critical(st.regs[s].pc) && st.regs[s].tunnel.id in c
    requires st.regs[s].pc == Dropped ==> Admits(c, st, s)
    ensures var (act, pc) := NextStep(s, st.regs[s].pc);
      && Enabled(c, st, act) && s in Apply(c, st, act).regs
      && Apply(c, st, act).regs[s] == Reg(st.regs[s].tunnel, pc)
  {
    if st.regs[s].pc == Dropped {
      AddOutcomes(c, st, s);
      assert Apply(c, st, RegAdd(s)) == AddStep(c, st, s);
    }
  }

  /** Register is underway for t, which the pool has room for, and holds the lock. */
  ghost predicate Going(c: Bindings, pools: Pools, sess: Sessions, t: ClientTunnel, s: string, st: State) {
    && Underway(c, pools, sess, t, s, st) && st.lock == ByReg(s) && Critical(st.regs[s].pc)
    && t.session != null && t.session.id == s && t.id in c && Refine.Admitted(c, pools, t)
  }

  lemma GoesOnTo(c: Bindings, pools: Pools, sess: Sessions, t: ClientTunnel, s: string, st: State)
    returns (act: Action, next: State)
    requires Going(c, pools, sess, t, s, st)
    ensures Enabled(c, st, act) && next == Apply(c, st, act)
    ensures act == NextStep(s, st.regs[s].pc).0
    ensures s in next.regs && next.regs[s].pc == NextStep(s, st.regs[s].pc).1
    ensures if next.regs[s].pc == Registered then Through(c, pools, sess, t, s, next)
      else Going(c, pools, sess, t, s, next)
  {
    act := NextStep(s, st.regs[s].pc).0;
    if st.regs[s].pc == Dropped {
      assert PoolIn(st, t.subdomain) == MembersIn(pools, t.subdomain);
    }
    NextPc(c, st, s);
    next := Apply(c, st, act);
    OwnStep(c, pools, sess, t, s, st, act);
  }

  predicate RegisterStepsOf(acts: seq<Action>, s: string) {
    forall i :: 0 <= i < |acts| ==> RegisterStepOf(acts[i], s)
  }

  predicate RegisterStepOf(act: Action, s: string) {
    (act.RegLock? || act.RegDrop? || act.RegAdd? || act.RegHealthy? || act.RegIndex?) && act.s == s
  }

  /** A registration that the pool has room for goes through when it runs by itself. */
  lemma {:induction false} RegistersByItself(c: Bindings, pools: Pools, sess: Sessions, t: ClientTunnel, s: string,
                                             first: State, acts: seq<Action>, st: State)
    returns (all: seq<Action>, last: State)
    requires Going(c, pools, sess, t, s, st)
    requires Reaches(c, first, acts, st) && RegisterStepsOf(acts, s)
    ensures Reaches(c, first, all, last) && Through(c, pools, sess, t, s, last) && RegisterStepsOf(all, s)
    decreases StepsLeft(st.regs[s].pc)
  {
    var act, next := GoesOnTo(c, pools, sess, t, s, st);
    Extend(c, first, acts, st, act);
    assert RegisterStepOf(act, s);
    if next.regs[s].pc == Registered {
      all, last := acts + [act], next;
    } else {
      all, last := RegistersByItself(c, pools, sess, t, s, first, acts + [act], next);
    }
  }

  // ---- From the request to the pool

  /** The steps of one client on its way in: its authentication a, its connect, and the registration
      of its tunnel. */
  predicate OwnSteps(acts: seq<Action>, a: nat, t: ClientTunnel) {
    t.session != null && forall i :: 0 <= i < |acts| ==> OwnStepOf(acts[i], a, t)
  }

  predicate OwnStepOf(act: Action, a: nat, t: ClientTunnel)
    requires t.session != null
  {
    || act == AuthStart(a, t.id) || act == AuthFindPool(a) || act == AuthFindClient(a) || act == AuthCount(a)
    || act == OnConnect(a, t) || RegisterStepOf(act, t.session.id)
  }

  /** A client that authenticates and connects with a new tunnel. */
  predicate CanConnect(c: Bindings, st: State, a: nat, t: ClientTunnel) {
    && a !in st.auths && t.id in c && t.subdomain == c[t.id].subdomain
    && t.session != null && t.session.id !in st.regs
  }

  lemma ConnectsAfterAuth(c: Bindings, before: State, a: nat, t: ClientTunnel, st: State)
    requires CanConnect(c, before, a, t) && before.lock.Free?
    requires Checked(c, before, a, Auth(t.id, AuthPc.Admitted), st)
    ensures Enabled(c, st, OnConnect(a, t))
    ensures var st' := Apply(c, st, OnConnect(a, t));
      && st'.pools == before.pools && st'.bySess == before.bySess && st'.lock.Free?
      && st'.auths == before.auths // the admission is used up
      && t.session.id in st'.regs && st'.regs[t.session.id] == Reg(t, Waiting)
  {}

  lemma LocksFirst(c: Bindings, st: State, t: ClientTunnel, s: string)
    requires s in st.regs && st.regs[s] == Reg(t, Waiting) && st.lock.Free?
    requires t.session != null && t.session.id == s && t.id in c && Refine.Admitted(c, st.pools, t)
    ensures Enabled(c, st, RegLock(s)) && Going(c, st.pools, st.bySess, t, s, Apply(c, st, RegLock(s)))
  {
    LockStep(c, st, s);
    assert Apply(c, st, RegLock(s)).regs[s].pc == Locked;
  }

  lemma AdmittedHasRoom(c: Bindings, pools: Pools, t: ClientTunnel)
    requires t.id in c && t.subdomain == c[t.id].subdomain && Refine.Admitted(c, pools, t)
    ensures !NoRoomFor(c, pools, t.id)
  {
    HasIdExactly(MembersIn(pools, t.subdomain), t.id);
  }

  lemma AuthenticatesByItself(c: Bindings, before: State, a: nat, t: ClientTunnel)
    returns (acts: seq<Action>, mid: State)
    requires CanConnect(c, before, a, t) && before.lock.Free? && !NoRoomFor(c, before.pools, t.id)
    ensures OwnSteps(acts, a, t) && Reaches(c, before, acts, mid)
    ensures Checked(c, before, a, Auth(t.id, AuthPc.Admitted), mid)
  {
    var start := AuthStart(a, t.id);
    var next := Apply(c, before, start);
    StartKnows(c, before, a, t.id);
    var auth, st, decided := AuthDecides(c, before, a, Auth(t.id, FindPool), next);
    mid := st;
    acts := [start] + auth;
    assert acts[1..] == auth;
    AuthStepsAreOwn(auth, a, t);
  }

  lemma AuthStepsAreOwn(auth: seq<Action>, a: nat, t: ClientTunnel)
    requires AuthStepsOf(auth, a) && t.session != null
    ensures OwnSteps([AuthStart(a, t.id)] + auth, a, t)
  {}

  lemma RegistersAfterConnect(c: Bindings, st: State, t: ClientTunnel, s: string)
    returns (acts: seq<Action>, last: State)
    requires s in st.regs && st.regs[s] == Reg(t, Waiting) && st.lock.Free?
    requires t.session != null && t.session.id == s && t.id in c && Refine.Admitted(c, st.pools, t)
    ensures Reaches(c, st, acts, last) && RegisterStepsOf(acts, s)
    ensures Through(c, st.pools, st.bySess, t, s, last)
  {
    LocksFirst(c, st, t, s);
    Extend(c, st, [], st, RegLock(s));
    acts, last := RegistersByItself(c, st.pools, st.bySess, t, s, st, [] + [RegLock(s)], Apply(c, st, RegLock(s)));
  }

  lemma StepsTogether(front: seq<Action>, back: seq<Action>, a: nat, t: ClientTunnel)
    requires OwnSteps(front, a, t) && RegisterStepsOf(back, t.session.id)
    ensures OwnSteps(front + [OnConnect(a, t)] + back, a, t)
  {}

  /** Whoever the pool has room for gets in: from any state in which nobody holds the registry lock,
      its own steps alone register its tunnel, and the indices are what Register promises. */
  lemma ClientGetsIn(c: Bindings, before: State, a: nat, t: ClientTunnel) returns (acts: seq<Action>, last: State)
    requires CanConnect(c, before, a, t) && before.lock.Free? && Refine.Admitted(c, before.pools, t)
    ensures OwnSteps(acts, a, t) && Reaches(c, before, acts, last)
    ensures Through(c, before.pools, before.bySess, t, t.session.id, last)
  {
    AdmittedHasRoom(c, before.pools, t);
    var front, mid := AuthenticatesByItself(c, before, a, t);
    ConnectsAfterAuth(c, before, a, t, mid);
    var connected := Apply(c, mid, OnConnect(a, t));
    Extend(c, before, front, mid, OnConnect(a, t));
    var back;
    back, last := RegistersAfterConnect(c, connected, t, t.session.id);
    Chain(c, before, front + [OnConnect(a, t)], connected, back, last);
    acts := front + [OnConnect(a, t)] + back;
    StepsTogether(front, back, a, t);
  }

  /** A client that has a tunnel always gets back in, however full the pool is: its own steps alone
      put the new tunnel at the place of the old one. */
  lemma KnownClientGetsIn(c: Bindings, before: State, a: nat, t: ClientTunnel, i: nat)
    returns (acts: seq<Action>, last: State)
    requires Inv(c, before) && CanConnect(c, before, a, t) && before.lock.Free?
    requires i < |PoolIn(before, t.subdomain)| && PoolIn(before, t.subdomain)[i].id == t.id
    ensures OwnSteps(acts, a, t) && Reaches(c, before, acts, last)
    ensures last.pools == before.pools[t.subdomain := PoolIn(before, t.subdomain)[i := t]]
    ensures t.session.id in last.bySess && last.bySess[t.session.id] == t
  {
    var ms := PoolIn(before, t.subdomain);
    IndexOfUnique(ms, i);
    acts, last := ClientGetsIn(c, before, a, t);
  }

  // ---- Health

  predicate HealthStepsOf(acts: seq<Action>, h: nat) {
    forall i :: 0 <= i < |acts| ==> IsUpdate(acts[i], h)
  }

  /** The member of this client in this pool has the flag, and everybody else what they had. */
  ghost predicate Marked(ms: seq<ClientTunnel>, id: string, ok: bool,
                         before: set<ClientTunnel>, after: set<ClientTunnel>) {
    var own := set m | m in ms && m.id == id;
    && after - own == before - own
    && if ok then own <= after else own !! after
  }

  /** How far an update is, with nothing else moved. */
  ghost predicate Updating(before: State, h: nat, x: Health, st: State) {
    && st == before.(healths := before.healths[h := x], healthy := st.healthy)
    && var ms := PoolIn(before, x.subdomain);
       match x.pc
       case HealthPool => st.healthy == before.healthy
       case HealthClient => st.healthy == before.healthy
       case HealthStore(t) => st.healthy == before.healthy && t in ms && t.id == x.client
       case HealthDone => Marked(ms, x.client, x.ok, before.healthy, st.healthy)
  }

  predicate IsUpdate(act: Action, h: nat) {
    (act.HealthFindPool? || act.HealthFindClient? || act.HealthSet?) && act.h == h
  }

  lemma UpdateStep(c: Bindings, before: State, h: nat, x: Health, st: State, act: Action) returns (next: Health)
    requires DistinctIds(PoolIn(before, x.subdomain)) && Updating(before, h, x, st)
    requires Enabled(c, st, act) && IsUpdate(act, h)
    ensures Updating(before, h, next, Apply(c, st, act)) && next == x.(pc := next.pc)
  {
    if act.HealthSet? {
      next := SetsFlag(c, before, h, x, st);
    } else {
      next := FindsTunnel(c, before, h, x, st, act);
    }
  }

  lemma FindsTunnel(c: Bindings, before: State, h: nat, x: Health, st: State, act: Action) returns (next: Health)
    requires Updating(before, h, x, st) && Enabled(c, st, act)
    requires act == HealthFindPool(h) || act == HealthFindClient(h)
    ensures Updating(before, h, next, Apply(c, st, act)) && next == x.(pc := next.pc)
  {
    HasIdExactly(PoolIn(before, x.subdomain), x.client);
    next := Apply(c, st, act).healths[h];
    assert Apply(c, st, act).healths == before.healths[h := next];
  }

  lemma SetsFlag(c: Bindings, before: State, h: nat, x: Health, st: State) returns (next: Health)
    requires DistinctIds(PoolIn(before, x.subdomain)) && Updating(before, h, x, st) && Enabled(c, st, HealthSet(h))
    ensures Updating(before, h, next, Apply(c, st, HealthSet(h))) && next == x.(pc := next.pc)
  {
    var ms, st' := PoolIn(before, x.subdomain), Apply(c, st, HealthSet(h));
    next := x.(pc := HealthDone);
    assert st'.healths == before.healths[h := next];
    OwnTunnel(ms, x.client, x.pc.t);
    FlagIsMarked(ms, x.client, x.ok, x.pc.t, before.healthy);
  }

  lemma OwnTunnel(ms: seq<ClientTunnel>, id: string, t: ClientTunnel)
    requires DistinctIds(ms) && t in ms && t.id == id
    ensures (set m | m in ms && m.id == id) == {t}
  {
    forall m | m in ms && m.id == id ensures m == t {
      SameIdSameMember(ms, m, t);
    }
  }

  lemma FlagIsMarked(ms: seq<ClientTunnel>, id: string, ok: bool, t: ClientTunnel, before: set<ClientTunnel>)
    requires (set m | m in ms && m.id == id) == {t}
    ensures Marked(ms, id, ok, before, if ok then before + {t} else before - {t})
  {}

  lemma {:induction false} UpdateRun(c: Bindings, before: State, h: nat, x: Health, st: State,
                                     acts: seq<Action>, st': State)
    returns (last: Health)
    requires DistinctIds(PoolIn(before, x.subdomain)) && Updating(before, h, x, st)
    requires HealthStepsOf(acts, h) && Reaches(c, st, acts, st')
    ensures Updating(before, h, last, st') && last == x.(pc := last.pc)
    decreases |acts|
  {
    if acts == [] {
      last := x;
    } else {
      var next := UpdateStep(c, before, h, x, st, acts[0]);
      last := UpdateRun(c, before, h, next, Apply(c, st, acts[0]), acts[1..], st');
    }
  }

  /** A health report that runs by itself sets the flag of the client's tunnel in the pool of the
      host, if there is one, and changes nothing else. */
  lemma HealthExactly(c: Bindings, before: State, h: nat, sub: string, id: string, ok: bool,
                      acts: seq<Action>, st: State)
    requires Inv(c, before) && h !in before.healths
    requires HealthStepsOf(acts, h) && Reaches(c, Apply(c, before, HealthStart(h, sub, id, ok)), acts, st)
    requires HealthAt(st, h, HealthDone)
    ensures Marked(PoolIn(before, sub), id, ok, before.healthy, st.healthy)
    ensures st == before.(healths := st.healths, healthy := st.healthy)
  {
    var x := Health(sub, id, ok, HealthPool);
    var last := UpdateRun(c, before, h, x, Apply(c, before, HealthStart(h, sub, id, ok)), acts, st);
  }
}
