/** What the invariant of the hooks gives for whole runs: exact indices, harmless late
    disconnects, no lost and no resurrected tunnels, the size and the order of the pools. */
module Runs {
  import opened Registry
  import opened Hooks

  /** The server comes up and its goroutines take these steps, in this order, down to st. */
  predicate Run(c: Bindings, first: State, acts: seq<Action>, st: State) {
    Initial(first) && Reaches(c, first, acts, st)
  }

  lemma RunInv(c: Bindings, first: State, acts: seq<Action>, st: State)
    requires Run(c, first, acts, st)
    ensures Inv(c, st)
  {
    InitialInv(c, first);
    RunKeepsInv(c, first, acts, st);
  }

  // ---- The two indices

  /** Whenever nobody holds the registry lock, the two indices agree exactly. */
  lemma IndicesExactWhenFree(c: Bindings, first: State, acts: seq<Action>, st: State, s: string, t: ClientTunnel)
    requires Run(c, first, acts, st) && st.lock.Free?
    ensures (s in st.bySess && st.bySess[s] == t) <==>
      (Member(st.pools, t) && t.session != null && t.session.id == s)
  {
    RunInv(c, first, acts, st);
    AgreeMeansExact(st.pools, st.bySess, s, t);
  }

  /** Even while the lock is held, an entry never leads to a tunnel that is not in its pool, and
      a member without an entry is the one that the holder of the lock is working on. */
  lemma IndicesWhileHeld(c: Bindings, first: State, acts: seq<Action>, st: State, s: string, t: ClientTunnel)
    requires Run(c, first, acts, st)
    ensures s in st.bySess ==>
      Member(st.pools, st.bySess[s]) && st.bySess[s].session != null && st.bySess[s].session.id == s
    ensures Member(st.pools, t) && !Listed(st.bySess, t) ==>
      HoleOf(st.lock, st.regs, st.discs) == Hole(t.subdomain, t.id)
  {
    RunInv(c, first, acts, st);
    if Member(st.pools, t) {
      MemberCameThrough(st.pools, st.regs, t);
    }
  }

  // ---- The effect of one step

  /** The pool replaces the client's tunnel or has room for one more. */
  predicate Admits(c: Bindings, st: State, s: string)
    requires RegAt(st, s, Dropped) && st.regs[s].tunnel.id in c
  {
    var t := st.regs[s].tunnel;
    HasId(PoolIn(st, t.subdomain), t.id) || |PoolIn(st, t.subdomain)| < c[t.id].maxClients
  }

  /** What one step makes of the pools. */
  function PoolsAfter(c: Bindings, st: State, act: Action): Pools
    requires Enabled(c, st, act)
  {
    match act
    case RegLock(s) => st.pools[st.regs[s].tunnel.subdomain := PoolIn(st, st.regs[s].tunnel.subdomain)]
    case RegAdd(s) =>
      var t := st.regs[s].tunnel;
      var ms := PoolIn(st, t.subdomain);
      if Admits(c, st, s) then st.pools[t.subdomain := Put(ms, t)] else st.pools
    case DiscRemove(d) =>
      var t := st.discs[d].pc.victim;
      if t.subdomain in st.pools then st.pools[t.subdomain := Delete(st.pools[t.subdomain], t.id)] else st.pools
    case _ => st.pools
  }

  /** How registrations move on. */
  ghost predicate Evolve(regs: Regs, regs': Regs) {
    forall s :: s in regs ==>
      && s in regs' && regs'[s].tunnel == regs[s].tunnel
      && (InPool(regs[s].pc) ==> InPool(regs'[s].pc))
      && (regs[s].pc == Registered || regs[s].pc == TurnedAway ==> regs'[s].pc == regs[s].pc)
      && (regs[s].pc == Rejected ==> regs'[s].pc == Rejected || regs'[s].pc == TurnedAway)
  }

  /** Whose transport a step may close. */
  function Closes(st: State, act: Action): set<ClientTunnel> {
    match act
    case RegClose(s) => if s in st.regs then {st.regs[s].tunnel} else {}
    case DiscClose(d) => if d in st.discs && st.discs[d].pc.CloseTransport? then {st.discs[d].pc.t} else {}
    case DrainClose(w) => if w < |st.workers| then {st.workers[w]} else {}
    case _ => {}
  }

  /** Disconnects start and move on; the transport they close is the one they found. */
  ghost predicate DiscsEvolve(st: State, act: Action, st': State) {
    && (forall d :: d in st.discs ==> d in st'.discs && st'.discs[d].session == st.discs[d].session)
    && (forall d :: d in st'.discs && st'.discs[d].pc.CloseTransport? ==>
          && d in st.discs
          && var s := st.discs[d].session;
             st'.discs[d] == st.discs[d] || (st.lock.Free? && s in st.bySess && st'.discs[d].pc.t == st.bySess[s]))
  }

  /** The session that a step of onDisconnect works for. */
  function DiscSession(st: State, act: Action): string
    requires IsDisc(act) && (act.DiscStart? || act.d in st.discs)
  {
    if act.DiscStart? then act.s else st.discs[act.d].session
  }

  /** What the steps of the server leave alone, and how the rest grows. */
  ghost predicate Effect(c: Bindings, st: State, act: Action, st': State)
    requires Enabled(c, st, act)
  {
    && st'.pools == PoolsAfter(c, st, act)
    && Evolve(st.regs, st'.regs) && EntersByAdd(st, act, st')
    && DiscsEvolve(st, act, st')
    && st.gone <= st'.gone && st.workers <= st'.workers && LeavesTrace(st, act, st')
    && st.closed <= st'.closed <= st.closed + Closes(st, act)
    && (IsDisc(act) ==> st'.bySess == if act.DiscLock? then st.bySess - {DiscSession(st, act)} else st.bySess)
    && (act.RegClose? ==> act.s in st'.regs && st'.regs[act.s].pc == TurnedAway)
  }

  /** Only Add brings a tunnel into its pool. */
  ghost predicate EntersByAdd(st: State, act: Action, st': State) {
    if act.RegAdd? then
      act.s in st'.regs && st'.regs == st.regs[act.s := st'.regs[act.s]]
      && (InPool(st'.regs[act.s].pc) ==> Member(st'.pools, st'.regs[act.s].tunnel))
    else
      forall s :: s in st'.regs && InPool(st'.regs[s].pc) ==> s in st.regs && InPool(st.regs[s].pc)
  }

  /** Who is replaced gets a drain worker; whose session is removed is gone. */
  predicate LeavesTrace(st: State, act: Action, st': State) {
    && (act.DiscRemove? && act.d in st.discs ==> st.discs[act.d].session in st'.gone)
    && (act.RegAdd? && act.s in st.regs ==>
          var t := st.regs[act.s].tunnel;
          var ms := PoolIn(st, t.subdomain);
          HasId(ms, t.id) ==> st'.workers == st.workers + [ms[IndexOf(ms, t.id)]])
  }

  lemma OnConnectEffect(c: Bindings, st: State, a: nat, t: ClientTunnel)
    requires Enabled(c, st, OnConnect(a, t))
    ensures Effect(c, st, OnConnect(a, t), Apply(c, st, OnConnect(a, t)))
  {}

  lemma RegLockEffect(c: Bindings, st: State, s: string)
    requires Enabled(c, st, RegLock(s))
    ensures Effect(c, st, RegLock(s), Apply(c, st, RegLock(s)))
  {}

  lemma RegDropEffect(c: Bindings, st: State, s: string)
    requires Enabled(c, st, RegDrop(s))
    ensures Effect(c, st, RegDrop(s), Apply(c, st, RegDrop(s)))
  {}

  lemma RegHealthyEffect(c: Bindings, st: State, s: string)
    requires Enabled(c, st, RegHealthy(s))
    ensures Effect(c, st, RegHealthy(s), Apply(c, st, RegHealthy(s)))
  {}

  lemma RegIndexEffect(c: Bindings, st: State, s: string)
    requires Enabled(c, st, RegIndex(s))
    ensures Effect(c, st, RegIndex(s), Apply(c, st, RegIndex(s)))
  {}

  lemma RegCloseEffect(c: Bindings, st: State, s: string)
    requires Enabled(c, st, RegClose(s))
    ensures Effect(c, st, RegClose(s), Apply(c, st, RegClose(s)))
  {}

  lemma RegAddEffect(c: Bindings, st: State, s: string)
    requires Enabled(c, st, RegAdd(s))
    ensures Effect(c, st, RegAdd(s), Apply(c, st, RegAdd(s)))
  {
    var st' := AddStep(c, st, s);
    assert Apply(c, st, RegAdd(s)) == st';
    AddChanges(c, st, s);
    PutHolds(PoolIn(st, st.regs[s].tunnel.subdomain), st.regs[s].tunnel);
  }

  lemma PutHolds(ms: seq<ClientTunnel>, t: ClientTunnel)
    ensures t in Put(ms, t)
  {
    assert Put(ms, t)[IndexOf(ms, t.id)] == t;
  }

  /** Whatever the pool answers, one registration moves and one pool may change. */
  lemma AddChanges(c: Bindings, st: State, s: string)
    requires Enabled(c, st, RegAdd(s))
    ensures var st' := AddStep(c, st, s);
      && st'.pools == PoolsAfter(c, st, RegAdd(s)) && st'.discs == st.discs && st'.gone == st.gone
      && st.workers <= st'.workers && LeavesTrace(st, RegAdd(s), st')
      && st'.closed == st.closed
      && st'.regs == RegTo(st, s, if Admits(c, st, s) then Added else Rejected)
  {
    var t, st' := st.regs[s].tunnel, AddStep(c, st, s);
    var ms := PoolIn(st, t.subdomain);
    if HasId(ms, t.id) {
      assert st' == Supersede(st, s);
    } else if |ms| >= c[t.id].maxClients {
      assert st' == TurnAway(st, s);
    } else {
      assert st' == Append(st, s);
    }
  }

  lemma DiscStartEffect(c: Bindings, st: State, d: nat, s: string)
    requires Enabled(c, st, DiscStart(d, s))
    ensures Effect(c, st, DiscStart(d, s), Apply(c, st, DiscStart(d, s)))
  {}

  lemma DiscGetEffect(c: Bindings, st: State, d: nat)
    requires Enabled(c, st, DiscGet(d))
    ensures Effect(c, st, DiscGet(d), Apply(c, st, DiscGet(d)))
  {}

  lemma DiscCloseEffect(c: Bindings, st: State, d: nat)
    requires Enabled(c, st, DiscClose(d))
    ensures Effect(c, st, DiscClose(d), Apply(c, st, DiscClose(d)))
  {}

  lemma DiscLockEffect(c: Bindings, st: State, d: nat)
    requires Enabled(c, st, DiscLock(d))
    ensures Effect(c, st, DiscLock(d), Apply(c, st, DiscLock(d)))
  {
    if st.discs[d].session in st.bySess {
      TakeOutEffect(c, st, d);
    } else {
      NothingToDoEffect(c, st, d);
    }
  }

  lemma TakeOutEffect(c: Bindings, st: State, d: nat)
    requires Enabled(c, st, DiscLock(d)) && st.discs[d].session in st.bySess
    ensures Effect(c, st, DiscLock(d), TakeOut(st, d))
  {}

  lemma NothingToDoEffect(c: Bindings, st: State, d: nat)
    requires Enabled(c, st, DiscLock(d)) && st.discs[d].session !in st.bySess
    ensures Effect(c, st, DiscLock(d), NothingToDo(st, d))
  {
    assert st.bySess - {st.discs[d].session} == st.bySess;
  }

  lemma DiscRemoveEffect(c: Bindings, st: State, d: nat)
    requires Enabled(c, st, DiscRemove(d))
    ensures Effect(c, st, DiscRemove(d), Apply(c, st, DiscRemove(d)))
  {}

  lemma OtherEffect(c: Bindings, st: State, act: Action)
    requires Enabled(c, st, act) && !IsReg(act) && !IsDisc(act)
    ensures Effect(c, st, act, Apply(c, st, act))
  {
    var st' := Apply(c, st, act);
    assert SameRegistry(st, st') && st.closed <= st'.closed <= st.closed + Closes(st, act);
  }

  lemma StepEffect(c: Bindings, st: State, act: Action)
    requires Enabled(c, st, act)
    ensures Effect(c, st, act, Apply(c, st, act))
  {
    match act
    case OnConnect(a, t) => OnConnectEffect(c, st, a, t);
    case RegLock(s) => RegLockEffect(c, st, s);
    case RegDrop(s) => RegDropEffect(c, st, s);
    case RegAdd(s) => RegAddEffect(c, st, s);
    case RegHealthy(s) => RegHealthyEffect(c, st, s);
    case RegIndex(s) => RegIndexEffect(c, st, s);
    case RegClose(s) => RegCloseEffect(c, st, s);
    case DiscStart(d, s) => DiscStartEffect(c, st, d, s);
    case DiscGet(d) => DiscGetEffect(c, st, d);
    case DiscClose(d) => DiscCloseEffect(c, st, d);
    case DiscLock(d) => DiscLockEffect(c, st, d);
    case DiscRemove(d) => DiscRemoveEffect(c, st, d);
    case _ => OtherEffect(c, st, act);
  }

  /** The list without t, which was in it; the members after it move up. */
  ghost predicate TakenOut(before: seq<ClientTunnel>, t: ClientTunnel, after: seq<ClientTunnel>) {
    exists i :: 0 <= i < |before| && before[i] == t && after == before[..i] + before[i + 1..]
  }

  /** A removal takes out the tunnel of its own session and nobody else, although the pool
      deletes by client ID. */
  lemma RemovesExactlyItsSession(c: Bindings, st: State, d: nat, t: ClientTunnel, after: Pools)
    requires d in st.discs && st.discs[d].pc == Removing(t)
    requires after == PoolsAfter(c, st, DiscRemove(d)) && Inv(c, st)
    ensures t.session != null && t.session.id == st.discs[d].session
    ensures t.subdomain in after && TakenOut(PoolIn(st, t.subdomain), t, after[t.subdomain])
    ensures t.subdomain in after && after == st.pools[t.subdomain := after[t.subdomain]]
  {
    ReleasesLock(st, d);
    assert RegOk(c, st.discs[d].session, st.regs[st.discs[d].session], st.pools);
    DeleteTakesOut(st.pools[t.subdomain], t);
  }

  lemma DeleteTakesOut(ms: seq<ClientTunnel>, t: ClientTunnel)
    requires DistinctIds(ms) && t in ms
    ensures TakenOut(ms, t, Delete(ms, t.id))
  {
    var i :| 0 <= i < |ms| && ms[i] == t;
    IndexOfUnique(ms, i);
  }

  /** RegAdd(s) finds m under the client ID of the tunnel it registers. */
  predicate Supersedes(st: State, act: Action, m: ClientTunnel) {
    act.RegAdd? && act.s in st.regs &&
    var t := st.regs[act.s].tunnel;
    var ms := PoolIn(st, t.subdomain);
    HasId(ms, t.id) && ms[IndexOf(ms, t.id)] == m
  }

  lemma RemovalTakes(c: Bindings, st: State, d: nat, m: ClientTunnel)
    requires Inv(c, st) && Enabled(c, st, DiscRemove(d)) && Member(st.pools, m)
    ensures Member(PoolsAfter(c, st, DiscRemove(d)), m) <==> m.session == null || m.session.id != st.discs[d].session
  {
    var t, s := st.discs[d].pc.victim, st.discs[d].session;
    ReleasesLock(st, d);
    assert RegOk(c, s, st.regs[s], st.pools);
    MemberCameThrough(st.pools, st.regs, m);
    DeleteMembers(st.pools[t.subdomain], t.id);
    if m.subdomain == t.subdomain && m.id == t.id {
      SameIdSameMember(st.pools[t.subdomain], m, t);
    }
  }

  lemma SupersedeTakes(c: Bindings, st: State, s: string, m: ClientTunnel)
    requires RegsOk(c, st.regs, st.pools) && PoolsOk(st.pools) && MembersOk(st.pools, st.regs)
    requires Enabled(c, st, RegAdd(s)) && Member(st.pools, m)
    ensures Member(PoolsAfter(c, st, RegAdd(s)), m) <==> !Supersedes(st, RegAdd(s), m)
    ensures Supersedes(st, RegAdd(s), m) ==> st.regs[s].tunnel.id == m.id && st.regs[s].tunnel.subdomain == m.subdomain
  {
    var t := st.regs[s].tunnel;
    var ms := PoolIn(st, t.subdomain);
    assert RegOk(c, s, st.regs[s], st.pools);
    MemberCameThrough(st.pools, st.regs, m);
    PutMembers(ms, t);
    if m in ms && m.id == t.id {
      NoneBefore(ms, t.id);
      SameIdSameMember(ms, m, ms[IndexOf(ms, t.id)]);
    }
  }

  /** A member leaves its pool in two ways only: with its own session, or replaced by a newer
      tunnel of the same client. */
  lemma HowMembersLeave(c: Bindings, st: State, act: Action, m: ClientTunnel)
    requires Inv(c, st) && Enabled(c, st, act) && Member(st.pools, m)
    ensures !Member(PoolsAfter(c, st, act), m) <==>
      (act.DiscRemove? && m.session != null && m.session.id == st.discs[act.d].session) || Supersedes(st, act, m)
  {
    if act.DiscRemove? {
      RemovalTakes(c, st, act.d, m);
    } else if act.RegAdd? {
      SupersedeTakes(c, st, act.s, m);
    }
  }

  lemma WorkersHaveLeft(workers: seq<ClientTunnel>, regs: Regs, pools: Pools)
    requires WorkersOk(workers, regs, pools)
    ensures forall w :: w in workers ==> !Member(pools, w)
  {
    forall w | w in workers ensures !Member(pools, w) {
      assert Retired(w, regs, pools);
    }
  }

  /** The newer tunnel takes over the place, and one drain worker is left for the older one. */
  lemma SupersedeKeepsPlace(c: Bindings, st: State, s: string, m: ClientTunnel)
    requires Inv(c, st) && Enabled(c, st, RegAdd(s)) && Member(st.pools, m) && Supersedes(st, RegAdd(s), m)
    ensures var st', t := Apply(c, st, RegAdd(s)), st.regs[s].tunnel;
      && t.id == m.id && t.subdomain == m.subdomain
      && (exists i :: 0 <= i < |st.pools[m.subdomain]| && st.pools[m.subdomain][i] == m
           && st'.pools == st.pools[m.subdomain := st.pools[m.subdomain][i := t]])
      && st'.workers == st.workers + [m] && m !in st.workers
  {
    SupersedeTakes(c, st, s, m);
    WorkersHaveLeft(st.workers, st.regs, st.pools);
  }

  // ---- Disconnects

  lemma DisconnectSparesMember(c: Bindings, st: State, act: Action, t: ClientTunnel)
    requires Inv(c, st) && Enabled(c, st, act) && IsDisc(act)
    requires t.session != null && t.session.id != DiscSession(st, act)
    ensures Member(PoolsAfter(c, st, act), t) <==> Member(st.pools, t)
  {
    if act.DiscRemove? {
      RemovalTakesNoOther(c, st, act.d, t);
    }
  }

  lemma DisconnectSparesTransport(c: Bindings, st: State, act: Action, t: ClientTunnel)
    requires RegsOk(c, st.regs, st.pools) && OwnTransports(st.discs, st.regs) && Enabled(c, st, act) && IsDisc(act)
    requires t.session != null && t.session.id != DiscSession(st, act)
    ensures t !in Closes(st, act)
  {
    if act.DiscClose? {
      assert RegOk(c, DiscSession(st, act), st.regs[DiscSession(st, act)], st.pools);
    }
  }

  lemma DisconnectSparesOthers(c: Bindings, st: State, act: Action, t: ClientTunnel, st': State)
    requires Enabled(c, st, act) && IsDisc(act) && Effect(c, st, act, st')
    requires t.session != null && t.session.id != DiscSession(st, act)
    requires t !in Closes(st, act) && (Member(PoolsAfter(c, st, act), t) <==> Member(st.pools, t))
    ensures Member(st'.pools, t) <==> Member(st.pools, t)
    ensures Listed(st'.bySess, t) <==> Listed(st.bySess, t)
    ensures t in st'.closed <==> t in st.closed
  {}

  lemma RemovalTakesNoOther(c: Bindings, st: State, d: nat, t: ClientTunnel)
    requires Inv(c, st) && Enabled(c, st, DiscRemove(d))
    requires t.session != null && t.session.id != st.discs[d].session
    ensures Member(PoolsAfter(c, st, DiscRemove(d)), t) <==> Member(st.pools, t)
  {
    if Member(st.pools, t) {
      RemovalTakes(c, st, d, t);
    } else {
      var v := st.discs[d].pc.victim;
      ReleasesLock(st, d);
      DeleteMembers(st.pools[v.subdomain], v.id);
    }
  }

  // ---- What becomes of every tunnel

  /** onDisconnect closes the transport of the session it was called for. */
  ghost predicate OwnTransports(discs: map<nat, Disc>, regs: Regs) {
    forall d :: d in discs && discs[d].pc.CloseTransport? ==>
      discs[d].session in regs && regs[discs[d].session].tunnel == discs[d].pc.t
  }

  /** No tunnel is lost: whoever entered a pool is still there, was superseded and has its drain
      worker, or was removed by its own disconnect. */
  ghost predicate NobodyLost(regs: Regs, pools: Pools, workers: seq<ClientTunnel>, gone: set<string>) {
    forall s :: s in regs && InPool(regs[s].pc) ==>
      Member(pools, regs[s].tunnel) || regs[s].tunnel in workers || s in gone
  }

  ghost predicate Disconnecting(discs: map<nat, Disc>, s: string) {
    exists d :: d in discs && discs[d].session == s
  }

  /** Only refused, superseded and disconnecting tunnels have their transports closed. */
  ghost predicate ClosedForReason(closed: set<ClientTunnel>, regs: Regs, workers: seq<ClientTunnel>,
                                   discs: map<nat, Disc>) {
    forall t :: t in closed ==> HasReason(t, regs, workers, discs)
  }

  ghost predicate HasReason(t: ClientTunnel, regs: Regs, workers: seq<ClientTunnel>, discs: map<nat, Disc>) {
    && t.session != null && t.session.id in regs && regs[t.session.id].tunnel == t
    && (regs[t.session.id].pc == TurnedAway || t in workers || Disconnecting(discs, t.session.id))
  }

  ghost predicate Books(st: State) {
    && OwnTransports(st.discs, st.regs)
    && NobodyLost(st.regs, st.pools, st.workers, st.gone)
    && ClosedForReason(st.closed, st.regs, st.workers, st.discs)
  }

  lemma TransportsStep(c: Bindings, st: State, act: Action, st': State)
    requires Inv(c, st) && OwnTransports(st.discs, st.regs) && Enabled(c, st, act) && Effect(c, st, act, st')
    ensures OwnTransports(st'.discs, st'.regs)
  {
    forall d | d in st'.discs && st'.discs[d].pc.CloseTransport?
      ensures st'.discs[d].session in st'.regs && st'.regs[st'.discs[d].session].tunnel == st'.discs[d].pc.t
    {
      var s := st.discs[d].session;
      if s in st.bySess {
        MemberCameThrough(st.pools, st.regs, st.bySess[s]);
      }
    }
  }

  lemma NobodyLostStep(c: Bindings, st: State, act: Action, st': State)
    requires Inv(c, st) && Enabled(c, st, act) && Effect(c, st, act, st')
    requires NobodyLost(st.regs, st.pools, st.workers, st.gone)
    ensures NobodyLost(st'.regs, st'.pools, st'.workers, st'.gone)
  {
    forall s | s in st.regs && Member(st.pools, st.regs[s].tunnel)
      ensures Member(st'.pools, st.regs[s].tunnel) || st.regs[s].tunnel in st'.workers || s in st'.gone
    {
      LeavesOnTheBooks(c, st, act, s, st');
    }
    forall s | s in st'.regs && InPool(st'.regs[s].pc)
      ensures Member(st'.pools, st'.regs[s].tunnel) || st'.regs[s].tunnel in st'.workers || s in st'.gone
    {
      StillAccounted(c, st, act, s, st');
    }
  }

  lemma StillAccounted(c: Bindings, st: State, act: Action, s: string, st': State)
    requires NobodyLost(st.regs, st.pools, st.workers, st.gone) && Enabled(c, st, act) && Effect(c, st, act, st')
    requires s in st'.regs && InPool(st'.regs[s].pc)
    requires s in st.regs && Member(st.pools, st.regs[s].tunnel) ==>
      Member(st'.pools, st.regs[s].tunnel) || st.regs[s].tunnel in st'.workers || s in st'.gone
    ensures Member(st'.pools, st'.regs[s].tunnel) || st'.regs[s].tunnel in st'.workers || s in st'.gone
  {}

  lemma LeavesOnTheBooks(c: Bindings, st: State, act: Action, s: string, st': State)
    requires Inv(c, st) && Enabled(c, st, act) && Effect(c, st, act, st')
    requires s in st.regs && Member(st.pools, st.regs[s].tunnel)
    ensures Member(st'.pools, st.regs[s].tunnel) || st.regs[s].tunnel in st'.workers || s in st'.gone
  {
    assert RegOk(c, s, st.regs[s], st.pools);
    HowMembersLeave(c, st, act, st.regs[s].tunnel);
  }

  lemma ReasonsPersist(t: ClientTunnel, st: State, act: Action, st': State)
    requires HasReason(t, st.regs, st.workers, st.discs) && Evolve(st.regs, st'.regs) && st.workers <= st'.workers
    requires DiscsEvolve(st, act, st')
    ensures HasReason(t, st'.regs, st'.workers, st'.discs)
  {
    if Disconnecting(st.discs, t.session.id) {
      var d :| d in st.discs && st.discs[d].session == t.session.id;
      assert d in st'.discs;
    }
  }

  lemma ClosedStep(c: Bindings, st: State, act: Action, st': State)
    requires Inv(c, st) && OwnTransports(st.discs, st.regs) && Enabled(c, st, act) && Effect(c, st, act, st')
    requires ClosedForReason(st.closed, st.regs, st.workers, st.discs)
    ensures ClosedForReason(st'.closed, st'.regs, st'.workers, st'.discs)
  {
    forall t | t in st'.closed ensures HasReason(t, st'.regs, st'.workers, st'.discs) {
      if t in st.closed {
        ReasonsPersist(t, st, act, st');
      } else {
        NewlyClosed(c, st, act, t, st');
      }
    }
  }

  lemma NewlyClosed(c: Bindings, st: State, act: Action, t: ClientTunnel, st': State)
    requires Inv(c, st) && OwnTransports(st.discs, st.regs) && Enabled(c, st, act) && Effect(c, st, act, st')
    requires t in st'.closed && t !in st.closed
    ensures HasReason(t, st'.regs, st'.workers, st'.discs)
  {
    if act.DrainClose? {
      assert Retired(t, st.regs, st.pools);
    } else if act.RegClose? {
      assert RegOk(c, act.s, st.regs[act.s], st.pools);
    } else {
      var s := st.discs[act.d].session;
      assert RegOk(c, s, st.regs[s], st.pools);
      assert act.d in st'.discs && st'.discs[act.d].session == s;
    }
  }

  lemma StepKeepsBooks(c: Bindings, st: State, act: Action, st': State)
    requires Inv(c, st) && Books(st) && Enabled(c, st, act) && Effect(c, st, act, st')
    ensures Books(st')
  {
    TransportsStep(c, st, act, st');
    NobodyLostStep(c, st, act, st');
    ClosedStep(c, st, act, st');
  }

  /** The books stay right over every run. */
  lemma {:induction false} RunKeepsBooks(c: Bindings, st: State, acts: seq<Action>, st': State)
    requires Inv(c, st) && Books(st) && Reaches(c, st, acts, st')
    ensures Inv(c, st') && Books(st')
    decreases |acts|
  {
    if acts != [] {
      var next := Apply(c, st, acts[0]);
      StepKeepsInv(c, st, acts[0]);
      StepEffect(c, st, acts[0]);
      StepKeepsBooks(c, st, acts[0], next);
      RunKeepsBooks(c, next, acts[1..], st');
    }
  }

  // ---- What follows for every run

  lemma RunBooks(c: Bindings, first: State, acts: seq<Action>, st: State)
    requires Run(c, first, acts, st)
    ensures Inv(c, st) && Books(st)
  {
    InitialInv(c, first);
    RunKeepsBooks(c, first, acts, st);
  }

  /** No step of a disconnect, however late it comes, touches the tunnel of another session:
      its membership, its entry and its transport stay as they were.  In particular the
      disconnect of a superseded session never evicts the tunnel that replaced it. */
  lemma LateDisconnectIsHarmless(c: Bindings, first: State, acts: seq<Action>, st: State, act: Action, t: ClientTunnel)
    requires Run(c, first, acts, st) && Enabled(c, st, act) && IsDisc(act)
    requires t.session != null && t.session.id != DiscSession(st, act)
    ensures var st' := Apply(c, st, act);
      && (Member(st'.pools, t) <==> Member(st.pools, t))
      && (Listed(st'.bySess, t) <==> Listed(st.bySess, t))
      && (t in st'.closed <==> t in st.closed)
  {
    RunBooks(c, first, acts, st);
    StepEffect(c, st, act);
    DisconnectSparesMember(c, st, act, t);
    DisconnectSparesTransport(c, st, act, t);
    DisconnectSparesOthers(c, st, act, t, Apply(c, st, act));
  }

  /** Every tunnel that ever entered a pool is a member, or was superseded and has exactly one
      drain worker, or its own disconnect has removed it; a member has no worker. */
  lemma EveryTunnelIsAccountedFor(c: Bindings, first: State, acts: seq<Action>, st: State, s: string)
    requires Run(c, first, acts, st) && s in st.regs && InPool(st.regs[s].pc)
    ensures var t := st.regs[s].tunnel;
      && (Member(st.pools, t) <==> multiset(st.workers)[t] == 0 && s !in st.gone)
      && multiset(st.workers)[t] <= 1
  {
    RunBooks(c, first, acts, st);
    var t := st.regs[s].tunnel;
    WorkersHaveLeft(st.workers, st.regs, st.pools);
    OnceInWorkers(st.workers, t);
    if s in st.gone {
      assert !Member(st.pools, t);
    }
  }

  lemma {:induction false} OnceInWorkers(workers: seq<ClientTunnel>, t: ClientTunnel)
    requires NoDuplicates(workers)
    ensures multiset(workers)[t] == if t in workers then 1 else 0
  {
    if workers != [] {
      OnceInWorkers(workers[1..], t);
      assert workers == [workers[0]] + workers[1..];
    }
  }

  /** The server closes the transport of a member only while its own disconnect is under way. */
  lemma MembersStayOpen(c: Bindings, first: State, acts: seq<Action>, st: State, t: ClientTunnel)
    requires Run(c, first, acts, st) && Member(st.pools, t) && t in st.closed
    ensures t.session != null && Disconnecting(st.discs, t.session.id)
  {
    RunBooks(c, first, acts, st);
    assert HasReason(t, st.regs, st.workers, st.discs);
    WorkersHaveLeft(st.workers, st.regs, st.pools);
    MemberCameThrough(st.pools, st.regs, t);
  }

  lemma {:induction false} GoneStays(c: Bindings, st: State, acts: seq<Action>, st': State)
    requires Reaches(c, st, acts, st')
    ensures st.gone <= st'.gone
    decreases |acts|
  {
    if acts != [] {
      StepEffect(c, st, acts[0]);
      GoneStays(c, Apply(c, st, acts[0]), acts[1..], st');
    }
  }

  lemma EntriesAreMembers(pools: Pools, sess: map<string, ClientTunnel>, hole: Hole)
    requires Agree(pools, sess, hole)
    ensures forall s :: s in sess ==> Member(pools, sess[s]) && sess[s].session != null && sess[s].session.id == s
  {}

  /** Once the disconnect of a session is through, the session never comes back: whatever runs
      afterwards, no entry and no member of any pool has it. */
  lemma DisconnectedNeverReappears(c: Bindings, first: State, acts: seq<Action>, st: State,
                                   more: seq<Action>, st': State, s: string)
    requires Run(c, first, acts, st) && s in st.gone && Reaches(c, st, more, st')
    ensures s !in st'.bySess
    ensures forall k, m :: k in st'.pools && m in st'.pools[k] ==> m.session != null && m.session.id != s
  {
    RunInv(c, first, acts, st);
    RunKeepsInv(c, st, more, st');
    GoneStays(c, st, more, st');
    EntriesAreMembers(st'.pools, st'.bySess, HoleOf(st'.lock, st'.regs, st'.discs));
    forall k, m | k in st'.pools && m in st'.pools[k] ensures m.session != null && m.session.id != s {
      MemberCameThrough(st'.pools, st'.regs, m);
    }
  }

  /** However many clients connect at once, a pool never outgrows the largest limit among the
      bindings of its host, although nobody holds a lock between the check and Register. */
  lemma PoolsFitTheirLimit(c: Bindings, first: State, acts: seq<Action>, st: State, k: string, limit: int)
    requires Run(c, first, acts, st) && k in st.pools && st.pools[k] != []
    requires forall id :: id in c && c[id].subdomain == k ==> c[id].maxClients <= limit
    ensures |st.pools[k]| <= limit
  {
    RunInv(c, first, acts, st);
    assert FitsSomeBinding(c, k, |st.pools[k]|);
  }

  /** At most one tunnel per client is registered, counting all hosts. */
  lemma OneTunnelPerClient(c: Bindings, first: State, acts: seq<Action>, st: State, t: ClientTunnel, u: ClientTunnel)
    requires Run(c, first, acts, st) && Member(st.pools, t) && Member(st.pools, u) && t.id == u.id
    ensures t == u
  {
    RunInv(c, first, acts, st);
    MemberCameThrough(st.pools, st.regs, t);
    MemberCameThrough(st.pools, st.regs, u);
    assert RegOk(c, t.session.id, st.regs[t.session.id], st.pools);
    assert RegOk(c, u.session.id, st.regs[u.session.id], st.pools);
    SameIdSameMember(st.pools[t.subdomain], t, u);
  }

  /** No member of a pool is draining, so the balancer's test for it never changes its pick: the
      first alive and healthy member is also the one whose client joined first. */
  lemma PickIsEarliest(c: Bindings, first: State, acts: seq<Action>, st: State, k: string,
                       usable: set<ClientTunnel>, i: nat)
    requires Run(c, first, acts, st) && k in st.pools && i < |st.pools[k]|
    requires st.pools[k][i] in usable && forall j :: 0 <= j < i ==> st.pools[k][j] !in usable
    ensures st.pools[k][i] !in st.workers
    ensures forall m :: m in st.pools[k] && m in usable ==>
      m in st.joined && st.pools[k][i] in st.joined && st.joined[st.pools[k][i]] <= st.joined[m]
  {
    RunInv(c, first, acts, st);
    WorkersHaveLeft(st.workers, st.regs, st.pools);
    assert InOrder(st.pools[k], st.joined, st.clock);
    assert Member(st.pools, st.pools[k][i]);
  }
}
