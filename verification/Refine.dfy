/** The two models of the registry agree: whatever other goroutines do in between, the steps that a
    hook takes under the registry lock add up to what the method of class Registry promises. */
module Refine {
  import opened Registry
  import opened Hooks
  import opened Runs

  type Sessions = map<string, ClientTunnel>

  function MembersIn(pools: Pools, sub: string): seq<ClientTunnel> {
    if sub in pools then pools[sub] else []
  }

  /** Whether `Registry.Register` succeeds. */
  predicate Admitted(c: Bindings, pools: Pools, t: ClientTunnel) {
    HasId(MembersIn(pools, t.subdomain), t.id) ||
    (t.id in c && |MembersIn(pools, t.subdomain)| < c[t.id].maxClients)
  }

  /** What `Registry.Register` promises about the pools. */
  function RegisteredPools(pools: Pools, t: ClientTunnel, admitted: bool): Pools {
    var ms := MembersIn(pools, t.subdomain);
    pools[t.subdomain := if admitted then Put(ms, t) else ms]
  }

  /** What `Registry.Register` promises about the session index. */
  function RegisteredSessions(pools: Pools, sess: Sessions, t: ClientTunnel, admitted: bool): Sessions {
    if admitted then Index(DropPrevious(MembersIn(pools, t.subdomain), t.id, sess), t) else sess
  }

  // ---- The steps of others

  predicate ByHolder(lock: Lock, act: Action) {
    || (lock.ByReg? && (act.RegDrop? || act.RegAdd? || act.RegHealthy? || act.RegIndex?) && act.s == lock.session)
    || (lock.ByDisc? && act.DiscRemove? && act.d == lock.d)
  }

  /** The steps that change an index are enabled for the holder of the lock only, or when it is
      free. */
  lemma NeedsLock(c: Bindings, st: State, act: Action)
    requires LockOk(st.lock, st.regs, st.discs) && Enabled(c, st, act)
    requires !st.lock.Free? && !ByHolder(st.lock, act)
    ensures IsReg(act) ==> act.OnConnect? || act.RegClose?
    ensures IsDisc(act) ==> act.DiscStart? || act.DiscClose?
  {}

  /** Nothing that the holder of the lock works on has changed. */
  ghost predicate Undisturbed(st: State, st': State) {
    && st'.pools == st.pools && st'.bySess == st.bySess && st'.lock == st.lock
    && (forall s :: s in st.regs && Critical(st.regs[s].pc) ==> s in st'.regs && st'.regs[s] == st.regs[s])
    && (forall d :: d in st.discs && st.discs[d].pc.Removing? ==> d in st'.discs && st'.discs[d] == st.discs[d])
  }

  lemma OutsideLock(c: Bindings, st: State, act: Action)
    requires Enabled(c, st, act)
    requires IsReg(act) ==> act.OnConnect? || act.RegClose?
    requires IsDisc(act) ==> act.DiscStart? || act.DiscClose?
    ensures Undisturbed(st, Apply(c, st, act))
  {
    if !IsReg(act) && !IsDisc(act) {
      assert SameRegistry(st, Apply(c, st, act));
    }
  }

  /** While one goroutine is between lock and unlock, no step of another changes an index. */
  lemma OthersWait(c: Bindings, st: State, act: Action)
    requires Inv(c, st) && Enabled(c, st, act) && !st.lock.Free? && !ByHolder(st.lock, act)
    ensures Undisturbed(st, Apply(c, st, act))
  {
    NeedsLock(c, st, act);
    OutsideLock(c, st, act);
  }

  // ---- Register

  /** How far Register has come for t, on the indices as they were when it took the lock. */
  ghost predicate Underway(c: Bindings, pools: Pools, sess: Sessions, t: ClientTunnel, s: string, st: State) {
    && s in st.regs && st.regs[s].tunnel == t
    && match st.regs[s].pc
       case Waiting => false
       case Locked => st.pools == RegisteredPools(pools, t, false) && st.bySess == sess
       case Dropped =>
         && st.pools == RegisteredPools(pools, t, false)
         && st.bySess == DropPrevious(MembersIn(pools, t.subdomain), t.id, sess)
       case Added => Halfway(c, pools, sess, t, st)
       case Healthy => Halfway(c, pools, sess, t, st)
       case _ => true
  }

  ghost predicate Halfway(c: Bindings, pools: Pools, sess: Sessions, t: ClientTunnel, st: State) {
    && Admitted(c, pools, t) && st.pools == RegisteredPools(pools, t, true)
    && st.bySess == DropPrevious(MembersIn(pools, t.subdomain), t.id, sess)
  }

  /** Register has given the lock back, and the indices are what it promises. */
  ghost predicate Through(c: Bindings, pools: Pools, sess: Sessions, t: ClientTunnel, s: string, st: State) {
    var admitted := Admitted(c, pools, t);
    && st.pools == RegisteredPools(pools, t, admitted)
    && st.bySess == RegisteredSessions(pools, sess, t, admitted)
    && s in st.regs && st.regs[s].pc == if admitted then Registered else Rejected
  }

  lemma LockStep(c: Bindings, st: State, s: string)
    requires Enabled(c, st, RegLock(s))
    ensures Underway(c, st.pools, st.bySess, st.regs[s].tunnel, s, Apply(c, st, RegLock(s)))
    ensures Apply(c, st, RegLock(s)).lock == ByReg(s)
  {}

  lemma DropStep(c: Bindings, st: State, s: string)
    requires Enabled(c, st, RegDrop(s))
    ensures var st', t := Apply(c, st, RegDrop(s)), st.regs[s].tunnel;
      && st'.lock == st.lock && st'.pools == st.pools
      && st'.bySess == DropPrevious(PoolIn(st, t.subdomain), t.id, st.bySess)
      && s in st'.regs && st'.regs[s] == Reg(t, Dropped)
  {}

  lemma HealthyStep(c: Bindings, st: State, s: string)
    requires Enabled(c, st, RegHealthy(s))
    ensures var st' := Apply(c, st, RegHealthy(s));
      && st'.lock == st.lock && st'.pools == st.pools && st'.bySess == st.bySess
      && s in st'.regs && st'.regs[s] == Reg(st.regs[s].tunnel, Healthy)
  {}

  lemma IndexStep(c: Bindings, st: State, s: string)
    requires Enabled(c, st, RegIndex(s))
    ensures var st', t := Apply(c, st, RegIndex(s)), st.regs[s].tunnel;
      && st'.pools == st.pools && st'.bySess == st.bySess[s := t]
      && s in st'.regs && st'.regs[s] == Reg(t, Registered)
  {}

  lemma AddOutcomes(c: Bindings, st: State, s: string)
    requires Enabled(c, st, RegAdd(s))
    ensures var st', t := AddStep(c, st, s), st.regs[s].tunnel;
      var ms, admits := PoolIn(st, t.subdomain), Admits(c, st, s);
      && st'.bySess == st.bySess && st'.pools == (if admits then st.pools[t.subdomain := Put(ms, t)] else st.pools)
      && s in st'.regs && st'.regs[s] == Reg(t, if admits then Added else Rejected)
      && (admits ==> st'.lock == st.lock)
  {
    var t := st.regs[s].tunnel;
    if HasId(PoolIn(st, t.subdomain), t.id) {
      assert AddStep(c, st, s) == Supersede(st, s);
    } else if |PoolIn(st, t.subdomain)| >= c[t.id].maxClients {
      assert AddStep(c, st, s) == TurnAway(st, s);
    } else {
      assert AddStep(c, st, s) == Append(st, s);
    }
  }

  /** Add, for the pool and the session index that Register has reached by then. */
  lemma AddGoesOn(c: Bindings, pools: Pools, sess: Sessions, t: ClientTunnel, s: string, st: State)
    requires Enabled(c, st, RegAdd(s)) && Underway(c, pools, sess, t, s, st)
    ensures var st' := AddStep(c, st, s);
      if Admitted(c, pools, t) then Underway(c, pools, sess, t, s, st') && st'.lock == st.lock
      else Through(c, pools, sess, t, s, st')
  {
    var ms := MembersIn(pools, t.subdomain);
    AddOutcomes(c, st, s);
    assert PoolIn(st, t.subdomain) == ms;
    UpdateTwice(pools, t.subdomain, ms, Put(ms, t));
  }

  lemma IndexGoesOn(c: Bindings, pools: Pools, sess: Sessions, t: ClientTunnel, s: string, st: State)
    requires Enabled(c, st, RegIndex(s)) && Underway(c, pools, sess, t, s, st)
    requires t.session != null && t.session.id == s
    ensures Through(c, pools, sess, t, s, Apply(c, st, RegIndex(s)))
  {
    IndexStep(c, st, s);
  }

  /** A step of Register itself brings it on, or through if it gives back the lock. */
  lemma OwnStep(c: Bindings, pools: Pools, sess: Sessions, t: ClientTunnel, s: string, st: State, act: Action)
    requires Underway(c, pools, sess, t, s, st) && st.lock == ByReg(s)
    requires t.session != null && t.session.id == s
    requires Enabled(c, st, act) && ByHolder(st.lock, act)
    ensures var st' := Apply(c, st, act);
      if act.RegIndex? || (act.RegAdd? && !Admitted(c, pools, t)) then Through(c, pools, sess, t, s, st')
      else Underway(c, pools, sess, t, s, st') && st'.lock == st.lock
  {
    match act
    case RegDrop(_) =>
      assert PoolIn(st, t.subdomain) == MembersIn(pools, t.subdomain);
      DropStep(c, st, s);
    case RegAdd(_) =>
      AddGoesOn(c, pools, sess, t, s, st);
      assert Apply(c, st, act) == AddStep(c, st, s);
    case RegHealthy(_) => HealthyStep(c, st, s);
    case RegIndex(_) => IndexGoesOn(c, pools, sess, t, s, st);
  }

  /** A step of another goroutine leaves Register where it is. */
  lemma OtherStepWaits(c: Bindings, pools: Pools, sess: Sessions, t: ClientTunnel, s: string, st: State, act: Action)
    requires Inv(c, st) && Underway(c, pools, sess, t, s, st) && st.lock == ByReg(s)
    requires Enabled(c, st, act) && !ByHolder(st.lock, act)
    ensures Underway(c, pools, sess, t, s, Apply(c, st, act)) && Apply(c, st, act).lock == st.lock
  {
    OthersWait(c, st, act);
    assert Critical(st.regs[s].pc);
  }

  predicate Over(regs: Regs, s: string) {
    s in regs && (regs[s].pc == Registered || regs[s].pc == Rejected || regs[s].pc == TurnedAway)
  }

  lemma OverStaysOver(regs: Regs, regs': Regs, s: string)
    requires Evolve(regs, regs') && Over(regs, s)
    ensures Over(regs', s)
  {}

  /** Once it has given back the lock, Register does not take it again. */
  lemma {:induction false} OverForGood(c: Bindings, st: State, s: string, acts: seq<Action>, st': State)
    requires Inv(c, st) && Reaches(c, st, acts, st') && Over(st.regs, s)
    ensures st'.lock != ByReg(s)
    decreases |acts|
  {
    if acts != [] {
      var next := Apply(c, st, acts[0]);
      StepEffect(c, st, acts[0]);
      OverStaysOver(st.regs, next.regs, s);
      StepKeepsInv(c, st, acts[0]);
      OverForGood(c, next, s, acts[1..], st');
    }
  }

  lemma {:induction false} UnderwayUntilReleased(c: Bindings, pools: Pools, sess: Sessions, t: ClientTunnel, s: string,
                                                 st: State, acts: seq<Action>, st': State)
    requires Inv(c, st) && Underway(c, pools, sess, t, s, st) && st.lock == ByReg(s)
    requires Reaches(c, st, acts, st') && st'.lock == ByReg(s)
    ensures Inv(c, st') && Underway(c, pools, sess, t, s, st')
    decreases |acts|
  {
    if acts != [] {
      var next := Apply(c, st, acts[0]);
      StepKeepsInv(c, st, acts[0]);
      if !ByHolder(st.lock, acts[0]) {
        OtherStepWaits(c, pools, sess, t, s, st, acts[0]);
        UnderwayUntilReleased(c, pools, sess, t, s, next, acts[1..], st');
      } else {
        assert RegOk(c, s, st.regs[s], st.pools);
        OwnStep(c, pools, sess, t, s, st, acts[0]);
        if Through(c, pools, sess, t, s, next) {
          OverForGood(c, next, s, acts[1..], st');
        } else {
          UnderwayUntilReleased(c, pools, sess, t, s, next, acts[1..], st');
        }
      }
    }
  }

  /** Register acts as one step.  Whatever runs between the moment s takes the registry lock and
      the step by which the lock is given back, the indices are then exactly what class Registry
      promises for the indices at the first moment: for a registration that is admitted and for
      one that is refused. */
  lemma RegisterSteps(c: Bindings, st: State, s: string, acts: seq<Action>, mid: State, act: Action)
    requires Inv(c, st) && Enabled(c, st, RegLock(s))
    requires Reaches(c, Apply(c, st, RegLock(s)), acts, mid) && mid.lock == ByReg(s)
    requires Enabled(c, mid, act) && Apply(c, mid, act).lock != ByReg(s)
    ensures Through(c, st.pools, st.bySess, st.regs[s].tunnel, s, Apply(c, mid, act))
  {
    var t := st.regs[s].tunnel;
    LockStep(c, st, s);
    StepKeepsInv(c, st, RegLock(s));
    UnderwayUntilReleased(c, st.pools, st.bySess, t, s, Apply(c, st, RegLock(s)), acts, mid);
    if ByHolder(mid.lock, act) {
      assert RegOk(c, s, mid.regs[s], mid.pools);
      OwnStep(c, st.pools, st.bySess, t, s, mid, act);
    } else {
      OtherStepWaits(c, st.pools, st.bySess, t, s, mid, act);
    }
  }

  // ---- RemoveBySessionID

  /** The tunnel is out of the session index and still in its pool. */
  ghost predicate HalfRemoved(pools: Pools, sess: Sessions, d: nat, x: Disc, st: State) {
    && st.lock == ByDisc(d) && d in st.discs && st.discs[d] == x
    && st.pools == pools && st.bySess == sess
  }

  lemma TakesOut(c: Bindings, st: State, d: nat)
    requires Enabled(c, st, DiscLock(d))
    ensures var st', s := Apply(c, st, DiscLock(d)), st.discs[d].session;
      if s in st.bySess then HalfRemoved(st.pools, st.bySess - {s}, d, Disc(s, Removing(st.bySess[s])), st')
      else st'.pools == st.pools && st'.bySess == st.bySess && st'.lock.Free?
  {}

  lemma RemovesFromPool(c: Bindings, st: State, d: nat)
    requires Enabled(c, st, DiscRemove(d)) && st.discs[d].pc.victim.subdomain in st.pools
    ensures var st', t := Apply(c, st, DiscRemove(d)), st.discs[d].pc.victim;
      && st'.bySess == st.bySess && st'.lock.Free?
      && st'.pools == st.pools[t.subdomain := Delete(st.pools[t.subdomain], t.id)]
      && d in st'.discs && st'.discs[d].pc == Done
  {}

  lemma DoneStaysDone(c: Bindings, st: State, d: nat, act: Action)
    requires Enabled(c, st, act) && d in st.discs && st.discs[d].pc == Done
    ensures d in Apply(c, st, act).discs && Apply(c, st, act).discs[d].pc == Done
  {
    if act.RegAdd? {
      AddChanges(c, st, act.s);
      assert Apply(c, st, act) == AddStep(c, st, act.s);
    }
  }

  lemma {:induction false} DoneForGood(c: Bindings, st: State, d: nat, acts: seq<Action>, st': State)
    requires Inv(c, st) && Reaches(c, st, acts, st') && d in st.discs && st.discs[d].pc == Done
    ensures st'.lock != ByDisc(d)
    decreases |acts|
  {
    if acts != [] {
      DoneStaysDone(c, st, d, acts[0]);
      StepKeepsInv(c, st, acts[0]);
      DoneForGood(c, Apply(c, st, acts[0]), d, acts[1..], st');
    }
  }

  lemma {:induction false} HalfRemovedUntilReleased(c: Bindings, pools: Pools, sess: Sessions, d: nat, x: Disc,
                                                    st: State, acts: seq<Action>, st': State)
    requires Inv(c, st) && x.pc.Removing? && HalfRemoved(pools, sess, d, x, st)
    requires Reaches(c, st, acts, st') && st'.lock == ByDisc(d)
    ensures Inv(c, st') && HalfRemoved(pools, sess, d, x, st')
    decreases |acts|
  {
    if acts != [] {
      var next := Apply(c, st, acts[0]);
      StepKeepsInv(c, st, acts[0]);
      if ByHolder(st.lock, acts[0]) {
        RemovesFromPool(c, st, d);
        DoneForGood(c, next, d, acts[1..], st');
      } else {
        OthersWait(c, st, acts[0]);
        HalfRemovedUntilReleased(c, pools, sess, d, x, next, acts[1..], st');
      }
    }
  }

  /** RemoveBySessionID acts as one step too: between the step that finds the session and the step
      that gives back the lock others may run, and the indices are then what class Registry
      promises for the indices at the first moment. */
  lemma RemoveSteps(c: Bindings, st: State, d: nat, acts: seq<Action>, mid: State, act: Action)
    requires Inv(c, st) && Enabled(c, st, DiscLock(d)) && st.discs[d].session in st.bySess
    requires Reaches(c, Apply(c, st, DiscLock(d)), acts, mid) && mid.lock == ByDisc(d)
    requires Enabled(c, mid, act) && Apply(c, mid, act).lock != ByDisc(d)
    ensures var t, last := st.bySess[st.discs[d].session], Apply(c, mid, act);
      && t.subdomain in st.pools
      && last.bySess == st.bySess - {st.discs[d].session}
      && last.pools == st.pools[t.subdomain := Delete(st.pools[t.subdomain], t.id)]
  {
    var s := st.discs[d].session;
    var x := Disc(s, Removing(st.bySess[s]));
    TakesOut(c, st, d);
    StepKeepsInv(c, st, DiscLock(d));
    EntryIsMember(st.pools, st.bySess, s);
    HalfRemovedUntilReleased(c, st.pools, st.bySess - {s}, d, x, Apply(c, st, DiscLock(d)), acts, mid);
    if ByHolder(mid.lock, act) {
      RemovesFromPool(c, mid, d);
    } else {
      OthersWait(c, mid, act);
    }
  }

  lemma EntryIsMember(pools: Pools, sess: Sessions, s: string)
    requires Agree(pools, sess, NoHole) && s in sess
    ensures Member(pools, sess[s])
  {}
}
