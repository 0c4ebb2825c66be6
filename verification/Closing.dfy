/** What a disconnect, a refusal and a supersede leave behind: nobody who is out of the registry keeps
    an open transport, but for a drain worker that is still to close it. */
module Closing {
  import opened Registry
  import opened Hooks
  import opened Runs
  import Handles

  /** A disconnect has closed the transport before it removes the tunnel, and has removed the session
      when it is done. */
  ghost predicate DiscClosed(d: Disc, sess: map<string, ClientTunnel>, closed: set<ClientTunnel>, gone: set<string>) {
    match d.pc
    case WaitForLock => d.session in sess ==> sess[d.session] in closed
    case Removing(t) => t in closed
    case Done => d.session in gone
    case _ => true
  }

  ghost predicate DiscsClosed(st: State) {
    forall d :: d in st.discs ==> DiscClosed(st.discs[d], st.bySess, st.closed, st.gone)
  }

  /** The tunnel of this session is closed, or has a drain worker. */
  predicate Out(st: State, s: string) {
    s in st.regs && (st.regs[s].tunnel in st.closed || st.regs[s].tunnel in st.workers)
  }

  /** Who was removed or refused is closed, or has a drain worker. */
  ghost predicate OutClosed(st: State) {
    forall s :: s in st.regs && (s in st.gone || st.regs[s].pc == TurnedAway) ==> Out(st, s)
  }

  ghost predicate AllClosed(st: State) {
    DiscsClosed(st) && OutClosed(st)
  }

  // ---- What a step changes of these

  /** The session index gains only the entry of the session that is registered. */
  ghost predicate IndexGrows(st: State, act: Action, sess: map<string, ClientTunnel>) {
    forall s :: s in sess ==> (s in st.bySess && sess[s] == st.bySess[s]) || act == RegIndex(s)
  }

  lemma IndexAfter(c: Bindings, st: State, act: Action)
    requires Enabled(c, st, act)
    ensures IndexGrows(st, act, Apply(c, st, act).bySess)
  {
    if act.RegAdd? {
      IndexAfterAdd(c, st, act.s);
    } else if IsReg(act) {
      IndexAfterReg(c, st, act);
    } else if IsDisc(act) {
      StepEffect(c, st, act);
    } else {
      assert SameRegistry(st, Apply(c, st, act));
    }
  }

  lemma IndexAfterAdd(c: Bindings, st: State, s: string)
    requires Enabled(c, st, RegAdd(s))
    ensures Apply(c, st, RegAdd(s)).bySess == st.bySess
  {
    if HasId(PoolIn(st, st.regs[s].tunnel.subdomain), st.regs[s].tunnel.id) {
      assert AddStep(c, st, s) == Supersede(st, s);
    } else if Admits(c, st, s) {
      assert AddStep(c, st, s) == Append(st, s);
    } else {
      assert AddStep(c, st, s) == TurnAway(st, s);
    }
    assert Apply(c, st, RegAdd(s)) == AddStep(c, st, s);
  }

  lemma IndexAfterReg(c: Bindings, st: State, act: Action)
    requires Enabled(c, st, act) && IsReg(act) && !act.RegAdd?
    ensures IndexGrows(st, act, Apply(c, st, act).bySess)
  {}

  /** Registrations touch no disconnect and remove nobody. */
  lemma RemovalFrame(c: Bindings, st: State, act: Action)
    requires Enabled(c, st, act) && !IsDisc(act)
    ensures Apply(c, st, act).discs == st.discs && Apply(c, st, act).gone == st.gone
  {
    if act.RegAdd? {
      AddChanges(c, st, act.s);
      assert Apply(c, st, act) == AddStep(c, st, act.s);
    } else if !IsReg(act) {
      assert SameRegistry(st, Apply(c, st, act));
    }
  }

  // ---- Disconnects

  lemma OthersStayClosed(c: Bindings, st: State, act: Action, st': State)
    requires DiscsOk(st.discs, st.regs) && DiscsClosed(st) && Enabled(c, st, act) && !IsDisc(act)
    requires st'.discs == st.discs && st.gone <= st'.gone && st.closed <= st'.closed
    requires IndexGrows(st, act, st'.bySess)
    ensures DiscsClosed(st')
  {
    forall d | d in st.discs ensures DiscClosed(st.discs[d], st'.bySess, st'.closed, st'.gone) {
      assert DiscClosed(st.discs[d], st.bySess, st.closed, st.gone);
      assert IsRegistered(st.regs, st.discs[d].session);
    }
  }

  /** What one step of a disconnect makes of itself. */
  lemma DiscAfter(c: Bindings, st: State, act: Action) returns (x: Disc)
    requires Enabled(c, st, act) && IsDisc(act) && DiscsClosed(st)
    requires IndexedAsRegistered(st) && OwnTransports(st.discs, st.regs)
    ensures var st' := Apply(c, st, act);
      && st'.discs == st.discs[act.d := x] && DiscClosed(x, st'.bySess, st'.closed, st'.gone)
      && st.gone <= st'.gone
  {
    match act
    case DiscStart(d, s) => x := Disc(s, Get);
    case DiscGet(d) => x := GetAfter(c, st, d);
    case DiscClose(d) => x := CloseAfter(c, st, d);
    case DiscLock(d) => x := LockAfter(c, st, d);
    case DiscRemove(d) => x := Disc(st.discs[d].session, Done);
  }

  lemma GetAfter(c: Bindings, st: State, d: nat) returns (x: Disc)
    requires Enabled(c, st, DiscGet(d))
    ensures var st' := Apply(c, st, DiscGet(d));
      st'.discs == st.discs[d := x] && DiscClosed(x, st'.bySess, st'.closed, st'.gone) && st.gone <= st'.gone
  {
    x := Apply(c, st, DiscGet(d)).discs[d];
  }

  lemma LockAfter(c: Bindings, st: State, d: nat) returns (x: Disc)
    requires Enabled(c, st, DiscLock(d)) && DiscClosed(st.discs[d], st.bySess, st.closed, st.gone)
    ensures var st' := Apply(c, st, DiscLock(d));
      st'.discs == st.discs[d := x] && DiscClosed(x, st'.bySess, st'.closed, st'.gone) && st.gone <= st'.gone
  {
    x := Apply(c, st, DiscLock(d)).discs[d];
  }

  /** Every entry leads to the tunnel that was registered under the session. */
  ghost predicate IndexedAsRegistered(st: State) {
    forall s :: s in st.bySess ==> s in st.regs && st.regs[s].tunnel == st.bySess[s]
  }

  lemma InvIndexed(c: Bindings, st: State)
    requires Inv(c, st)
    ensures IndexedAsRegistered(st)
  {
    forall s | s in st.bySess ensures s in st.regs && st.regs[s].tunnel == st.bySess[s] {
      assert Member(st.pools, st.bySess[s]);
      MemberCameThrough(st.pools, st.regs, st.bySess[s]);
    }
  }

  lemma CloseAfter(c: Bindings, st: State, d: nat) returns (x: Disc)
    requires Enabled(c, st, DiscClose(d)) && IndexedAsRegistered(st) && OwnTransports(st.discs, st.regs)
    ensures var st' := Apply(c, st, DiscClose(d));
      st'.discs == st.discs[d := x] && DiscClosed(x, st'.bySess, st'.closed, st'.gone) && st.gone <= st'.gone
  {
    x := Disc(st.discs[d].session, WaitForLock);
  }

  lemma DiscsStayClosed(c: Bindings, st: State, act: Action, x: Disc, st': State)
    requires DiscsClosed(st) && Enabled(c, st, act) && IsDisc(act) && st'.discs == st.discs[act.d := x]
    requires DiscClosed(x, st'.bySess, st'.closed, st'.gone)
    requires st.gone <= st'.gone && st.closed <= st'.closed && IndexGrows(st, act, st'.bySess)
    ensures DiscsClosed(st')
  {
    forall d | d in st'.discs && d != act.d ensures DiscClosed(st'.discs[d], st'.bySess, st'.closed, st'.gone) {
      assert DiscClosed(st.discs[d], st.bySess, st.closed, st.gone);
    }
  }

  lemma StepKeepsDiscsClosed(c: Bindings, st: State, act: Action)
    requires Inv(c, st) && Books(st) && DiscsClosed(st) && Enabled(c, st, act)
    ensures DiscsClosed(Apply(c, st, act))
  {
    StepEffect(c, st, act);
    IndexAfter(c, st, act);
    if IsDisc(act) {
      InvIndexed(c, st);
      var x := DiscAfter(c, st, act);
      DiscsStayClosed(c, st, act, x, Apply(c, st, act));
    } else {
      RemovalFrame(c, st, act);
      OthersStayClosed(c, st, act, Apply(c, st, act));
    }
  }

  // ---- Everybody who is out

  lemma GoneByLock(c: Bindings, st: State, d: nat)
    requires Enabled(c, st, DiscLock(d))
    ensures Apply(c, st, DiscLock(d)).gone
            == if st.discs[d].session in st.bySess then st.gone else st.gone + {st.discs[d].session}
  {
    Handles.LockOutcome(c, st, d);
  }

  lemma UnindexedIsOut(c: Bindings, st: State, s: string)
    requires Inv(c, st) && st.lock.Free? && IsRegistered(st.regs, s) && s !in st.bySess && s !in st.gone
    requires NobodyLost(st.regs, st.pools, st.workers, st.gone)
    ensures Out(st, s)
  {
    NotIndexedIsOut(c, st, s);
  }

  lemma VictimIsOut(c: Bindings, st: State, d: nat)
    requires Inv(c, st) && Enabled(c, st, DiscRemove(d)) && DiscsClosed(st)
    ensures Out(st, st.discs[d].session)
  {
    ReleasesLock(st, d);
    assert DiscClosed(st.discs[d], st.bySess, st.closed, st.gone);
  }

  /** Whose session a step adds to those that are gone. */
  lemma GoneAfter(c: Bindings, st: State, act: Action, s: string)
    requires Enabled(c, st, act) && s in Apply(c, st, act).gone
    ensures s in st.gone || act.DiscRemove? || (act.DiscLock? && s !in st.bySess)
    ensures s in st.gone || s == st.discs[act.d].session
  {
    if !IsDisc(act) {
      RemovalFrame(c, st, act);
    } else if act.DiscLock? {
      GoneByLock(c, st, act.d);
    }
  }

  lemma NewlyGone(c: Bindings, st: State, act: Action, s: string)
    requires Inv(c, st) && Books(st) && AllClosed(st) && Enabled(c, st, act)
    requires s in Apply(c, st, act).gone && s !in st.gone
    ensures Out(st, s)
  {
    GoneAfter(c, st, act, s);
    if act.DiscRemove? {
      VictimIsOut(c, st, act.d);
    } else {
      assert IsRegistered(st.regs, s);
      UnindexedIsOut(c, st, s);
    }
  }

  /** Only onConnect turns a tunnel away. */
  lemma TurnedAwayAfter(c: Bindings, st: State, act: Action, s: string)
    requires Enabled(c, st, act) && act != RegClose(s)
    requires s in Apply(c, st, act).regs && Apply(c, st, act).regs[s].pc == TurnedAway
    ensures s in st.regs && st.regs[s].pc == TurnedAway
  {
    if act.RegAdd? {
      AddChanges(c, st, act.s);
      assert Apply(c, st, act) == AddStep(c, st, act.s);
    } else if IsReg(act) {
      TurnedAwayByReg(c, st, act, s);
    } else if IsDisc(act) {
      Handles.DiscFrame(c, st, act);
    } else {
      assert SameRegistry(st, Apply(c, st, act));
    }
  }

  lemma TurnedAwayByReg(c: Bindings, st: State, act: Action, s: string)
    requires Enabled(c, st, act) && IsReg(act) && !act.RegAdd? && act != RegClose(s)
    requires s in Apply(c, st, act).regs && Apply(c, st, act).regs[s].pc == TurnedAway
    ensures s in st.regs && st.regs[s].pc == TurnedAway
  {}

  lemma ClosedByRefusal(c: Bindings, st: State, s: string)
    requires Enabled(c, st, RegClose(s))
    ensures Out(Apply(c, st, RegClose(s)), s)
  {}

  lemma OutStays(st: State, st': State, s: string)
    requires Evolve(st.regs, st'.regs) && st.closed <= st'.closed && st.workers <= st'.workers && Out(st, s)
    ensures Out(st', s)
  {}

  lemma OutAfter(c: Bindings, st: State, act: Action, s: string)
    requires Inv(c, st) && Books(st) && AllClosed(st) && Enabled(c, st, act) && act != RegClose(s)
    requires var st' := Apply(c, st, act);
      s in st'.regs && (s in st'.gone || st'.regs[s].pc == TurnedAway)
    ensures Out(st, s)
  {
    if s in st.gone {
      assert IsRegistered(st.regs, s);
    } else if s in Apply(c, st, act).gone {
      NewlyGone(c, st, act, s);
    } else {
      TurnedAwayAfter(c, st, act, s);
    }
  }

  lemma {:induction false} RunKeepsClosed(c: Bindings, st: State, acts: seq<Action>, st': State)
    requires Inv(c, st) && Books(st) && AllClosed(st) && Reaches(c, st, acts, st')
    ensures Inv(c, st') && Books(st') && AllClosed(st')
    decreases |acts|
  {
    if acts != [] {
      StepKeepsClosed(c, st, acts[0]);
      RunKeepsClosed(c, Apply(c, st, acts[0]), acts[1..], st');
    }
  }

  lemma StepKeepsClosed(c: Bindings, st: State, act: Action)
    requires Inv(c, st) && Books(st) && AllClosed(st) && Enabled(c, st, act)
    ensures var st' := Apply(c, st, act); Inv(c, st') && Books(st') && AllClosed(st')
  {
    var st' := Apply(c, st, act);
    StepKeepsInv(c, st, act);
    StepEffect(c, st, act);
    StepKeepsBooks(c, st, act, st');
    StepKeepsDiscsClosed(c, st, act);
    forall s | s in st'.regs && (s in st'.gone || st'.regs[s].pc == TurnedAway)
      ensures Out(st', s)
    {
      if act == RegClose(s) {
        ClosedByRefusal(c, st, s);
      } else {
        OutAfter(c, st, act, s);
        OutStays(st, st', s);
      }
    }
  }

  // ---- What this means

  /** In every reachable state a tunnel that ended its registration and is not a member of its pool has
      its transport closed, or a drain worker that can close it. */
  lemma NobodyLeftOpen(c: Bindings, first: State, acts: seq<Action>, st: State, s: string)
    requires Run(c, first, acts, st) && s in st.regs
    requires st.regs[s].pc == Registered || st.regs[s].pc == TurnedAway
    ensures var t := st.regs[s].tunnel;
      Member(st.pools, t) || t in st.closed ||
      exists w :: Enabled(c, st, DrainClose(w)) && t in Apply(c, st, DrainClose(w)).closed
  {
    InitialInv(c, first);
    RunKeepsClosed(c, first, acts, st);
    var t := st.regs[s].tunnel;
    assert s in st.gone || st.regs[s].pc == TurnedAway ==> Out(st, s);
    if t in st.workers {
      WorkerCloses(c, st, t);
    }
  }

  lemma WorkerCloses(c: Bindings, st: State, t: ClientTunnel)
    requires t in st.workers
    ensures exists w :: Enabled(c, st, DrainClose(w)) && t in Apply(c, st, DrainClose(w)).closed
  {
    var w :| 0 <= w < |st.workers| && st.workers[w] == t;
    assert Enabled(c, st, DrainClose(w)) && t in Apply(c, st, DrainClose(w)).closed;
  }

  /** Once a disconnect is done, its session is in neither index of any later state, and its transport
      is closed unless the tunnel was superseded and waits for its drain. */
  lemma DisconnectIsFinal(c: Bindings, first: State, acts: seq<Action>, st: State, d: nat,
                          more: seq<Action>, st': State)
    requires Run(c, first, acts, st) && d in st.discs && st.discs[d].pc == Done
    requires Reaches(c, st, more, st')
    ensures var s := st.discs[d].session;
      && s !in st'.bySess
      && (forall k, m :: k in st'.pools && m in st'.pools[k] ==> m.session != null && m.session.id != s)
      && Out(st, s)
  {
    InitialInv(c, first);
    RunKeepsClosed(c, first, acts, st);
    var s := st.discs[d].session;
    assert DiscClosed(st.discs[d], st.bySess, st.closed, st.gone);
    assert IsRegistered(st.regs, s);
    DisconnectedNeverReappears(c, first, acts, st, more, st', s);
  }
}
