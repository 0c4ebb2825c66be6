/** Stream accounting on one tunnel (`internal/server/proxy.go`, `internal/server/bridge.go`) and
    its supersede drain (`internal/registry/pool.go`), as steps of concurrent goroutines. */
module Streams {

  /** What the drain worker is doing: nothing yet, looping, about to close, closed. */
  datatype WorkerPc = NotStarted | Watching | Closing | Closed

  /** Requests differ only in how far they are, so the state says how many are where. */
  datatype State = State(
    active: int,       // ActiveStreams
    picked: nat,       // the balancer chose this tunnel, the limit was not looked at yet
    checked: nat,      // past the limit check, no stream yet
    uncounted: nat,    // stream open, not counted yet
    live: nat,         // stream open and counted
    uncounting: nat,   // stream closed, still counted
    finished: nat,     // handles that were closed
    repeats: nat,      // Close calls on a handle that was closed before
    worker: WorkerPc,
    cut: nat)          // streams that were open when the worker closed the tunnel

  datatype Action =
    | Pick             // servePublic asks the pool, which a superseded tunnel has left
    | Check            // servePublic compares the counter with the limit
    | OpenStream       // yamux opens a stream for a request that passed
    | OpenFails
    | Count            // OpenStream adds one
    | CloseStream      // countedConn.Close closes the stream
    | Uncount          // and takes one off
    | CloseAgain       // a second Close on the same handle
    | Supersede        // Add replaces the tunnel and starts its worker
    | SeesZero
    | TimesOut
    | CloseTunnel

  function Pending(st: State): nat {
    st.checked + st.uncounted
  }

  function Counted(st: State): nat {
    st.live + st.uncounting
  }

  function OpenStreams(st: State): nat {
    st.uncounted + st.live
  }

  /** Requests that chose the tunnel and whose streams the counter does not show. */
  function InFlight(st: State): nat {
    st.picked + st.checked + st.uncounted
  }

  predicate Enabled(st: State, act: Action) {
    match act
    case Pick => st.worker == NotStarted
    case Check => st.picked > 0
    case OpenStream => st.checked > 0 && st.worker != Closed
    case OpenFails => st.checked > 0
    case Count => st.uncounted > 0
    case CloseStream => st.live > 0
    case Uncount => st.uncounting > 0
    case CloseAgain => st.finished > 0
    case Supersede => st.worker == NotStarted
    case SeesZero => st.worker == Watching && st.active == 0
    case TimesOut => st.worker == Watching
    case CloseTunnel => st.worker == Closing
  }

  function Apply(max: int, st: State, act: Action): State
    requires Enabled(st, act)
  {
    match act
    case Pick => st.(picked := st.picked + 1)
    case Check => st.(picked := st.picked - 1, checked := st.checked + if st.active >= max then 0 else 1)
    case OpenStream => st.(checked := st.checked - 1, uncounted := st.uncounted + 1)
    case OpenFails => st.(checked := st.checked - 1)
    case Count => st.(uncounted := st.uncounted - 1, live := st.live + 1, active := st.active + 1)
    case CloseStream => st.(live := st.live - 1, uncounting := st.uncounting + 1)
    case Uncount => st.(uncounting := st.uncounting - 1, finished := st.finished + 1, active := st.active - 1)
    case CloseAgain => st.(active := st.active - 1, repeats := st.repeats + 1)
    case Supersede => st.(worker := Watching)
    case SeesZero => st.(worker := Closing)
    case TimesOut => st.(worker := Closing)
    case CloseTunnel => st.(worker := Closed, cut := OpenStreams(st))
  }

  /** A run in which never more than k requests are between the limit check and the count. */
  predicate Reaches(max: int, k: nat, st: State, acts: seq<Action>, st': State)
    decreases |acts|
  {
    Pending(st) <= k &&
    if acts == [] then st' == st
    else Enabled(st, acts[0]) && Reaches(max, k, Apply(max, st, acts[0]), acts[1..], st')
  }

  // ---- The limit

  function Limit(max: int, k: nat): int {
    if max - 1 + k > 0 then max - 1 + k else 0
  }

  /** A tunnel in service, for instance one just registered: nobody is between the check and the
      count, the counter is right and within the bound, and no drain was started. */
  predicate Quiet(max: int, k: nat, st: State) {
    && Pending(st) == 0 && st.active == Counted(st) <= Limit(max, k) && st.repeats == 0
    && st.worker == NotStarted && st.cut == 0
  }

  /** The counter is the number of counted streams, less the repeated closes; the requests past
      the check may exceed the limit by those, and by k - 1. */
  predicate Inv(max: int, k: nat, st: State) {
    && st.active == Counted(st) - st.repeats
    && Counted(st) + Pending(st) <= Limit(max, k) + st.repeats
  }

  lemma StepKeepsInv(max: int, k: nat, st: State, act: Action)
    requires Inv(max, k, st) && Enabled(st, act) && Pending(Apply(max, st, act)) <= k
    ensures Inv(max, k, Apply(max, st, act))
  {}

  lemma {:induction false} RunKeepsInv(max: int, k: nat, st: State, acts: seq<Action>, st': State)
    requires Inv(max, k, st) && Reaches(max, k, st, acts, st')
    ensures Inv(max, k, st')
    decreases |acts|
  {
    if acts != [] {
      StepKeepsInv(max, k, st, acts[0]);
      RunKeepsInv(max, k, Apply(max, st, acts[0]), acts[1..], st');
    }
  }

  /** With at most k requests between the check and the count, the limit is overrun by at most
      k - 1, for counted and pending requests together; the counter is the number of counted
      streams exactly when no handle was closed twice. */
  lemma LimitHolds(max: int, k: nat, first: State, acts: seq<Action>, st: State)
    requires Quiet(max, k, first) && Reaches(max, k, first, acts, st)
    ensures st.active + Pending(st) <= Limit(max, k)
    ensures st.active == Counted(st) <==> st.repeats == 0
    ensures OpenStreams(st) <= Limit(max, k) + st.repeats
  {
    RunKeepsInv(max, k, first, acts, st);
  }

  /** A handle that is closed twice does leave the counter one too small. */
  lemma SecondCloseMiscounts(max: int, k: nat, st: State)
    requires st.live > 0 && st.active == Counted(st) && st.repeats == 0 && Pending(st) <= k
    ensures exists acts, st' :: Reaches(max, k, st, acts, st') && st'.active == Counted(st') - 1
  {
    var closed := st.(live := st.live - 1, uncounting := st.uncounting + 1);
    var off := closed.(uncounting := st.uncounting, finished := st.finished + 1, active := st.active - 1);
    var again := off.(active := st.active - 2, repeats := 1);
    var acts := [CloseStream, Uncount, CloseAgain];
    assert acts[1..] == [Uncount, CloseAgain] && acts[1..][1..] == [CloseAgain] && [CloseAgain][1..] == [];
    assert Reaches(max, k, off, [CloseAgain], again);
    assert Reaches(max, k, closed, [Uncount, CloseAgain], again);
    assert Reaches(max, k, st, acts, again);
  }

  // ---- Requests come to an end

  /** The steps that one request after the other takes, without new requests and second closes. */
  predicate IsProgress(act: Action) {
    act.Check? || act.OpenStream? || act.OpenFails? || act.Count? || act.CloseStream? || act.Uncount?
  }

  function StepsLeft(st: State): nat {
    5 * st.picked + 4 * st.checked + 3 * st.uncounted + 2 * st.live + st.uncounting
  }

  /** Every such step brings some request nearer to its end. */
  lemma {:induction false} RequestsEnd(max: int, k: nat, st: State, acts: seq<Action>, st': State)
    requires Reaches(max, k, st, acts, st') && forall i :: 0 <= i < |acts| ==> IsProgress(acts[i])
    ensures |acts| + StepsLeft(st') <= StepsLeft(st)
    decreases |acts|
  {
    if acts != [] {
      RequestsEnd(max, k, Apply(max, st, acts[0]), acts[1..], st');
    }
  }

  // ---- The limit can be overrun by that much

  lemma {:induction false} Together(max: int, k: nat, st: State, acts: seq<Action>, mid: State,
                                     more: seq<Action>, last: State)
    requires Reaches(max, k, st, acts, mid) && Reaches(max, k, mid, more, last)
    ensures Reaches(max, k, st, acts + more, last)
    decreases |acts|
  {
    if acts == [] {
      assert [] + more == more;
    } else {
      Together(max, k, Apply(max, st, acts[0]), acts[1..], mid, more, last);
      assert (acts + more)[1..] == acts[1..] + more;
    }
  }

  function PassRun(m: nat): seq<Action> {
    if m == 0 then [] else [Pick, Check] + PassRun(m - 1)
  }

  function OpenRun(m: nat): seq<Action> {
    if m == 0 then [] else [OpenStream, Count] + OpenRun(m - 1)
  }

  /** n requests, one after the other. */
  function FillRun(n: nat): seq<Action> {
    if n == 0 then [] else [Pick, Check] + ([OpenStream, Count] + FillRun(n - 1))
  }

  function Passed(st: State, m: nat): State {
    st.(checked := st.checked + m)
  }

  function Served(st: State, m: nat): State {
    st.(active := st.active + m, live := st.live + m)
  }

  lemma OnePasses(max: int, k: nat, st: State)
    requires st.worker == NotStarted && st.active < max && Pending(st) < k
    ensures Reaches(max, k, st, [Pick, Check], Passed(st, 1))
  {
    assert [Pick, Check][1..] == [Check] && [Check][1..] == [];
  }

  lemma OneOpens(max: int, k: nat, st: State)
    requires st.worker != Closed && Pending(st) < k
    ensures Reaches(max, k, Passed(st, 1), [OpenStream, Count], Served(st, 1))
  {
    assert [OpenStream, Count][1..] == [Count] && [Count][1..] == [];
  }

  lemma {:induction false} AllPass(max: int, k: nat, st: State, m: nat)
    requires st.worker == NotStarted && st.active < max && Pending(st) + m <= k
    ensures Reaches(max, k, st, PassRun(m), Passed(st, m))
    decreases m
  {
    if m > 0 {
      OnePasses(max, k, st);
      AllPass(max, k, Passed(st, 1), m - 1);
      Together(max, k, st, [Pick, Check], Passed(st, 1), PassRun(m - 1), Passed(st, m));
    }
  }

  lemma {:induction false} AllOpen(max: int, k: nat, st: State, m: nat)
    requires st.worker == NotStarted && Pending(st) + m <= k
    ensures Reaches(max, k, Passed(st, m), OpenRun(m), Served(st, m))
    decreases m
  {
    if m > 0 {
      OneOpens(max, k, Passed(st, m - 1));
      AllOpen(max, k, Served(st, 1), m - 1);
      Together(max, k, Passed(st, m), [OpenStream, Count], Passed(Served(st, 1), m - 1), OpenRun(m - 1), Served(st, m));
    }
  }

  lemma {:induction false} Fills(max: int, k: nat, st: State, m: nat)
    requires st.worker == NotStarted && st.active + m <= max && Pending(st) < k
    ensures Reaches(max, k, st, FillRun(m), Served(st, m))
    decreases m
  {
    if m > 0 {
      OnePasses(max, k, st);
      OneOpens(max, k, st);
      Fills(max, k, Served(st, 1), m - 1);
      Together(max, k, Passed(st, 1), [OpenStream, Count], Served(st, 1), FillRun(m - 1), Served(st, m));
      Together(max, k, st, [Pick, Check], Passed(st, 1), [OpenStream, Count] + FillRun(m - 1), Served(st, m));
    }
  }

  lemma FillThenPass(max: int, k: nat, st: State, f: nat)
    requires st.worker == NotStarted && Pending(st) == 0 && st.active + f == max - 1 && k >= 1
    ensures Reaches(max, k, st, FillRun(f) + PassRun(k), Passed(Served(st, f), k))
  {
    var full := Served(st, f);
    Fills(max, k, st, f);
    AllPass(max, k, full, k);
    Together(max, k, st, FillRun(f), full, PassRun(k), Passed(full, k));
  }

  /** The bound is exact: while there is room for a request, enough requests one after the other
      and then k concurrent ones bring the counter to max - 1 + k. */
  lemma LimitIsOverrun(max: int, k: nat, first: State)
    requires k >= 1 && Quiet(max, k, first) && first.active < max
    ensures exists acts, st :: Reaches(max, k, first, acts, st) && st.active == max - 1 + k
  {
    var room := max - 1 - first.active;
    var full := Served(first, room);
    FillThenPass(max, k, first, room);
    AllOpen(max, k, full, k);
    Together(max, k, first, FillRun(room) + PassRun(k), Passed(full, k), OpenRun(k), Served(full, k));
  }

  /** So the configured limit itself is kept exactly when no two requests are ever between the
      check and the count together. */
  lemma LimitKeptExactly(max: int, k: nat, first: State)
    requires Quiet(max, k, first) && first.active < max
    ensures (forall acts, st :: Reaches(max, k, first, acts, st) ==> st.active <= max) <==> k <= 1
  {
    if k >= 2 {
      LimitIsOverrun(max, k, first);
    } else {
      forall acts, st | Reaches(max, k, first, acts, st) ensures st.active <= max {
        LimitHolds(max, k, first, acts, st);
      }
    }
  }

  // ---- Closing the superseded tunnel

  /** After the look no further request picks the tunnel, so those in flight bound what is cut. */
  predicate Drains(n: nat, st: State) {
    && (st.worker == Closing || st.worker == Closed)
    && (st.worker == Closing ==> InFlight(st) + st.live <= n && st.cut == 0)
    && (st.worker == Closed ==> st.cut <= n)
  }

  lemma {:induction false} DrainsOn(max: int, k: nat, n: nat, st: State, acts: seq<Action>, st': State)
    requires Drains(n, st) && Reaches(max, k, st, acts, st')
    ensures Drains(n, st')
    decreases |acts|
  {
    if acts != [] {
      DrainsOn(max, k, n, Apply(max, st, acts[0]), acts[1..], st');
    }
  }

  /** A worker that leaves its loop before the deadline cuts no more streams than there were
      requests in flight when it looked, and handles closed twice by then: whatever runs
      afterwards. */
  lemma DrainCutsOnlyInFlight(max: int, k: nat, first: State, acts: seq<Action>, look: State,
                              more: seq<Action>, st: State)
    requires Quiet(max, k, first) && Reaches(max, k, first, acts, look) && Enabled(look, SeesZero)
    requires Reaches(max, k, Apply(max, look, SeesZero), more, st)
    ensures st.cut <= InFlight(look) + look.repeats
  {
    RunKeepsInv(max, k, first, acts, look);
    NotClosedYet(max, k, first, acts, look);
    DrainsOn(max, k, InFlight(look) + look.repeats, Apply(max, look, SeesZero), more, st);
  }

  lemma {:induction false} NotClosedYet(max: int, k: nat, st: State, acts: seq<Action>, st': State)
    requires (st.worker != Closed ==> st.cut == 0) && Reaches(max, k, st, acts, st')
    ensures st'.worker != Closed ==> st'.cut == 0
    decreases |acts|
  {
    if acts != [] {
      NotClosedYet(max, k, Apply(max, st, acts[0]), acts[1..], st');
    }
  }

  /** Exactly when an early worker is harmless: if nobody is in flight when it sees zero, and
      otherwise some continuation cuts as many streams as are in flight. */
  lemma DrainHarmlessExactly(max: int, k: nat, look: State)
    requires max >= 1 && Inv(max, k, look) && look.repeats == 0 && look.cut == 0 && Enabled(look, SeesZero)
    ensures exists j, more, st :: Reaches(max, j, Apply(max, look, SeesZero), more, st) && st.worker == Closed
                                  && st.cut == InFlight(look)
    ensures (forall j, more, st :: Reaches(max, j, Apply(max, look, SeesZero), more, st) ==> st.cut == 0)
            <==> InFlight(look) == 0
  {
    var closing := Apply(max, look, SeesZero);
    CutsAllInFlight(max, closing);
    if InFlight(look) == 0 {
      forall j, more, st | Reaches(max, j, closing, more, st) ensures st.cut == 0 {
        DrainsOn(max, j, 0, closing, more, st);
      }
    }
  }

  function CutRun(picked: nat, checked: nat): seq<Action> {
    seq(picked, _ => Check) + (seq(picked + checked, _ => OpenStream) + [CloseTunnel])
  }

  /** Everybody in flight gets as far as an open stream before the worker closes the tunnel. */
  lemma CutsAllInFlight(max: int, st: State)
    requires max >= 1 && st.worker == Closing && st.active == 0 && st.live == 0
    ensures exists j, acts, st' ::
      Reaches(max, j, st, acts, st') && st'.worker == Closed && st'.cut == InFlight(st)
  {
    var k, n := InFlight(st), st.picked + st.checked;
    var checked := st.(picked := 0, checked := n);
    var open := checked.(checked := 0, uncounted := k);
    var last := open.(worker := Closed, cut := k);
    ChecksPass(max, k, st, st.picked);
    StreamsOpen(max, k, checked, n);
    LastClose(max, k, open);
    Together(max, k, checked, seq(n, _ => OpenStream), open, [CloseTunnel], last);
    Together(max, k, st, seq(st.picked, _ => Check), checked, seq(n, _ => OpenStream) + [CloseTunnel], last);
    assert Reaches(max, k, st, CutRun(st.picked, st.checked), last);
  }

  lemma LastClose(max: int, k: nat, st: State)
    requires st.worker == Closing && Pending(st) <= k
    ensures Reaches(max, k, st, [CloseTunnel], st.(worker := Closed, cut := OpenStreams(st)))
  {
    assert [CloseTunnel][1..] == [];
  }

  lemma {:induction false} ChecksPass(max: int, k: nat, st: State, m: nat)
    requires st.active < max && m <= st.picked && Pending(st) + m <= k
    ensures Reaches(max, k, st, seq(m, _ => Check), st.(picked := st.picked - m, checked := st.checked + m))
    decreases m
  {
    if m > 0 {
      ChecksPass(max, k, Apply(max, st, Check), m - 1);
      assert seq(m, _ => Check)[1..] == seq(m - 1, _ => Check);
    }
  }

  lemma {:induction false} StreamsOpen(max: int, k: nat, st: State, m: nat)
    requires st.worker != Closed && m <= st.checked && Pending(st) <= k
    ensures Reaches(max, k, st, seq(m, _ => OpenStream),
      st.(checked := st.checked - m, uncounted := st.uncounted + m))
    decreases m
  {
    if m > 0 {
      StreamsOpen(max, k, Apply(max, st, OpenStream), m - 1);
      assert seq(m, _ => OpenStream)[1..] == seq(m - 1, _ => OpenStream);
    }
  }

  /** At the deadline the worker closes the tunnel whatever is open on it. */
  lemma DeadlineCloses(max: int, k: nat, st: State)
    requires st.worker == Watching && Pending(st) <= k
    ensures Reaches(max, k, st, [TimesOut, CloseTunnel], st.(worker := Closed, cut := OpenStreams(st)))
  {
    assert [TimesOut, CloseTunnel][1..] == [CloseTunnel] && [CloseTunnel][1..] == [];
  }

  /** And such looks are reached: any number of requests can be in flight when the worker of a
      tunnel without streams sees zero. */
  lemma LooksWhileInFlight(max: int, k: nat, first: State, n: nat)
    requires Quiet(max, k, first) && first.active == 0 && first.picked == 0
    ensures exists acts, look ::
      Reaches(max, k, first, acts, look) && Enabled(look, SeesZero) && InFlight(look) == n && look.repeats == 0
  {
    AllPick(max, k, first, n);
    var picked := first.(picked := n);
    var look := picked.(worker := Watching);
    assert [Supersede][1..] == [];
    assert Reaches(max, k, picked, [Supersede], look);
    Together(max, k, first, seq(n, _ => Pick), picked, [Supersede], look);
  }

  lemma {:induction false} AllPick(max: int, k: nat, st: State, m: nat)
    requires st.worker == NotStarted && Pending(st) <= k
    ensures Reaches(max, k, st, seq(m, _ => Pick), st.(picked := st.picked + m))
    decreases m
  {
    if m > 0 {
      AllPick(max, k, Apply(max, st, Pick), m - 1);
      assert seq(m, _ => Pick)[1..] == seq(m - 1, _ => Pick);
    }
  }
}
