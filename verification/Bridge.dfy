/** The byte bridge (`internal/client/handler.go`, `internal/server/bridge.go`): two pumps, each
    copying one direction between two connections, and the goroutine that waits for them. */
module Bridge {
  import opened GoStrings

  newtype Byte = x: int | 0 <= x < 256

  /** The two connections: A is the tunnel's stream, B the connection to the local service. */
  datatype Side = A | B

  datatype Dir = Up | Down

  function Src(d: Dir): Side {
    if d == Up then A else B
  }

  function Dst(d: Dir): Side {
    if d == Up then B else A
  }

  /** What came with the bytes of a Read: nothing, the end of the stream, or an error. */
  datatype Then = More | Eof | Failed

  /** io.Copy reads and writes in turn; the half-close and the send on errCh follow. */
  datatype PumpPc = Reading | Writing(buf: seq<Byte>, next: Then) | HalfClosing(ok: bool) | Done(ok: bool)

  datatype Pump = Pump(
    produced: seq<Byte>,   // what the peer behind the source has sent
    ended: bool,           // and that it has finished sending
    taken: nat,            // how many of these bytes Read has returned
    delivered: seq<Byte>,  // what Write has handed to the destination
    pc: PumpPc)

  /** bridgeBidirectional waits for both pumps; Bridge closes on the first that finishes. */
  datatype Mode = WaitBoth | CloseFirst

  datatype State = State(
    up: Pump,
    down: Pump,
    closed: set<Side>,
    halfClosed: set<Side>,
    faults: set<Side>,       // connections that the network has broken
    received: seq<Dir>,      // whose results came out of errCh, in order
    result: Option<bool>)    // true for a nil error

  datatype Action =
    | Send(d: Dir, data: seq<Byte>)
    | End(d: Dir)
    | Break(side: Side)
    | Read(d: Dir, n: nat, next: Then)
    | Write(d: Dir, k: nat, ok: bool)
    | HalfClose(d: Dir)
    | Receive(d: Dir)
    | Return
    | CloseConn(side: Side)

  /** The steps of the peers and the network; the others are the program's. */
  predicate IsEnvironment(act: Action) {
    act.Send? || act.End? || act.Break?
  }

  function PumpOf(st: State, d: Dir): Pump {
    if d == Up then st.up else st.down
  }

  function WithPump(st: State, d: Dir, p: Pump): State {
    if d == Up then st.(up := p) else st.(down := p)
  }

  function After(next: Then): PumpPc {
    match next
    case More => Reading
    case Eof => HalfClosing(true)
    case Failed => HalfClosing(false)
  }

  predicate CanRead(st: State, d: Dir, n: nat, next: Then)
  {
    var p := PumpOf(st, d);
    && p.pc.Reading?
    && p.taken + n <= |p.produced|
    && (next == More ==> n > 0)
    && (next == Eof ==> p.ended && p.taken + n == |p.produced|)
    && (next == Failed ==> Src(d) in st.closed || Src(d) in st.faults)
    && (Src(d) in st.closed ==> n == 0 && next == Failed)
  }

  predicate CanWrite(st: State, d: Dir, k: nat, ok: bool)
  {
    var p := PumpOf(st, d);
    && p.pc.Writing?
    && k <= |p.pc.buf|
    && (ok ==> k == |p.pc.buf|)
    && (Dst(d) in st.closed || Dst(d) in st.halfClosed ==> !ok && k == 0)
    && (!ok ==> Dst(d) in st.closed || Dst(d) in st.halfClosed || Dst(d) in st.faults)
  }

  predicate Enabled(mode: Mode, st: State, act: Action)
  {
    match act
    case Send(d, _) => !PumpOf(st, d).ended
    case End(d) => !PumpOf(st, d).ended
    case Break(_) => true
    case Read(d, n, next) => CanRead(st, d, n, next)
    case Write(d, k, ok) => CanWrite(st, d, k, ok)
    case HalfClose(d) => PumpOf(st, d).pc.HalfClosing?
    case Receive(d) =>
      && PumpOf(st, d).pc.Done? && d !in st.received
      && (mode == CloseFirst && st.received != [] ==> st.closed == {A, B})
    case Return => |st.received| == 2 && st.result.None?
    case CloseConn(s) =>
      s !in st.closed &&
      (match mode
       case WaitBoth => st.result.Some? && (s == A ==> B in st.closed)
       case CloseFirst => st.received != [] && (s == B ==> A in st.closed))
  }

  function Succeeded(st: State, d: Dir): bool
  {
    PumpOf(st, d).pc.Done? && PumpOf(st, d).pc.ok
  }

  /** `caps` are the connections that have a CloseWrite method. */
  function Apply(mode: Mode, caps: set<Side>, st: State, act: Action): State
    requires Enabled(mode, st, act)
  {
    match act
    case Send(d, data) => WithPump(st, d, PumpOf(st, d).(produced := PumpOf(st, d).produced + data))
    case End(d) => WithPump(st, d, PumpOf(st, d).(ended := true))
    case Break(s) => st.(faults := st.faults + {s})
    case Read(d, n, next) => WithPump(st, d, AfterRead(PumpOf(st, d), n, next))
    case Write(d, k, ok) => WithPump(st, d, AfterWrite(PumpOf(st, d), k, ok))
    case HalfClose(d) =>
      WithPump(st, d, PumpOf(st, d).(pc := Done(PumpOf(st, d).pc.ok))).(
        halfClosed := if mode == WaitBoth && Dst(d) in caps then st.halfClosed + {Dst(d)} else st.halfClosed)
    case Receive(d) => st.(received := st.received + [d])
    case Return =>
      var first, second := st.received[0], st.received[1];
      st.(result := Some(Succeeded(st, first) && (mode == CloseFirst || Succeeded(st, second))))
    case CloseConn(s) => st.(closed := st.closed + {s})
  }

  function AfterRead(p: Pump, n: nat, next: Then): Pump
    requires p.taken + n <= |p.produced|
  {
    p.(taken := p.taken + n, pc := if n > 0 then Writing(p.produced[p.taken..p.taken + n], next) else After(next))
  }

  function AfterWrite(p: Pump, k: nat, ok: bool): Pump
    requires p.pc.Writing? && k <= |p.pc.buf|
  {
    p.(delivered := p.delivered + p.pc.buf[..k], pc := if ok then After(p.pc.next) else HalfClosing(false))
  }

  function Fresh(): Pump {
    Pump([], false, 0, [], Reading)
  }

  function Initial(): State {
    State(Fresh(), Fresh(), {}, {}, {}, [], None)
  }

  /** A run: the peers, the network and the goroutines take turns in any order. */
  predicate Reaches(mode: Mode, caps: set<Side>, st: State, acts: seq<Action>, st': State)
    decreases |acts|
  {
    if acts == [] then st' == st
    else Enabled(mode, st, acts[0]) && Reaches(mode, caps, Apply(mode, caps, st, acts[0]), acts[1..], st')
  }

  // ---- What one pump keeps

  /** Bytes go through in order, none is lost and none is made up; success means the end of the
      stream was seen and everything before it handed on. */
  predicate PumpOk(p: Pump) {
    && p.taken <= |p.produced|
    && match p.pc
       case Reading => p.delivered == p.produced[..p.taken]
       case Writing(buf, next) =>
         buf != [] && p.delivered + buf == p.produced[..p.taken] && (next == Eof ==> p.ended && p.taken == |p.produced|)
       case HalfClosing(ok) => p.delivered <= p.produced && (ok ==> Whole(p))
       case Done(ok) => p.delivered <= p.produced && (ok ==> Whole(p))
  }

  /** The peer has sent everything it had to send, and all of it was delivered. */
  predicate Whole(p: Pump) {
    p.ended && p.delivered == p.produced
  }

  predicate PumpFailed(p: Pump) {
    (p.pc.Writing? && p.pc.next == Failed) || (p.pc.HalfClosing? && !p.pc.ok) || (p.pc.Done? && !p.pc.ok)
  }

  lemma ReadKeepsPump(p: Pump, n: nat, next: Then)
    requires PumpOk(p) && p.pc.Reading? && p.taken + n <= |p.produced|
    requires (next == More ==> n > 0) && (next == Eof ==> p.ended && p.taken + n == |p.produced|)
    ensures PumpOk(AfterRead(p, n, next))
  {
    assert p.produced[..p.taken] + p.produced[p.taken..p.taken + n] == p.produced[..p.taken + n];
  }

  lemma WriteKeepsPump(p: Pump, k: nat, ok: bool)
    requires PumpOk(p) && p.pc.Writing? && k <= |p.pc.buf| && (ok ==> k == |p.pc.buf|)
    ensures PumpOk(AfterWrite(p, k, ok))
  {
    var buf := p.pc.buf;
    assert p.produced[..p.taken] == (p.delivered + buf[..k]) + buf[k..];
    assert ok ==> buf[..k] == buf;
  }

  lemma SendKeepsPump(p: Pump, data: seq<Byte>)
    requires PumpOk(p) && !p.ended
    ensures PumpOk(p.(produced := p.produced + data))
  {
    assert (p.produced + data)[..p.taken] == p.produced[..p.taken];
  }

  // ---- What the bridge keeps

  ghost predicate PumpsOk(st: State)
  {
    PumpOk(st.up) && PumpOk(st.down)
  }

  predicate ReceivedOk(st: State)
  {
    && (forall i :: 0 <= i < |st.received| ==> PumpOf(st, st.received[i]).pc.Done?)
    && |st.received| <= 2
    && (|st.received| == 2 ==> st.received[0] != st.received[1])
    && (st.result.Some? ==> |st.received| == 2)
  }

  /** What waiting for both pumps adds. */
  predicate WaitOk(st: State)
  {
    // neither connection is closed before both pumps are done
    && (st.closed != {} ==> st.result.Some?)
    // only a pump's own end half-closes what it writes to
    && (forall d :: Dst(d) in st.halfClosed ==> PumpOf(st, d).pc.Done?)
    // a pump fails only for a broken connection at one of its ends
    && (forall d :: PumpFailed(PumpOf(st, d)) ==> Src(d) in st.faults || Dst(d) in st.faults)
    && (st.result.Some? ==> st.result.value == (Succeeded(st, Up) && Succeeded(st, Down)))
  }

  predicate FirstOk(st: State)
  {
    && st.halfClosed == {}
    && (st.closed != {} ==> st.received != [])
    && (st.result.Some? ==> |st.received| == 2 && st.result.value == Succeeded(st, st.received[0]))
  }

  ghost predicate Inv(mode: Mode, st: State) {
    PumpsOk(st) && ReceivedOk(st) && (if mode == WaitBoth then WaitOk(st) else FirstOk(st))
  }

  lemma StepKeepsPumps(mode: Mode, caps: set<Side>, st: State, act: Action)
    requires Inv(mode, st) && Enabled(mode, st, act)
    ensures PumpsOk(Apply(mode, caps, st, act))
  {
    match act
    case Send(d, data) => SendKeepsPump(PumpOf(st, d), data);
    case Read(d, n, next) => ReadKeepsPump(PumpOf(st, d), n, next);
    case Write(d, k, ok) => WriteKeepsPump(PumpOf(st, d), k, ok);
    case _ =>
  }

  lemma BothReceived(st: State)
    requires ReceivedOk(st) && |st.received| == 2
    ensures st.up.pc.Done? && st.down.pc.Done?
    ensures forall d: Dir :: d in st.received
  {
    forall d: Dir ensures d in st.received {
      assert st.received[0] == d || st.received[1] == d;
    }
  }

  /** On a broken connection a read or a write can fail at any time. */
  lemma BrokenCanFail(mode: Mode, caps: set<Side>, st: State, d: Dir)
    requires PumpsOk(st)
    ensures PumpOf(st, d).pc.Reading? ==>
      Enabled(mode, Apply(mode, caps, st, Break(Src(d))), Read(d, 0, Failed))
    ensures PumpOf(st, d).pc.Writing? ==>
      Enabled(mode, Apply(mode, caps, st, Break(Dst(d))), Write(d, 0, false))
  {}

  /** A write hands on the next k bytes of the stream and no others, whether it succeeds or fails. */
  lemma WriteDelivers(mode: Mode, caps: set<Side>, st: State, d: Dir, k: nat, ok: bool)
    requires PumpsOk(st) && Enabled(mode, st, Write(d, k, ok))
    ensures var p, q := PumpOf(st, d), PumpOf(Apply(mode, caps, st, Write(d, k, ok)), d);
      |p.delivered| + k <= |p.produced| && q.delivered == p.produced[..|p.delivered| + k]
  {
    var p := PumpOf(st, d);
    assert p.produced[..p.taken] == (p.delivered + p.pc.buf[..k]) + p.pc.buf[k..];
    assert p.produced[..|p.delivered| + k] == p.produced[..p.taken][..|p.delivered| + k];
  }

  lemma StepKeepsReceived(mode: Mode, caps: set<Side>, st: State, act: Action)
    requires Inv(mode, st) && Enabled(mode, st, act)
    ensures ReceivedOk(Apply(mode, caps, st, act))
  {
    if act.Receive? && |st.received| == 2 {
      BothReceived(st);
    }
  }

  lemma StepKeepsWait(caps: set<Side>, st: State, act: Action)
    requires Inv(WaitBoth, st) && Enabled(WaitBoth, st, act)
    ensures WaitOk(Apply(WaitBoth, caps, st, act))
  {
    if |st.received| == 2 {
      BothReceived(st);
    }
    assert st.closed != {} ==> |st.received| == 2;
    match act
    case Read(d, n, next) => assert Src(d) !in st.closed;
    case Write(d, k, ok) => assert Dst(d) !in st.closed && Dst(d) !in st.halfClosed;
    case _ =>
  }

  lemma StepKeepsFirst(caps: set<Side>, st: State, act: Action)
    requires Inv(CloseFirst, st) && Enabled(CloseFirst, st, act)
    ensures FirstOk(Apply(CloseFirst, caps, st, act))
  {}

  lemma StepKeepsInv(mode: Mode, caps: set<Side>, st: State, act: Action)
    requires Inv(mode, st) && Enabled(mode, st, act)
    ensures Inv(mode, Apply(mode, caps, st, act))
  {
    StepKeepsPumps(mode, caps, st, act);
    StepKeepsReceived(mode, caps, st, act);
    match mode
    case WaitBoth => StepKeepsWait(caps, st, act);
    case CloseFirst => StepKeepsFirst(caps, st, act);
  }

  lemma {:induction false} RunKeepsInv(mode: Mode, caps: set<Side>, st: State, acts: seq<Action>, st': State)
    requires Inv(mode, st) && Reaches(mode, caps, st, acts, st')
    ensures Inv(mode, st')
    decreases |acts|
  {
    if acts != [] {
      StepKeepsInv(mode, caps, st, acts[0]);
      RunKeepsInv(mode, caps, Apply(mode, caps, st, acts[0]), acts[1..], st');
    }
  }

  // ---- The bridge that waits for both

  /** Whatever the schedule, what was delivered is a prefix of what was sent. */
  lemma DeliversInOrder(mode: Mode, caps: set<Side>, acts: seq<Action>, st: State, d: Dir)
    requires Reaches(mode, caps, Initial(), acts, st)
    ensures PumpOf(st, d).delivered <= PumpOf(st, d).produced
  {
    RunKeepsInv(mode, caps, Initial(), acts, st);
    var p := PumpOf(st, d);
    if p.pc.Writing? {
      assert p.delivered == (p.delivered + p.pc.buf)[..|p.delivered|];
    }
  }

  /** While a pump is at work, neither connection is closed and its destination is not half-closed. */
  lemma NothingClosesUnderAPump(caps: set<Side>, acts: seq<Action>, st: State, d: Dir)
    requires Reaches(WaitBoth, caps, Initial(), acts, st) && !PumpOf(st, d).pc.Done?
    ensures st.closed == {} && Dst(d) !in st.halfClosed
  {
    RunKeepsInv(WaitBoth, caps, Initial(), acts, st);
    if |st.received| == 2 {
      BothReceived(st);
    }
  }

  /** A nil result means that both directions were delivered whole, and a direction that was not
      leaves an error: a broken connection was the only way to that. */
  lemma NoTruncation(caps: set<Side>, acts: seq<Action>, st: State)
    requires Reaches(WaitBoth, caps, Initial(), acts, st) && st.result.Some?
    ensures st.result.value <==> Succeeded(st, Up) && Succeeded(st, Down)
    ensures st.result.value ==> Whole(st.up) && Whole(st.down)
    ensures !st.result.value ==> exists d :: !Succeeded(st, d) && (Src(d) in st.faults || Dst(d) in st.faults)
  {
    RunKeepsInv(WaitBoth, caps, Initial(), acts, st);
    BothReceived(st);
    if !st.result.value {
      var d := if Succeeded(st, Up) then Down else Up;
      assert !Succeeded(st, d) && PumpFailed(PumpOf(st, d));
    }
  }

  // ---- It always comes to an end

  function PumpWork(p: Pump): nat {
    2 * (if |p.delivered| <= |p.produced| then |p.produced| - |p.delivered| else 0) +
    match p.pc
    case Reading => 3
    case Writing(_, _) => 2
    case HalfClosing(_) => 1
    case Done(_) => 0
  }

  function WaiterWork(st: State): nat {
    (if |st.received| < 2 then 2 - |st.received| else 0)
    + (if st.result.None? then 1 else 0) + (if A in st.closed then 0 else 1) + (if B in st.closed then 0 else 1)
  }

  /** How many steps the program itself can still take, at most. */
  function Work(st: State): nat {
    PumpWork(st.up) + PumpWork(st.down) + WaiterWork(st)
  }

  lemma ReadIsWork(p: Pump, n: nat, next: Then)
    requires PumpOk(p) && p.pc.Reading? && p.taken + n <= |p.produced| && (next == More ==> n > 0)
    ensures PumpWork(AfterRead(p, n, next)) < PumpWork(p)
  {}

  lemma WriteIsWork(p: Pump, k: nat, ok: bool)
    requires PumpOk(p) && p.pc.Writing? && k <= |p.pc.buf| && (ok ==> k == |p.pc.buf|)
    ensures PumpWork(AfterWrite(p, k, ok)) < PumpWork(p)
  {
    assert |p.delivered| + |p.pc.buf| == p.taken;
  }

  lemma WaitIsWork(mode: Mode, caps: set<Side>, st: State, act: Action)
    requires ReceivedOk(st) && Enabled(mode, st, act) && (act.Receive? || act.Return? || act.CloseConn?)
    ensures WaiterWork(Apply(mode, caps, st, act)) < WaiterWork(st)
  {
    if |st.received| == 2 {
      BothReceived(st);
    }
  }

  lemma PumpIsWork(st: State, d: Dir, p: Pump, halfClosed: set<Side>)
    requires PumpWork(p) < PumpWork(PumpOf(st, d))
    ensures Work(WithPump(st, d, p).(halfClosed := halfClosed)) < Work(st)
  {}

  lemma StepIsWork(mode: Mode, caps: set<Side>, st: State, act: Action)
    requires Inv(mode, st) && Enabled(mode, st, act) && !IsEnvironment(act)
    ensures Work(Apply(mode, caps, st, act)) < Work(st)
  {
    if act.Read? {
      ReadIsWork(PumpOf(st, act.d), act.n, act.next);
      PumpIsWork(st, act.d, AfterRead(PumpOf(st, act.d), act.n, act.next), st.halfClosed);
    } else if act.Write? {
      WriteIsWork(PumpOf(st, act.d), act.k, act.ok);
      PumpIsWork(st, act.d, AfterWrite(PumpOf(st, act.d), act.k, act.ok), st.halfClosed);
    } else if act.HalfClose? {
      HalfCloseIsWork(mode, caps, st, act.d);
    } else {
      WaitIsWork(mode, caps, st, act);
    }
  }

  lemma HalfCloseIsWork(mode: Mode, caps: set<Side>, st: State, d: Dir)
    requires PumpOf(st, d).pc.HalfClosing?
    ensures Work(Apply(mode, caps, st, HalfClose(d))) < Work(st)
  {
    var p := PumpOf(st, d);
    PumpIsWork(st, d, p.(pc := Done(p.pc.ok)), Apply(mode, caps, st, HalfClose(d)).halfClosed);
  }

  predicate NoEnvironment(acts: seq<Action>) {
    forall i :: 0 <= i < |acts| ==> !IsEnvironment(acts[i])
  }

  lemma {:induction false} RunIsBounded(mode: Mode, caps: set<Side>, st: State, acts: seq<Action>, st': State)
    requires Inv(mode, st) && Reaches(mode, caps, st, acts, st') && NoEnvironment(acts)
    ensures |acts| <= Work(st) - Work(st')
    ensures st'.faults == st.faults && st'.up.ended == st.up.ended && st'.down.ended == st.down.ended
    decreases |acts|
  {
    if acts != [] {
      StepIsWork(mode, caps, st, acts[0]);
      StepKeepsInv(mode, caps, st, acts[0]);
      RunIsBounded(mode, caps, Apply(mode, caps, st, acts[0]), acts[1..], st');
    }
  }

  ghost predicate Stuck(mode: Mode, st: State) {
    forall act :: Enabled(mode, st, act) ==> IsEnvironment(act)
  }

  /** With both peers through, some goroutine can go on until everything is closed. */
  lemma PumpsGoOn(st: State, d: Dir)
    requires Inv(WaitBoth, st) && PumpOf(st, d).ended && !PumpOf(st, d).pc.Done?
    ensures !Stuck(WaitBoth, st)
  {
    var p := PumpOf(st, d);
    if |st.received| == 2 {
      BothReceived(st);
    }
    match p.pc
    case Reading => assert Enabled(WaitBoth, st, Read(d, |p.produced| - p.taken, Eof));
    case Writing(buf, _) => assert Enabled(WaitBoth, st, Write(d, |buf|, true));
    case HalfClosing(_) => assert Enabled(WaitBoth, st, HalfClose(d));
  }

  lemma WaiterGoesOn(st: State)
    requires Inv(WaitBoth, st) && st.up.pc.Done? && st.down.pc.Done?
    requires !(st.result.Some? && A in st.closed && B in st.closed)
    ensures !Stuck(WaitBoth, st)
  {
    if |st.received| == 2 {
      if st.result.None? {
        assert Enabled(WaitBoth, st, Return);
      } else if B !in st.closed {
        assert Enabled(WaitBoth, st, CloseConn(B));
      } else {
        assert Enabled(WaitBoth, st, CloseConn(A));
      }
    } else {
      var d := if Up in st.received then Down else Up;
      assert d !in st.received;
      assert Enabled(WaitBoth, st, Receive(d));
    }
  }

  lemma NoFaultNoFailure(st: State, d: Dir)
    requires Inv(WaitBoth, st) && st.faults == {} && PumpOf(st, d).pc.Done?
    ensures Succeeded(st, d)
  {
    assert !PumpFailed(PumpOf(st, d));
  }

  lemma BothClosed(closed: set<Side>)
    requires A in closed && B in closed
    ensures closed == {A, B}
  {
    forall s: Side ensures s in closed <==> s in {A, B} {
      assert s == A || s == B;
    }
  }

  lemma StuckMeansComplete(st: State)
    requires Inv(WaitBoth, st) && st.up.ended && st.down.ended && st.faults == {} && Stuck(WaitBoth, st)
    ensures st.result == Some(true) && Whole(st.up) && Whole(st.down) && st.closed == {A, B}
  {
    if !st.up.pc.Done? {
      PumpsGoOn(st, Up);
    } else if !st.down.pc.Done? {
      PumpsGoOn(st, Down);
    } else if !(st.result.Some? && A in st.closed && B in st.closed) {
      WaiterGoesOn(st);
    } else {
      NoFaultNoFailure(st, Up);
      NoFaultNoFailure(st, Down);
      BothClosed(st.closed);
    }
  }

  /** Once both peers have finished sending, on sound connections, the bridge comes to its end
      within a bounded number of steps whatever the schedule, and then everything has arrived,
      the result is nil and both connections are closed. */
  lemma BridgeCompletes(caps: set<Side>, acts: seq<Action>, st: State, more: seq<Action>, last: State)
    requires Reaches(WaitBoth, caps, Initial(), acts, st)
    requires st.up.ended && st.down.ended && st.faults == {}
    requires Reaches(WaitBoth, caps, st, more, last) && NoEnvironment(more)
    ensures |more| <= Work(st)
    ensures Stuck(WaitBoth, last) ==>
      last.result == Some(true) && Whole(last.up) && Whole(last.down) && last.closed == {A, B}
  {
    RunKeepsInv(WaitBoth, caps, Initial(), acts, st);
    RunIsBounded(WaitBoth, caps, st, more, last);
    RunKeepsInv(WaitBoth, caps, st, more, last);
    if Stuck(WaitBoth, last) {
      StuckMeansComplete(last);
    }
  }

  // ---- The end of one direction is passed on

  /** A destination is half-closed exactly when the pump that writes to it is through and it can be. */
  predicate HalfClosedOk(mode: Mode, caps: set<Side>, st: State) {
    forall d :: Dst(d) in st.halfClosed <==> mode == WaitBoth && PumpOf(st, d).pc.Done? && Dst(d) in caps
  }

  lemma StepKeepsHalfClosed(mode: Mode, caps: set<Side>, st: State, act: Action)
    requires HalfClosedOk(mode, caps, st) && Enabled(mode, st, act)
    ensures HalfClosedOk(mode, caps, Apply(mode, caps, st, act))
  {
    var st' := Apply(mode, caps, st, act);
    forall d ensures Dst(d) in st'.halfClosed <==> mode == WaitBoth && PumpOf(st', d).pc.Done? && Dst(d) in caps {
      assert Dst(d) in st.halfClosed <==> mode == WaitBoth && PumpOf(st, d).pc.Done? && Dst(d) in caps;
    }
  }

  lemma {:induction false} RunKeepsHalfClosed(mode: Mode, caps: set<Side>, st: State, acts: seq<Action>, st': State)
    requires HalfClosedOk(mode, caps, st) && Reaches(mode, caps, st, acts, st')
    ensures HalfClosedOk(mode, caps, st')
    decreases |acts|
  {
    if acts != [] {
      StepKeepsHalfClosed(mode, caps, st, acts[0]);
      RunKeepsHalfClosed(mode, caps, Apply(mode, caps, st, acts[0]), acts[1..], st');
    }
  }

  /** In every reachable state a side is half-closed exactly when bridgeBidirectional is through with
      the direction towards it and it has CloseWrite; the other bridge half-closes nothing. */
  lemma HalfClosedExactly(mode: Mode, caps: set<Side>, acts: seq<Action>, st: State, d: Dir)
    requires Reaches(mode, caps, Initial(), acts, st)
    ensures Dst(d) in st.halfClosed <==> mode == WaitBoth && PumpOf(st, d).pc.Done? && Dst(d) in caps
  {
    RunKeepsHalfClosed(mode, caps, Initial(), acts, st);
  }

  lemma EndIsPassedOn(caps: set<Side>, st: State, d: Dir)
    requires Inv(WaitBoth, st) && HalfClosedOk(WaitBoth, caps, st)
    requires PumpOf(st, d).ended && st.faults == {} && Stuck(WaitBoth, st)
    ensures Whole(PumpOf(st, d)) && (Dst(d) in caps ==> Dst(d) in st.halfClosed)
  {
    if !PumpOf(st, d).pc.Done? {
      PumpsGoOn(st, d);
    }
    NoFaultNoFailure(st, d);
  }

  /** A peer that waits for the end of what it receives gets to see it: once the one peer has ended,
      on sound connections, the program comes to rest within a bounded number of steps, with that
      direction delivered and the other side half-closed if it can be. */
  lemma WaitingPeerIsServed(caps: set<Side>, acts: seq<Action>, st: State, d: Dir, more: seq<Action>, rest: State)
    requires Reaches(WaitBoth, caps, Initial(), acts, st) && PumpOf(st, d).ended && st.faults == {}
    requires Reaches(WaitBoth, caps, st, more, rest) && NoEnvironment(more)
    ensures |more| <= Work(st)
    ensures Stuck(WaitBoth, rest) ==>
      Whole(PumpOf(rest, d)) && (Dst(d) in caps ==> Dst(d) in rest.halfClosed)
  {
    RunKeepsInv(WaitBoth, caps, Initial(), acts, st);
    RunKeepsHalfClosed(WaitBoth, caps, Initial(), acts, st);
    RunIsBounded(WaitBoth, caps, st, more, rest);
    RunKeepsInv(WaitBoth, caps, st, more, rest);
    RunKeepsHalfClosed(WaitBoth, caps, st, more, rest);
    if Stuck(WaitBoth, rest) {
      EndIsPassedOn(caps, rest, d);
    }
  }

  function Other(d: Dir): Dir {
    if d == Up then Down else Up
  }

  /** When the waiting peer then answers and ends, the program comes to rest with everything
      delivered. */
  lemma AnswerIsDelivered(caps: set<Side>, acts: seq<Action>, rest: State, d: Dir, answer: seq<Byte>,
                          more: seq<Action>, last: State)
    requires Reaches(WaitBoth, caps, Initial(), acts, rest) && PumpOf(rest, d).ended && rest.faults == {}
    requires !PumpOf(rest, Other(d)).ended && NoEnvironment(more)
    requires Reaches(WaitBoth, caps, rest, [Send(Other(d), answer), End(Other(d))] + more, last)
    ensures Stuck(WaitBoth, last) ==>
      && last.result == Some(true) && Whole(last.up) && Whole(last.down) && last.closed == {A, B}
      && PumpOf(last, Other(d)).produced == PumpOf(rest, Other(d)).produced + answer
  {
    var o, all := Other(d), [Send(Other(d), answer), End(Other(d))] + more;
    var sent := Apply(WaitBoth, caps, rest, Send(o, answer));
    var ended := Apply(WaitBoth, caps, sent, End(o));
    assert all[1..] == [End(o)] + more && all[1..][1..] == more;
    RunKeepsInv(WaitBoth, caps, Initial(), acts, rest);
    StepKeepsInv(WaitBoth, caps, rest, Send(o, answer));
    StepKeepsInv(WaitBoth, caps, sent, End(o));
    RunIsBounded(WaitBoth, caps, ended, more, last);
    RunKeepsInv(WaitBoth, caps, ended, more, last);
    RunKeepsProduced(WaitBoth, caps, ended, more, last);
    if Stuck(WaitBoth, last) {
      StuckMeansComplete(last);
    }
  }

  lemma {:induction false} RunKeepsProduced(mode: Mode, caps: set<Side>, st: State, acts: seq<Action>, st': State)
    requires Reaches(mode, caps, st, acts, st') && NoEnvironment(acts)
    ensures st'.up.produced == st.up.produced && st'.down.produced == st.down.produced
    decreases |acts|
  {
    if acts != [] {
      RunKeepsProduced(mode, caps, Apply(mode, caps, st, acts[0]), acts[1..], st');
    }
  }

  // ---- The bridge that closes first

  /** All that a nil result of Bridge says: the direction that finished first is whole. */
  lemma FirstDirectionIsWhole(caps: set<Side>, acts: seq<Action>, st: State)
    requires Reaches(CloseFirst, caps, Initial(), acts, st) && st.result.Some?
    ensures st.received != [] && (st.result.value <==> Succeeded(st, st.received[0]))
    ensures st.result.value ==> Whole(PumpOf(st, st.received[0]))
  {
    RunKeepsInv(CloseFirst, caps, Initial(), acts, st);
  }

  /** After both connections are closed no pump delivers another byte. */
  lemma {:induction false} ClosedDeliversNothing(caps: set<Side>, st: State, acts: seq<Action>, st': State)
    requires st.closed == {A, B} && Reaches(CloseFirst, caps, st, acts, st')
    ensures st'.closed == {A, B}
    ensures st'.up.delivered == st.up.delivered && st'.down.delivered == st.down.delivered
    ensures (st.up.ended ==> st'.up.ended && st'.up.produced == st.up.produced)
    ensures (st.down.ended ==> st'.down.ended && st'.down.produced == st.down.produced)
    decreases |acts|
  {
    if acts != [] {
      ClosedStep(caps, st, acts[0]);
      ClosedDeliversNothing(caps, Apply(CloseFirst, caps, st, acts[0]), acts[1..], st');
    }
  }

  lemma ClosedStep(caps: set<Side>, st: State, act: Action)
    requires st.closed == {A, B} && Enabled(CloseFirst, st, act)
    ensures var st' := Apply(CloseFirst, caps, st, act);
      && st'.closed == {A, B}
      && st'.up.delivered == st.up.delivered && st'.down.delivered == st.down.delivered
      && (st.up.ended ==> st'.up.ended && st'.up.produced == st.up.produced)
      && (st.down.ended ==> st'.down.ended && st'.down.produced == st.down.produced)
  {
    match act
    case Write(d, k, ok) => assert PumpOf(st, d).delivered + PumpOf(st, d).pc.buf[..0] == PumpOf(st, d).delivered;
    case CloseConn(s) => BothClosed(st.closed + {s});
    case _ =>
  }

  /** So with Bridge a direction ends up whole exactly if what was delivered when both connections
      were closed is all that its peer ever sends; in particular if it was whole at that time. */
  lemma WholeExactly(caps: set<Side>, st: State, acts: seq<Action>, st': State, d: Dir)
    requires st.closed == {A, B} && Reaches(CloseFirst, caps, st, acts, st')
    ensures Whole(PumpOf(st', d)) <==> PumpOf(st', d).ended && PumpOf(st', d).produced == PumpOf(st, d).delivered
    ensures Whole(PumpOf(st, d)) ==> Whole(PumpOf(st', d))
  {
    ClosedDeliversNothing(caps, st, acts, st');
  }

  lemma {:induction false} Together(mode: Mode, caps: set<Side>, st: State, acts: seq<Action>, mid: State,
                                     more: seq<Action>, last: State)
    requires Reaches(mode, caps, st, acts, mid) && Reaches(mode, caps, mid, more, last)
    ensures Reaches(mode, caps, st, acts + more, last)
    decreases |acts|
  {
    if acts == [] {
      assert [] + more == more;
    } else {
      Together(mode, caps, Apply(mode, caps, st, acts[0]), acts[1..], mid, more, last);
      assert (acts + more)[1..] == acts[1..] + more;
    }
  }

  lemma {:induction false} Follow(mode: Mode, caps: set<Side>, acts: seq<Action>, states: seq<State>)
    requires |states| == |acts| + 1
    requires forall i :: 0 <= i < |acts| ==>
      Enabled(mode, states[i], acts[i]) && Apply(mode, caps, states[i], acts[i]) == states[i + 1]
    ensures Reaches(mode, caps, states[0], acts, states[|acts|])
  {
    if acts != [] {
      Follow(mode, caps, acts[1..], states[1..]);
    }
  }

  /** The service has sent its answer, and Bridge has closed both ends before reading it. */
  function Cut(answer: seq<Byte>): State {
    Initial().(up := Fresh().(ended := true, pc := Done(true)), down := Fresh().(produced := answer),
               received := [Up], closed := {A, B})
  }

  lemma ClientEndsFirst(caps: set<Side>, answer: seq<Byte>)
    ensures Reaches(CloseFirst, caps, Initial(),
      [Send(Down, answer), End(Up), Read(Up, 0, Eof), HalfClose(Up), Receive(Up), CloseConn(A), CloseConn(B)],
      Cut(answer))
  {
    var s0, ended := Initial(), Fresh().(ended := true);
    var s1 := s0.(down := Fresh().(produced := answer));
    var s2 := s1.(up := ended);
    var s3 := s2.(up := ended.(pc := HalfClosing(true)));
    var s4 := s3.(up := ended.(pc := Done(true)));
    var s5 := s4.(received := [Up]);
    var s6 := s5.(closed := {A});
    assert [] + answer == answer;
    Follow(CloseFirst, caps,
      [Send(Down, answer), End(Up), Read(Up, 0, Eof), HalfClose(Up), Receive(Up), CloseConn(A), CloseConn(B)],
      [s0, s1, s2, s3, s4, s5, s6, Cut(answer)]);
  }

  lemma AnswerIsLost(caps: set<Side>, answer: seq<Byte>)
    ensures Reaches(CloseFirst, caps, Cut(answer), [Read(Down, 0, Failed), HalfClose(Down), Receive(Down), Return],
      Cut(answer).(down := Fresh().(produced := answer, pc := Done(false)), received := [Up, Down],
                   result := Some(true)))
  {
    var s7, sent := Cut(answer), Fresh().(produced := answer);
    var s8 := s7.(down := sent.(pc := HalfClosing(false)));
    var s9 := s8.(down := sent.(pc := Done(false)));
    var s10 := s9.(received := [Up, Down]);
    Follow(CloseFirst, caps, [Read(Down, 0, Failed), HalfClose(Down), Receive(Down), Return],
      [s7, s8, s9, s10, s10.(result := Some(true))]);
  }

  /** Bridge can return nil on sound connections while an answer, sent long before, is lost:
      the client's end of stream is noticed before the answer is read. */
  lemma BridgeTruncates(caps: set<Side>, answer: seq<Byte>)
    ensures exists acts, st ::
      && Reaches(CloseFirst, caps, Initial(), acts, st)
      && st.result == Some(true) && st.faults == {}
      && st.down.produced == answer && st.down.delivered == []
  {
    ClientEndsFirst(caps, answer);
    AnswerIsLost(caps, answer);
    var lost := Fresh().(produced := answer, pc := Done(false));
    var last := Cut(answer).(down := lost, received := [Up, Down], result := Some(true));
    Together(CloseFirst, caps, Initial(),
      [Send(Down, answer), End(Up), Read(Up, 0, Eof), HalfClose(Up), Receive(Up), CloseConn(A), CloseConn(B)],
      Cut(answer),
      [Read(Down, 0, Failed), HalfClose(Down), Receive(Down), Return], last);
  }
}
