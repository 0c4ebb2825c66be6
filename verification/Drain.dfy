/** The background worker of a superseded tunnel (`internal/registry/pool.go`).  Times are in
    milliseconds; the clock and the stream counter belong to the environment. */
module Drain {
  import opened Registry

  const DEFAULT_DRAIN_TIMEOUT := 600_000

  /** What the worker can observe: at its i-th look the clock says at(i) and the counter
      streams(i).  A sleep lasts 100 ms and at most `slack` more. */
  datatype Schedule = Schedule(at: nat -> int, streams: nat -> int)

  ghost predicate Runs(env: Schedule, start: int, slack: nat) {
    && start <= env.at(0) <= start + slack
    && forall i: nat :: env.at(i) + 100 <= env.at(i + 1) <= env.at(i) + 100 + slack
  }

  function Deadline(start: int, timeout: int): int {
    start + if timeout <= 0 then DEFAULT_DRAIN_TIMEOUT else timeout
  }

  /** When the worker gives up: after the configured time, or after ten minutes. */
  predicate Due(start: int, timeout: int, now: int) {
    now >= start + if timeout > 0 then timeout else 600_000
  }

  /** The loop of the worker: it ends at the first look that finds no stream or comes when it is due,
      and that is less than a pause and a delay after it became due. */
  method AwaitStreams(env: Schedule, start: int, timeout: int, ghost slack: nat) returns (looks: nat)
    requires Runs(env, start, slack)
    ensures env.streams(looks) == 0 || Due(start, timeout, env.at(looks))
    ensures forall i: nat :: i < looks ==> env.streams(i) != 0 && !Due(start, timeout, env.at(i))
    ensures !Due(start, timeout, env.at(looks) - 100 - slack)
    ensures 100 * looks <= env.at(looks) - start
  {
    var deadline := Deadline(start, timeout);
    looks := 0;
    while env.at(looks) < deadline
      invariant forall i: nat :: i < looks ==> env.streams(i) != 0 && env.at(i) < deadline
      invariant env.at(looks) < deadline + 100 + slack
      invariant 100 * looks <= env.at(looks) - start
      decreases deadline - env.at(looks)
    {
      if env.streams(looks) == 0 {
        break;
      }
      assert env.at(looks) + 100 <= env.at(looks + 1);
      looks := looks + 1;
    }
  }

  /** The worker: wait, then close.  Before the deadline it closes only a tunnel on which it has
      just seen no stream. */
  method DrainWorker(superseded: ClientTunnel, env: Schedule, start: int, timeout: int, ghost slack: nat)
    returns (closedAt: int)
    requires Runs(env, start, slack)
    modifies superseded`closed, superseded.yamux, superseded.session
    ensures superseded.closed && !superseded.Alive()
    ensures start <= closedAt && !Due(start, timeout, closedAt - 100 - slack)
    ensures !Due(start, timeout, closedAt) ==>
      exists look: nat :: env.at(look) == closedAt && env.streams(look) == 0
  {
    var looks := AwaitStreams(env, start, timeout, slack);
    closedAt := env.at(looks);
    superseded.Close();
  }
}
