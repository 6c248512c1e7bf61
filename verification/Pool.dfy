/** The shared state of one Redis pool and the atomic steps that acquisitions take on it. */
module Pools {
  import opened Common
  import opened Resp
  import opened Breakers

  const IDLE_EVICTION_SECS: nat := 900

  datatype Limits = Limits(maxConnections: nat, maxWaiters: nat, breaker: Config) {
    /** What configuration validation guarantees. */
    predicate Valid() {
      maxConnections >= 1 && maxWaiters >= 1 && breaker.Valid()
    }
  }

  /** The fields of a pool entry that acquisitions share: `locked[i]` is client i's lease mutex. */
  datatype Shared = Shared(
    waiters: nat, available: nat, locked: seq<bool>, nextClient: nat, lastUsed: nat, breaker: Inner)

  function Fresh(l: Limits, now: nat): Shared {
    Shared(0, l.maxConnections, seq(l.maxConnections, i => false), 0, now, INITIAL)
  }

  /** Atomics wrap; the scan only uses the counter modulo the pool size. */
  function Bump(counter: nat): nat {
    (counter + 1) % (MAX_U64 + 1)
  }

  /** The client index visited at `offset` of a scan that begins at `start`. */
  function Rotated(start: nat, offset: nat, size: nat): (index: nat)
    requires start < size && offset < size
    ensures index < size
    ensures index == if start + offset < size then start + offset else start + offset - size
  {
    var laps := (start + offset) / size;
    assert start + offset == laps * size + (start + offset) % size;
    assert laps >= 2 ==> laps * size >= 2 * size;
    (start + offset) % size
  }

  /** The guard of idle eviction: nothing waits, nothing is in use, and 900 seconds have passed. */
  predicate Evictable(l: Limits, s: Shared, now: nat) {
    Since(now, s.lastUsed) > IDLE_EVICTION_SECS && s.available == l.maxConnections && s.waiters == 0
  }

  predicate CountsAsFailure(error: ExecError) {
    error.Transport? || error.Timeout?
  }

  /** The scan visits every client index. */
  lemma RotationVisits(start: nat, index: nat, size: nat)
    requires start < size && index < size
    ensures exists offset: nat :: offset < size && Rotated(start, offset, size) == index
  {
    var offset := if index >= start then index - start else index + size - start;
    assert Rotated(start, offset, size) == index;
  }

  /** Consecutive scans begin at consecutive clients, except where the counter wraps. */
  lemma ScansRotate(counter: nat, size: nat)
    requires size >= 1 && counter < MAX_U64
    ensures Bump(counter) % size == if counter % size + 1 < size then counter % size + 1 else 0
  {
    var a, x, b, y := (counter + 1) / size, (counter + 1) % size, counter / size, counter % size;
    assert a * size + x == counter + 1 && b * size + y == counter;
    Laps(a, b, size);
    Times(a - b, size);
  }

  lemma Laps(a: int, b: int, size: int)
    ensures a * size - b * size == (a - b) * size
  {
  }

  lemma Times(d: int, size: int)
    requires size >= 1
    ensures d >= 2 ==> d * size >= 2 * size
    ensures d <= -1 ==> d * size <= -size
    ensures d == 0 ==> d * size == 0
    ensures d == 1 ==> d * size == size
  {
  }

  /**
   Wraps the executor of one acquisition and reports its outcome to the breaker: once
   recorded, dropping it is silent; unrecorded, dropping it cancels the permit.
   */
  class BreakerExecutor {
    const breaker: Breaker
    const permit: Permit
    var recorded: bool

    constructor (breaker: Breaker, permit: Permit)
      ensures this.breaker == breaker && this.permit == permit && !recorded
    {
      this.breaker, this.permit, recorded := breaker, permit, false;
    }

    /** A whole call counts as one outcome: failed iff some slot failed in transport or timed out. */
    method Record(errors: seq<ExecError>, now: nat) returns (transition: Option<Transition>)
      modifies this`recorded, breaker
      ensures recorded
      ensures var failed := exists i :: 0 <= i < |errors| && (errors[i].Transport? || errors[i].Timeout?);
              (breaker.View(), transition) == RecordNext(breaker.cfg, old(breaker.View()), permit, failed, now)
    {
      recorded := true;
      var failed := false;
      for i := 0 to |errors|
        invariant failed <==> exists j :: 0 <= j < i && (errors[j].Transport? || errors[j].Timeout?)
      {
        failed := failed || CountsAsFailure(errors[i]);
      }
      transition := breaker.Record(permit, failed, now);
    }

    method Drop()
      modifies breaker
      ensures breaker.View() == if recorded then old(breaker.View()) else CancelNext(old(breaker.View()), permit)
    {
      if !recorded {
        breaker.Cancel(permit);
      }
    }
  }
}
