/**
 The acquisition protocol: any number of tasks interleave breaker admission, the bounded
 waiter counter, the semaphore, the client leases, execution and release.

 A task may be cancelled wherever the source awaits.  Dropping a guard is a step of its
 own, and guards drop in the order the source fixes: on an early exit the waiter guard or
 the semaphore permit before the admission guard, and for a finished handle the executor
 first, then the semaphore permit, then the client lease.
 */
module PoolProtocol {
  import opened Common
  import opened Resp
  import opened Breakers
  import opened Pools
  import BreakerRuns

  datatype Phase =
    | Looked                                             // has the pool entry, holds nothing
    | Admitted(permit: Permit)                           // admission guard
    | Queued(permit: Permit)                             // admission and waiter guards, awaiting the semaphore
    | Granted(permit: Permit)                            // semaphore permit too, waiter guard not yet dropped
    | Picking(permit: Permit)                            // admission guard and semaphore permit
    | Scanning(permit: Permit, start: nat, offset: nat)  // the same, trying client leases
    | Blocked(permit: Permit, start: nat)                // the same, awaiting the lease of client `start`
    | Holding(permit: Permit, client: nat, recorded: bool) // executor handle with its pool lease
    | LeaseDropping(client: nat)                         // executor gone, both halves of the lease held
    | ClientDropping(client: nat)                        // semaphore permit returned, client lease held
    | WaiterDropping(permit: Permit)                     // early exit from the queue
    | PermitDropping(permit: Permit)                     // early exit from the lease wait
    | AdmissionDropping(permit: Permit)                  // early exit, only the admission guard left
    | Finished
  {
    predicate HasWaiter() { Queued? || Granted? || WaiterDropping? }

    predicate HasPermit() {
      Granted? || Picking? || Scanning? || Blocked? || Holding? || LeaseDropping? || PermitDropping?
    }

    function Lease(): Option<nat> {
      if Holding? || LeaseDropping? || ClientDropping? then Some(client) else None
    }

    /** The breaker permit for which a live admission guard or unrecorded executor must still answer. */
    function Owes(): Option<Permit> {
      if Admitted? || Queued? || Granted? || Picking? || Scanning? || Blocked? || WaiterDropping? ||
         PermitDropping? || AdmissionDropping? || (Holding? && !recorded)
      then Some(permit) else None
    }
  }

  datatype Action =
    | Lookup(task: nat, secs: nat)
    | Admit(task: nat, now: nat)
    | Enqueue(task: nat)
    | Take(task: nat)                                      // the semaphore grants a permit
    | Advance(task: nat)                                   // the next step without a choice
    | Abandon(task: nat)                                   // timeout or cancellation at an await
    | Complete(task: nat, errors: seq<ExecError>, now: nat) // the executor finishes a call
    | DropHandle(task: nat)                                // used or unused, finished or cancelled
    | Evict(secs: nat)

  /** `log` lists the breaker's critical sections in order; `present` is membership in the pool map. */
  datatype World = World(
    s: Shared, tasks: map<nat, Phase>, present: bool, clock: nat, log: seq<BreakerRuns.Event>)

  function Init(l: Limits, secs: nat): World {
    World(Fresh(l, secs), map[], true, 0, [])
  }

  predicate Enabled(l: Limits, w: World, a: Action) {
    if a.Evict? then w.present && Evictable(l, w.s, a.secs)
    else if a.Lookup? then w.present && a.task !in w.tasks
    else
      && a.task in w.tasks
      && var ph := w.tasks[a.task];
         match a
         case Admit(_, now) => ph.Looked? && w.clock <= now
         case Enqueue(_) => ph.Admitted?
         case Take(_) => ph.Queued? && w.s.available > 0
         case Abandon(_) => ph.Queued? || ph.Blocked?
         case Complete(_, _, now) => ph.Holding? && w.clock <= now
         case DropHandle(_) => ph.Holding?
         case Advance(_) =>
           ph.Granted? || ph.Picking? || ph.Scanning? || ph.WaiterDropping? || ph.PermitDropping? ||
           ph.AdmissionDropping? || ph.LeaseDropping? || ph.ClientDropping? ||
           (ph.Blocked? && ph.start < |w.s.locked| && !w.s.locked[ph.start])
  }

  function Move(w: World, task: nat, ph: Phase): World {
    w.(tasks := w.tasks[task := ph])
  }

  function Cancelled(w: World, permit: Permit): World {
    w.(s := w.s.(breaker := CancelNext(w.s.breaker, permit)),
       log := w.log + [BreakerRuns.Cancel(permit, w.clock)])
  }

  function AdvanceNext(l: Limits, w: World, task: nat): World
    requires task in w.tasks && |w.s.locked| == l.maxConnections >= 1
  {
    var size, s := |w.s.locked|, w.s;
    match w.tasks[task]
    case Granted(permit) =>
      Move(w.(s := s.(waiters := if s.waiters > 0 then s.waiters - 1 else MAX_U64)), task, Picking(permit))
    case Picking(permit) =>
      Move(w.(s := s.(nextClient := Bump(s.nextClient))), task, Scanning(permit, s.nextClient % size, 0))
    case Scanning(permit, start, offset) =>
      if start < size && offset < size then
        var index := Rotated(start, offset, size);
        if !s.locked[index] then
          Move(w.(s := s.(locked := s.locked[index := true])), task, Holding(permit, index, false))
        else
          Move(w, task, Scanning(permit, start, offset + 1))
      else
        Move(w, task, Blocked(permit, start))
    case Blocked(permit, start) =>
      if start < size && !s.locked[start] then
        Move(w.(s := s.(locked := s.locked[start := true])), task, Holding(permit, start, false))
      else w
    case WaiterDropping(permit) =>
      Move(w.(s := s.(waiters := if s.waiters > 0 then s.waiters - 1 else MAX_U64)), task, AdmissionDropping(permit))
    case PermitDropping(permit) =>
      Move(w.(s := s.(available := s.available + 1)), task, AdmissionDropping(permit))
    case AdmissionDropping(permit) =>
      Move(Cancelled(w, permit), task, Finished)
    case LeaseDropping(client) =>
      Move(w.(s := s.(available := s.available + 1)), task, ClientDropping(client))
    case ClientDropping(client) =>
      if client < size then
        Move(w.(s := s.(locked := s.locked[client := false])), task, Finished)
      else w
    case _ => w
  }

  function Next(l: Limits, w: World, a: Action): World
    requires Enabled(l, w, a) && |w.s.locked| == l.maxConnections >= 1
  {
    var s := w.s;
    match a
    case Lookup(task, secs) => Move(w.(s := s.(lastUsed := secs)), task, Looked)
    case Admit(task, now) =>
      var (b, r) := AdmitNext(l.breaker, s.breaker, now);
      var w' := w.(s := s.(breaker := b), clock := now, log := w.log + [BreakerRuns.Admit(now)]);
      Move(w', task, if r.Ok? then Admitted(r.value.permit) else Finished)
    case Enqueue(task) =>
      if s.waiters < l.maxWaiters
      then Move(w.(s := s.(waiters := s.waiters + 1)), task, Queued(w.tasks[task].permit))
      else Move(w, task, AdmissionDropping(w.tasks[task].permit))
    case Take(task) => Move(w.(s := s.(available := s.available - 1)), task, Granted(w.tasks[task].permit))
    case Advance(task) => AdvanceNext(l, w, task)
    case Abandon(task) =>
      Move(w, task, if w.tasks[task].Queued? then WaiterDropping(w.tasks[task].permit)
                    else PermitDropping(w.tasks[task].permit))
    case Complete(task, errors, now) =>
      var Holding(permit, client, _) := w.tasks[task];
      var failed := exists e :: e in errors && CountsAsFailure(e);
      var w' := w.(s := s.(breaker := RecordNext(l.breaker, s.breaker, permit, failed, now).0), clock := now,
                   log := w.log + [BreakerRuns.Record(permit, failed, now)]);
      Move(w', task, Holding(permit, client, true))
    case DropHandle(task) =>
      var Holding(permit, client, recorded) := w.tasks[task];
      Move(if recorded then w else Cancelled(w, permit), task, LeaseDropping(client))
    case Evict(_) => w.(present := false)
  }

  /** The states reached by running `actions`, each enabled when it is taken. */
  ghost predicate Reaches(l: Limits, w: World, actions: seq<Action>, w': World)
    decreases |actions|
  {
    if actions == [] then w' == w
    else
      && |w.s.locked| == l.maxConnections >= 1
      && Enabled(l, w, actions[0])
      && Reaches(l, Next(l, w, actions[0]), actions[1..], w')
  }

  // ---------------------------------------------------------------- invariant

  function Those(tasks: map<nat, Phase>, f: Phase -> bool): set<nat> {
    set t | t in tasks && f(tasks[t])
  }

  function Count(tasks: map<nat, Phase>, f: Phase -> bool): nat {
    |Those(tasks, f)|
  }

  const Waits: Phase -> bool := (ph: Phase) => ph.HasWaiter()
  const Uses: Phase -> bool := (ph: Phase) => ph.HasPermit()

  function PhaseOf(w: World, t: nat): Phase {
    if t in w.tasks then w.tasks[t] else Finished
  }

  /** The waiter counter and the semaphore agree with the guards that are alive. */
  ghost predicate CountersMatch(l: Limits, w: World) {
    && w.s.waiters == Count(w.tasks, Waits) <= l.maxWaiters
    && w.s.available + Count(w.tasks, Uses) == l.maxConnections
  }

  /** A lease is locked exactly when one task holds it. */
  ghost predicate LeasesMatch(l: Limits, w: World) {
    && |w.s.locked| == l.maxConnections
    && (forall t :: PhaseOf(w, t).Lease().Some? ==>
          PhaseOf(w, t).Lease().value < |w.s.locked| && w.s.locked[PhaseOf(w, t).Lease().value])
    && (forall t, u :: PhaseOf(w, t).Lease().Some? && PhaseOf(w, t).Lease() == PhaseOf(w, u).Lease() ==> t == u)
    && (forall c: nat :: c < |w.s.locked| && w.s.locked[c] ==> exists t :: PhaseOf(w, t).Lease() == Some(c))
    && (forall t :: PhaseOf(w, t).Scanning? || PhaseOf(w, t).Blocked? ==> PhaseOf(w, t).start < |w.s.locked|)
  }

  ghost predicate OwnsProbe(w: World, t: nat) {
    PhaseOf(w, t).Owes() == Some(Permit(w.s.breaker.generation, true))
  }

  /** HalfOpen exactly when one task still answers for the current generation's probe. */
  ghost predicate ProbeMatches(w: World) {
    && (w.s.breaker.state == HalfOpen <==> exists t :: OwnsProbe(w, t))
    && (forall t, u :: OwnsProbe(w, t) && OwnsProbe(w, u) ==> t == u)
  }

  /** The breaker has lived through a legal run that issued every permit now in use. */
  ghost predicate LogMatches(l: Limits, w: World) {
    && BreakerRuns.Legal(l.breaker, w.log)
    && var past := BreakerRuns.After(l.breaker, w.log);
       && past.b == w.s.breaker
       && past.clock <= w.clock
       && (forall t :: PhaseOf(w, t).Owes().Some? ==> PhaseOf(w, t).Owes().value in past.issued)
       && (forall t :: PhaseOf(w, t).Holding? ==> PhaseOf(w, t).permit in past.issued)
  }

  ghost predicate Inv(l: Limits, w: World) {
    CountersMatch(l, w) && LeasesMatch(l, w) && LogMatches(l, w) && ProbeMatches(w)
  }

  // ---------------------------------------------------------------- what one step does

  function Unit(b: bool): int {
    if b then 1 else 0
  }

  lemma CountMove(tasks: map<nat, Phase>, t: nat, ph: Phase, f: Phase -> bool)
    ensures Count(tasks[t := ph], f) == Count(tasks, f) - Unit(t in tasks && f(tasks[t])) + Unit(f(ph))
  {
    var before, after := Those(tasks, f), Those(tasks[t := ph], f);
    var others := before - {t};
    assert after == if f(ph) then others + {t} else others;
    assert before == if t in tasks && f(tasks[t]) then others + {t} else others;
  }

  lemma CountPositive(tasks: map<nat, Phase>, t: nat, f: Phase -> bool)
    requires t in tasks && f(tasks[t])
    ensures Count(tasks, f) > 0
  {
    assert t in Those(tasks, f);
  }

  /** Only the acting task moves, and the counters move with its guards. */
  lemma CounterEffect(l: Limits, w: World, a: Action)
    requires |w.s.locked| == l.maxConnections >= 1 && Enabled(l, w, a) && !a.Evict?
    requires PhaseOf(w, a.task).HasWaiter() ==> w.s.waiters > 0
    ensures var w', before := Next(l, w, a), PhaseOf(w, a.task);
            var after := PhaseOf(w', a.task);
            && w'.tasks == w.tasks[a.task := after]
            && w'.s.waiters == w.s.waiters - Unit(before.HasWaiter()) + Unit(after.HasWaiter())
            && w'.s.available == w.s.available + Unit(before.HasPermit()) - Unit(after.HasPermit())
            && (after.HasWaiter() && !before.HasWaiter() ==> w.s.waiters < l.maxWaiters)
  {
  }

  /** Only the acting task moves, and at most its own lease with it. */
  ghost predicate LeaseMoved(w: World, w': World, task: nat)
    requires PhaseOf(w, task).Lease().Some? ==> PhaseOf(w, task).Lease().value < |w.s.locked|
  {
    var before, after := PhaseOf(w, task).Lease(), PhaseOf(w', task);
    && w'.tasks == w.tasks[task := after]
    && (after.Scanning? || after.Blocked? ==> after.start < |w.s.locked|)
    && (if before == after.Lease() then w'.s.locked == w.s.locked
        else if before.None? then
          after.Lease().value < |w.s.locked| && !w.s.locked[after.Lease().value] &&
          w'.s.locked == w.s.locked[after.Lease().value := true]
        else
          after.Lease().None? && w'.s.locked == w.s.locked[before.value := false])
  }

  lemma AdvanceMovesLease(l: Limits, w: World, task: nat)
    requires |w.s.locked| == l.maxConnections >= 1 && Enabled(l, w, Advance(task))
    requires var ph := w.tasks[task];
             && (ph.Lease().Some? ==> ph.Lease().value < |w.s.locked|)
             && (ph.Scanning? || ph.Blocked? ==> ph.start < |w.s.locked|)
    ensures LeaseMoved(w, AdvanceNext(l, w, task), task)
  {
  }

  lemma LeaseEffect(l: Limits, w: World, a: Action)
    requires LeasesMatch(l, w) && l.maxConnections >= 1 && Enabled(l, w, a) && !a.Evict?
    ensures LeaseMoved(w, Next(l, w, a), a.task)
  {
    var ph := PhaseOf(w, a.task);
    assert ph.Lease().Some? ==> ph.Lease().value < |w.s.locked|;
    assert ph.Scanning? || ph.Blocked? ==> ph.start < |w.s.locked|;
    hide LeasesMatch, AdvanceNext, AdmitNext, RecordNext, CancelNext;
    if a.Advance? {
      AdvanceMovesLease(l, w, a.task);
    }
  }

  /** A step either leaves the breaker and the acting task's duty alone, or is one breaker event. */
  ghost predicate BreakerMoved(l: Limits, w: World, w': World, a: Action)
    requires !a.Evict?
  {
    var before, after := PhaseOf(w, a.task), PhaseOf(w', a.task);
    && w'.tasks == w.tasks[a.task := after] && w.clock <= w'.clock
    && if w'.log == w.log then
         && w'.s.breaker == w.s.breaker && after.Owes() == before.Owes()
         && (after.Holding? ==> before.Owes() == Some(after.permit) || (before.Holding? && before.permit == after.permit))
       else if a.Admit? then
         var (b, r) := AdmitNext(l.breaker, w.s.breaker, a.now);
         && w'.log == w.log + [BreakerRuns.Admit(a.now)] && w'.s.breaker == b && w'.clock == a.now
         && before == Looked && after == if r.Ok? then Admitted(r.value.permit) else Finished
       else if a.Complete? then
         var failed := exists e :: e in a.errors && CountsAsFailure(e);
         && before.Holding? && after == Holding(before.permit, before.client, true) && w'.clock == a.now
         && w'.log == w.log + [BreakerRuns.Record(before.permit, failed, a.now)]
         && w'.s.breaker == RecordNext(l.breaker, w.s.breaker, before.permit, failed, a.now).0
       else
         && before.Owes().Some? && after.Owes().None? && !after.Holding?
         && w'.log == w.log + [BreakerRuns.Cancel(before.Owes().value, w.clock)]
         && w'.s.breaker == CancelNext(w.s.breaker, before.Owes().value)
  }

  lemma AdvanceMovesBreaker(l: Limits, w: World, task: nat)
    requires |w.s.locked| == l.maxConnections >= 1 && Enabled(l, w, Advance(task))
    ensures BreakerMoved(l, w, AdvanceNext(l, w, task), Advance(task))
  {
    hide CancelNext, AdmitNext, RecordNext, Rotated;
    assert w.tasks == w.tasks[task := w.tasks[task]];
  }

  lemma BreakerEffect(l: Limits, w: World, a: Action)
    requires |w.s.locked| == l.maxConnections >= 1 && Enabled(l, w, a) && !a.Evict?
    ensures BreakerMoved(l, w, Next(l, w, a), a)
  {
    hide AdmitNext, RecordNext, CancelNext, AdvanceNext;
    if a.Advance? {
      hide BreakerMoved;
      AdvanceMovesBreaker(l, w, a.task);
    }
  }

  // ---------------------------------------------------------------- every step keeps the invariant

  lemma StepKeepsCounters(l: Limits, w: World, a: Action)
    requires l.Valid() && Inv(l, w) && Enabled(l, w, a)
    ensures CountersMatch(l, Next(l, w, a))
  {
    if !a.Evict? {
      if PhaseOf(w, a.task).HasWaiter() {
        CountPositive(w.tasks, a.task, Waits);
      }
      CounterEffect(l, w, a);
      var after := PhaseOf(Next(l, w, a), a.task);
      CountMove(w.tasks, a.task, after, Waits);
      CountMove(w.tasks, a.task, after, Uses);
    }
  }

  lemma LeaseMoveKeepsLeases(l: Limits, w: World, w': World, task: nat)
    requires LeasesMatch(l, w) && LeaseMoved(w, w', task)
    ensures LeasesMatch(l, w')
  {
    assert forall t :: t != task ==> PhaseOf(w', t) == PhaseOf(w, t);
    forall c: nat | c < |w'.s.locked| && w'.s.locked[c]
      ensures exists t :: PhaseOf(w', t).Lease() == Some(c)
    {
      if w.s.locked[c] {
        var t :| PhaseOf(w, t).Lease() == Some(c);
        assert PhaseOf(w', t).Lease() == Some(c);
      } else {
        assert PhaseOf(w', task).Lease() == Some(c);
      }
    }
  }

  lemma StepKeepsLeases(l: Limits, w: World, a: Action)
    requires l.Valid() && Inv(l, w) && Enabled(l, w, a)
    ensures LeasesMatch(l, Next(l, w, a))
  {
    var w' := Next(l, w, a);
    if a.Evict? {
      assert forall t :: PhaseOf(w', t) == PhaseOf(w, t);
    } else {
      LeaseEffect(l, w, a);
      LeaseMoveKeepsLeases(l, w, w', a.task);
    }
  }

  ghost predicate OnlyMoved(w: World, w': World, task: nat) {
    forall t :: t != task ==> PhaseOf(w', t) == PhaseOf(w, t)
  }

  lemma EventKeepsLog(l: Limits, w: World, w': World, task: nat, e: BreakerRuns.Event)
    requires LogMatches(l, w) && OnlyMoved(w, w', task) && w'.log == w.log + [e]
    requires BreakerRuns.Enabled(BreakerRuns.After(l.breaker, w.log), e)
    requires var past := BreakerRuns.Step(l.breaker, BreakerRuns.After(l.breaker, w.log), e);
             && past.b == w'.s.breaker && past.clock <= w'.clock
             && (PhaseOf(w', task).Owes().Some? ==> PhaseOf(w', task).Owes().value in past.issued)
             && (PhaseOf(w', task).Holding? ==> PhaseOf(w', task).permit in past.issued)
    ensures LogMatches(l, w')
  {
    hide AdmitNext, RecordNext, CancelNext;
    BreakerRuns.OneMore(l.breaker, w.log, e);
    hide BreakerRuns.After, BreakerRuns.Legal;
  }

  lemma MoveKeepsLog(l: Limits, w: World, w': World, a: Action)
    requires LogMatches(l, w) && !a.Evict? && BreakerMoved(l, w, w', a)
    requires a.Admit? || a.Complete? ==> w.clock <= a.now
    ensures LogMatches(l, w')
  {
    hide AdmitNext, RecordNext, CancelNext, BreakerRuns.After, BreakerRuns.Legal;
    assert OnlyMoved(w, w', a.task);
    if w'.log != w.log {
      EventKeepsLog(l, w, w', a.task, w'.log[|w.log|]);
    }
  }

  lemma StepKeepsLog(l: Limits, w: World, a: Action)
    requires l.Valid() && Inv(l, w) && Enabled(l, w, a)
    ensures LogMatches(l, Next(l, w, a))
  {
    if a.Evict? {
      assert forall t :: PhaseOf(Next(l, w, a), t) == PhaseOf(w, t);
    } else {
      hide BreakerMoved, LogMatches;
      BreakerEffect(l, w, a);
      MoveKeepsLog(l, w, Next(l, w, a), a);
    }
  }

  /** A permit that is not ahead of the breaker and, if of its generation, fits its state. */
  predicate Current(b: Inner, p: Permit) {
    p.generation <= b.generation &&
    (p.generation == b.generation ==> b.state != Open && (p.probe <==> b.state == HalfOpen))
  }

  /** What `BreakerRuns.EveryRun` says of the permits that live tasks owe an answer for. */
  ghost predicate DutiesMatch(w: World) {
    forall t :: PhaseOf(w, t).Owes().Some? ==> Current(w.s.breaker, PhaseOf(w, t).Owes().value)
  }

  lemma AdmissionKeepsProbe(cfg: Config, w: World, w': World, task: nat, now: nat)
    requires ProbeMatches(w) && DutiesMatch(w) && OnlyMoved(w, w', task) && PhaseOf(w, task) == Looked
    requires w'.s.breaker == AdmitNext(cfg, w.s.breaker, now).0
    requires var r := AdmitNext(cfg, w.s.breaker, now).1;
             PhaseOf(w', task) == if r.Ok? then Admitted(r.value.permit) else Finished
    ensures ProbeMatches(w')
  {
    if w'.s.breaker == w.s.breaker {
      assert forall t :: OwnsProbe(w', t) <==> OwnsProbe(w, t);
    } else {
      assert forall t :: OwnsProbe(w', t) <==> t == task;
      assert OwnsProbe(w', task);
    }
  }

  /** A recorded or cancelled permit ends the half-open state exactly when it is the current probe. */
  lemma SettlingKeepsProbe(w: World, w': World, task: nat, permit: Permit)
    requires ProbeMatches(w) && DutiesMatch(w) && OnlyMoved(w, w', task)
    requires PhaseOf(w, task).Owes() == Some(permit) || PhaseOf(w, task).Owes() == None
    requires PhaseOf(w', task).Owes() == None
    requires permit.generation <= w.s.breaker.generation
    requires var b, b' := w.s.breaker, w'.s.breaker;
             if permit == Permit(b.generation, true) && b.state == HalfOpen
             then b'.state != HalfOpen && b'.generation == b.generation + 1
             else if b.state == HalfOpen then b' == b
             else b'.state != HalfOpen && b'.generation >= b.generation
    ensures ProbeMatches(w')
  {
    assert forall t :: OwnsProbe(w', t) <==> OwnsProbe(w, t) && w'.s.breaker.state == HalfOpen;
  }

  lemma CompletionKeepsProbe(cfg: Config, w: World, w': World, task: nat, permit: Permit, failed: bool, now: nat)
    requires ProbeMatches(w) && DutiesMatch(w) && OnlyMoved(w, w', task)
    requires PhaseOf(w, task).Owes() == Some(permit) || PhaseOf(w, task).Owes() == None
    requires PhaseOf(w', task).Owes() == None && Current(w.s.breaker, permit)
    requires w'.s.breaker == RecordNext(cfg, w.s.breaker, permit, failed, now).0
    ensures ProbeMatches(w')
  {
    hide ProbeMatches, DutiesMatch, OnlyMoved;
    SettlingKeepsProbe(w, w', task, permit);
  }

  lemma CancellationKeepsProbe(w: World, w': World, task: nat, permit: Permit)
    requires ProbeMatches(w) && DutiesMatch(w) && OnlyMoved(w, w', task)
    requires PhaseOf(w, task).Owes() == Some(permit) && PhaseOf(w', task).Owes() == None && Current(w.s.breaker, permit)
    requires w'.s.breaker == CancelNext(w.s.breaker, permit)
    ensures ProbeMatches(w')
  {
    hide ProbeMatches, DutiesMatch, OnlyMoved;
    SettlingKeepsProbe(w, w', task, permit);
  }

  /** A step that is no breaker event leaves every duty, hence the owner of the probe, as it was. */
  lemma QuietStepKeepsProbe(w: World, w': World, task: nat)
    requires ProbeMatches(w) && OnlyMoved(w, w', task)
    requires w'.s.breaker == w.s.breaker && PhaseOf(w', task).Owes() == PhaseOf(w, task).Owes()
    ensures ProbeMatches(w')
  {
    assert forall t :: OwnsProbe(w', t) <==> OwnsProbe(w, t);
  }

  lemma EveryDutyMatches(l: Limits, w: World)
    requires l.Valid() && LogMatches(l, w)
    ensures DutiesMatch(w)
    ensures forall t :: PhaseOf(w, t).Holding? ==> Current(w.s.breaker, PhaseOf(w, t).permit)
  {
    BreakerRuns.EveryRun(l.breaker, w.log);
    hide BreakerRuns.After, BreakerRuns.Legal, BreakerRuns.HistoryMatches, BreakerRuns.ProbesDistinct;
  }

  lemma MoveKeepsProbe(l: Limits, w: World, w': World, a: Action)
    requires l.Valid() && LogMatches(l, w) && ProbeMatches(w) && !a.Evict? && BreakerMoved(l, w, w', a)
    ensures ProbeMatches(w')
  {
    EveryDutyMatches(l, w);
    assert OnlyMoved(w, w', a.task);
    var before := PhaseOf(w, a.task);
    assert before.Owes().Some? ==> Current(w.s.breaker, before.Owes().value);
    hide ProbeMatches, DutiesMatch, OnlyMoved, LogMatches, AdmitNext, RecordNext, CancelNext, Current;
    if w'.log == w.log {
      QuietStepKeepsProbe(w, w', a.task);
    } else if a.Admit? {
      AdmissionKeepsProbe(l.breaker, w, w', a.task, a.now);
    } else if a.Complete? {
      var failed := exists e :: e in a.errors && CountsAsFailure(e);
      CompletionKeepsProbe(l.breaker, w, w', a.task, before.permit, failed, a.now);
    } else {
      CancellationKeepsProbe(w, w', a.task, before.Owes().value);
    }
  }

  lemma StepKeepsProbe(l: Limits, w: World, a: Action)
    requires l.Valid() && Inv(l, w) && Enabled(l, w, a)
    ensures ProbeMatches(Next(l, w, a))
  {
    if a.Evict? {
      assert forall t :: OwnsProbe(Next(l, w, a), t) <==> OwnsProbe(w, t);
    } else {
      hide BreakerMoved, LogMatches, ProbeMatches;
      BreakerEffect(l, w, a);
      MoveKeepsProbe(l, w, Next(l, w, a), a);
    }
  }

  lemma StepKeepsAll(l: Limits, w: World, a: Action)
    requires l.Valid() && Inv(l, w) && Enabled(l, w, a)
    ensures Inv(l, Next(l, w, a))
  {
    StepKeepsCounters(l, w, a);
    StepKeepsLeases(l, w, a);
    StepKeepsLog(l, w, a);
    StepKeepsProbe(l, w, a);
  }

  lemma {:induction false} EveryReachableState(l: Limits, w: World, actions: seq<Action>, w': World)
    requires l.Valid() && Inv(l, w) && Reaches(l, w, actions, w')
    ensures Inv(l, w')
    decreases |actions|
  {
    if actions != [] {
      StepKeepsAll(l, w, actions[0]);
      EveryReachableState(l, Next(l, w, actions[0]), actions[1..], w');
    }
  }

  lemma StartSatisfies(l: Limits, secs: nat)
    requires l.Valid()
    ensures Inv(l, Init(l, secs))
  {
  }

  // ---------------------------------------------------------------- main results

  /**
   For every interleaving, with cancellation at every await: the waiter counter is the
   number of live waiter guards and never exceeds its bound; available plus held permits is
   the pool size; no two tasks share a client lease; and the breaker is HalfOpen exactly
   when one live, unrecorded owner holds the current generation's probe permit.
   */
  lemma AcquisitionIsSafe(l: Limits, secs: nat, actions: seq<Action>, w: World)
    requires l.Valid() && Reaches(l, Init(l, secs), actions, w)
    ensures w.s.waiters == |set t | t in w.tasks && w.tasks[t].HasWaiter()| <= l.maxWaiters
    ensures w.s.available + |set t | t in w.tasks && w.tasks[t].HasPermit()| == l.maxConnections
    ensures forall t, u :: t in w.tasks && u in w.tasks && t != u && w.tasks[t].Lease().Some? ==>
              w.tasks[t].Lease() != w.tasks[u].Lease()
    ensures w.s.breaker.state == HalfOpen <==> exists t :: OwnsProbe(w, t)
    ensures forall t, u :: OwnsProbe(w, t) && OwnsProbe(w, u) ==> t == u
  {
    StartSatisfies(l, secs);
    EveryReachableState(l, Init(l, secs), actions, w);
    assert Those(w.tasks, Waits) == set t | t in w.tasks && w.tasks[t].HasWaiter();
    assert Those(w.tasks, Uses) == set t | t in w.tasks && w.tasks[t].HasPermit();
    forall t, u | t in w.tasks && u in w.tasks && t != u && w.tasks[t].Lease().Some?
      ensures w.tasks[t].Lease() != w.tasks[u].Lease()
    {
      assert PhaseOf(w, t) == w.tasks[t] && PhaseOf(w, u) == w.tasks[u];
    }
  }

  /** The two worlds differ in the given task only, apart from the log and how far the clock has come. */
  ghost predicate AlikeBut(v: World, w: World, task: nat) {
    && v.s == w.s && v.present == w.present && v.clock <= w.clock
    && forall t :: t != task ==> PhaseOf(v, t) == PhaseOf(w, t) && (t in v.tasks <==> t in w.tasks)
  }

  /** Everything a step of `task` reads is the same in both worlds. */
  predicate SameFor(v: World, w: World, task: nat) {
    && v.s == w.s && v.present == w.present && v.clock <= w.clock
    && (task in v.tasks <==> task in w.tasks) && PhaseOf(v, task) == PhaseOf(w, task)
  }

  /** Both steps moved `task`, and nothing but it, to the same phase. */
  ghost predicate SameMove(v: World, v': World, w: World, w': World, task: nat) {
    && SameFor(v', w', task) && task in v'.tasks && task in w'.tasks
    && v'.tasks == v.tasks[task := v'.tasks[task]] && w'.tasks == w.tasks[task := w'.tasks[task]]
  }

  lemma SameAdvance(l: Limits, v: World, w: World, task: nat)
    requires |w.s.locked| == l.maxConnections >= 1 && task in w.tasks && SameFor(v, w, task)
    ensures SameMove(v, AdvanceNext(l, v, task), w, AdvanceNext(l, w, task), task)
  {
    hide CancelNext;
    assert w.tasks == w.tasks[task := w.tasks[task]] && v.tasks == v.tasks[task := v.tasks[task]];
  }

  lemma SameStep(l: Limits, v: World, w: World, a: Action)
    requires |w.s.locked| == l.maxConnections >= 1 && Enabled(l, w, a) && !a.Evict? && SameFor(v, w, a.task)
    ensures Enabled(l, v, a) && SameMove(v, Next(l, v, a), w, Next(l, w, a), a.task)
  {
    hide AdmitNext, RecordNext, CancelNext, AdvanceNext;
    if a.Advance? {
      hide SameMove;
      SameAdvance(l, v, w, a.task);
    }
  }

  lemma StepKeepsAlike(l: Limits, v: World, w: World, task: nat, a: Action)
    requires |w.s.locked| == l.maxConnections >= 1 && AlikeBut(v, w, task) && Enabled(l, w, a)
    requires !a.Evict? ==> a.task != task
    ensures Enabled(l, v, a) && AlikeBut(Next(l, v, a), Next(l, w, a), task)
  {
    if a.Evict? {
      assert forall t :: PhaseOf(Next(l, v, a), t) == PhaseOf(v, t) && PhaseOf(Next(l, w, a), t) == PhaseOf(w, t);
    } else {
      hide Next, Enabled;
      SameStep(l, v, w, a);
    }
  }

  lemma {:induction false} RunsStayAlike(l: Limits, v: World, w: World, task: nat, actions: seq<Action>, w': World)
    returns (v': World)
    requires AlikeBut(v, w, task) && Reaches(l, w, actions, w')
    requires forall a :: a in actions ==> a.Evict? || a.task != task
    ensures Reaches(l, v, actions, v') && AlikeBut(v', w', task)
    decreases |actions|
  {
    if actions == [] {
      v' := v;
    } else {
      var a := actions[0];
      StepKeepsAlike(l, v, w, task, a);
      v' := RunsStayAlike(l, Next(l, v, a), Next(l, w, a), task, actions[1..], w');
    }
  }

  /**
   A request that the breaker sheds takes no waiter slot, permit or lease, and nobody else can
   tell that it came: whatever the other tasks do after it, they could have done without it,
   with the same shared state and the same phases at the end.
   */
  lemma OpenBreakerConsumesNothing(l: Limits, secs: nat, actions: seq<Action>, w: World, task: nat, now: nat,
                                   others: seq<Action>, w': World) returns (v: World)
    requires l.Valid() && Reaches(l, Init(l, secs), actions, w) && Enabled(l, w, Admit(task, now))
    requires AdmitNext(l.breaker, w.s.breaker, now).1.Err? && |w.s.locked| == l.maxConnections
    requires Reaches(l, Next(l, w, Admit(task, now)), others, w')
    requires forall a :: a in others ==> a.Evict? || a.task != task
    ensures var shed := Next(l, w, Admit(task, now)); shed.s == w.s && shed.tasks == w.tasks[task := Finished]
    ensures Reaches(l, w, others, v) && AlikeBut(v, w', task)
  {
    v := RunsStayAlike(l, w, Next(l, w, Admit(task, now)), task, others, w');
  }

  /** The instant of the latest lookup in a run, or of the build if there was none. */
  function LatestUse(built: nat, actions: seq<Action>): nat {
    if actions == [] then built
    else
      var last := actions[|actions| - 1];
      if last.Lookup? then last.secs else LatestUse(built, actions[..|actions| - 1])
  }

  lemma {:induction false} LatestUseAfter(built: nat, a: Action, rest: seq<Action>)
    ensures LatestUse(built, [a] + rest) == LatestUse(if a.Lookup? then a.secs else built, rest)
    decreases |rest|
  {
    var all := [a] + rest;
    if rest == [] {
      assert all[..0] == [];
    } else {
      LatestUseAfter(built, a, rest[..|rest| - 1]);
      assert all[..|all| - 1] == [a] + rest[..|rest| - 1];
    }
  }

  /** Only lookups move the instant of the last use, each to its own instant. */
  lemma StepMovesLastUsed(l: Limits, w: World, a: Action)
    requires |w.s.locked| == l.maxConnections >= 1 && Enabled(l, w, a)
    ensures Next(l, w, a).s.lastUsed == if a.Lookup? then a.secs else w.s.lastUsed
  {
    hide AdmitNext, RecordNext, CancelNext;
  }

  lemma {:induction false} LastUsedIsLatestLookup(l: Limits, w: World, actions: seq<Action>, w': World)
    requires Reaches(l, w, actions, w')
    ensures w'.s.lastUsed == LatestUse(w.s.lastUsed, actions)
    decreases |actions|
  {
    if actions != [] {
      hide Next, Enabled;
      StepMovesLastUsed(l, w, actions[0]);
      LastUsedIsLatestLookup(l, Next(l, w, actions[0]), actions[1..], w');
      LatestUseAfter(w.s.lastUsed, actions[0], actions[1..]);
      assert actions == [actions[0]] + actions[1..];
    }
  }

  /**
   In every run, idle eviction may take the pool exactly when more than 900 seconds have passed
   since its latest lookup, or since it was built if there was none, and no task is between its
   waiter increment and the return of its permit.
   */
  lemma EvictionFindsNobodyInside(l: Limits, built: nat, actions: seq<Action>, w: World, now: nat)
    requires l.Valid() && Reaches(l, Init(l, built), actions, w)
    ensures Evictable(l, w.s, now) <==>
              && now > LatestUse(built, actions) + 900
              && forall t :: t in w.tasks ==> !w.tasks[t].HasWaiter() && !w.tasks[t].HasPermit()
  {
    LastUsedIsLatestLookup(l, Init(l, built), actions, w);
    StartSatisfies(l, built);
    EveryReachableState(l, Init(l, built), actions, w);
    NobodyInside(l, w);
    hide Reaches, Inv, Init, LatestUse;
  }

  lemma NobodyInside(l: Limits, w: World)
    requires CountersMatch(l, w)
    ensures w.s.waiters == 0 && w.s.available == l.maxConnections <==>
              forall t :: t in w.tasks ==> !w.tasks[t].HasWaiter() && !w.tasks[t].HasPermit()
  {
    forall t | t in w.tasks
      ensures w.tasks[t].HasWaiter() ==> w.s.waiters > 0
      ensures w.tasks[t].HasPermit() ==> w.s.available < l.maxConnections
    {
      if w.tasks[t].HasWaiter() { CountPositive(w.tasks, t, Waits); }
      if w.tasks[t].HasPermit() { CountPositive(w.tasks, t, Uses); }
    }
    if forall t :: t in w.tasks ==> !w.tasks[t].HasWaiter() && !w.tasks[t].HasPermit() {
      assert Those(w.tasks, Waits) == {} && Those(w.tasks, Uses) == {};
    }
  }

  /** A step leaves the pool in the map or not as it was, except that eviction takes it out and nothing else. */
  lemma OnlyEvictionRemoves(l: Limits, w: World, a: Action)
    requires |w.s.locked| == l.maxConnections >= 1 && Enabled(l, w, a)
    ensures Next(l, w, a).present == (w.present && !a.Evict?)
    ensures a.Evict? ==> w.present && Next(l, w, a).s == w.s && Next(l, w, a).tasks == w.tasks
    ensures a.Lookup? ==> w.present
  {
    hide AdmitNext, RecordNext, CancelNext;
  }

  /** Eviction is for good: after it no task finds this pool again and it is not evicted twice; those inside go on. */
  lemma {:induction false} EvictionIsForGood(l: Limits, w: World, actions: seq<Action>, w': World, i: nat, j: nat)
    requires Reaches(l, w, actions, w') && i < j < |actions| && (actions[i].Evict? || !w.present)
    ensures !actions[j].Lookup? && !actions[j].Evict?
    decreases |actions|
  {
    hide Next, Enabled;
    OnlyEvictionRemoves(l, w, actions[0]);
    var next := Next(l, w, actions[0]);
    if i > 0 {
      EvictionIsForGood(l, next, actions[1..], w', i - 1, j - 1);
    } else if j > 1 {
      EvictionIsForGood(l, next, actions[1..], w', 0, j - 1);
    } else {
      OnlyEvictionRemoves(l, next, actions[1..][0]);
    }
  }

  /** A finished call reaches the breaker as one outcome: failed iff some slot failed in transport or timed out. */
  lemma CompletionReportsOnce(l: Limits, w: World, task: nat, errors: seq<ExecError>, now: nat)
    requires |w.s.locked| == l.maxConnections >= 1 && Enabled(l, w, Complete(task, errors, now))
    ensures var failed := exists i :: 0 <= i < |errors| && (errors[i].Transport? || errors[i].Timeout?);
            var w' := Next(l, w, Complete(task, errors, now));
            && w'.s.breaker == RecordNext(l.breaker, w.s.breaker, w.tasks[task].permit, failed, now).0
            && w'.tasks[task] == w.tasks[task].(recorded := true)
  {
    assert (exists e :: e in errors && CountsAsFailure(e)) <==>
           exists i :: 0 <= i < |errors| && (errors[i].Transport? || errors[i].Timeout?) by {
      if e :| e in errors && CountsAsFailure(e) {
        var i :| 0 <= i < |errors| && errors[i] == e;
      }
      if i :| 0 <= i < |errors| && (errors[i].Transport? || errors[i].Timeout?) {
        assert errors[i] in errors && CountsAsFailure(errors[i]);
      }
    }
    hide RecordNext;
  }

  /** Outside that span the guard gives no protection: an admitted task can lose its pool. */
  lemma EvictionCanOvertakeAdmission(l: Limits)
    requires l.Valid()
    ensures exists actions, w :: Reaches(l, Init(l, 0), actions, w) && Evictable(l, w.s, 901) && PhaseOf(w, 0).Admitted?
  {
    var w0 := Init(l, 0);
    var w1 := Next(l, w0, Lookup(0, 0));
    var w2 := Next(l, w1, Admit(0, 0));
    assert Reaches(l, w2, [], w2);
    assert [Admit(0, 0)][1..] == [] && Reaches(l, w1, [Admit(0, 0)], w2);
    assert [Lookup(0, 0), Admit(0, 0)][1..] == [Admit(0, 0)];
    assert Reaches(l, w0, [Lookup(0, 0), Admit(0, 0)], w2);
  }

  /** Steps a task still needs to finish if it gives up at every await. */
  function Rank(l: Limits, ph: Phase): nat {
    match ph
    case Finished => 0
    case ClientDropping(_) => 1
    case AdmissionDropping(_) => 1
    case LeaseDropping(_) => 2
    case WaiterDropping(_) => 2
    case PermitDropping(_) => 2
    case Holding(_, _, _) => 3
    case Queued(_) => 3
    case Blocked(_, _) => 3
    case Admitted(_) => 4
    case Looked => 5
    case Scanning(_, _, offset) => 4 + if offset < l.maxConnections then l.maxConnections - offset else 0
    case Picking(_) => 5 + l.maxConnections
    case Granted(_) => 6 + l.maxConnections
  }

  function GiveUp(w: World, task: nat): Action
    requires task in w.tasks
  {
    match w.tasks[task]
    case Looked => Admit(task, w.clock)
    case Admitted(_) => Enqueue(task)
    case Queued(_) => Abandon(task)
    case Blocked(_, _) => Abandon(task)
    case Holding(_, _, _) => DropHandle(task)
    case _ => Advance(task)
  }

  /** The task alone has moved, closer to its end, and no generation of the breaker is undone. */
  ghost predicate Descends(l: Limits, w: World, w': World, task: nat)
    requires task in w.tasks
  {
    && task in w'.tasks && w'.tasks == w.tasks[task := w'.tasks[task]]
    && Rank(l, w'.tasks[task]) < Rank(l, w.tasks[task])
    && w'.s.breaker.generation >= w.s.breaker.generation
  }

  lemma AdvancingDescends(l: Limits, w: World, task: nat)
    requires |w.s.locked| == l.maxConnections >= 1 && task in w.tasks && GiveUp(w, task) == Advance(task)
    requires w.tasks[task] != Finished
    requires w.tasks[task].Lease().Some? ==> w.tasks[task].Lease().value < |w.s.locked|
    ensures Enabled(l, w, Advance(task)) && Descends(l, w, AdvanceNext(l, w, task), task)
  {
    hide Rotated;
  }

  lemma GivingUpDescends(l: Limits, w: World, task: nat)
    requires |w.s.locked| == l.maxConnections >= 1 && task in w.tasks && w.tasks[task] != Finished
    requires w.tasks[task].Lease().Some? ==> w.tasks[task].Lease().value < |w.s.locked|
    ensures Enabled(l, w, GiveUp(w, task)) && Descends(l, w, Next(l, w, GiveUp(w, task)), task)
  {
    hide AdvanceNext;
    if GiveUp(w, task) == Advance(task) {
      AdvancingDescends(l, w, task);
    }
  }

  /** Once the owner of a probe has finished, its probe cannot keep the breaker half-open. */
  lemma FinishedOwnerEndsProbe(l: Limits, w: World, w': World, task: nat)
    requires l.Valid() && Inv(l, w) && Inv(l, w') && OwnsProbe(w, task)
    requires OnlyMoved(w, w', task) && PhaseOf(w', task) == Finished
    requires w'.s.breaker.generation >= w.s.breaker.generation
    ensures w'.s.breaker.state != HalfOpen
  {
    BreakerRuns.EveryRun(l.breaker, w.log);
    assert forall u :: u != task && PhaseOf(w', u).Owes().Some? ==>
        PhaseOf(w, u).Owes().value.generation <= w.s.breaker.generation;
    assert forall u :: u != task && OwnsProbe(w', u) ==> OwnsProbe(w, u);
  }

  lemma GivingUpKeepsAll(l: Limits, w: World, task: nat) returns (w': World)
    requires l.Valid() && Inv(l, w) && task in w.tasks && w.tasks[task] != Finished
    ensures |w.s.locked| == l.maxConnections && Enabled(l, w, GiveUp(w, task)) && w' == Next(l, w, GiveUp(w, task))
    ensures Inv(l, w') && task in w'.tasks && OnlyMoved(w, w', task)
    ensures Rank(l, w'.tasks[task]) < Rank(l, w.tasks[task])
    ensures w'.s.breaker.generation >= w.s.breaker.generation
  {
    assert PhaseOf(w, task) == w.tasks[task];
    GivingUpDescends(l, w, task);
    w' := Next(l, w, GiveUp(w, task));
    StepKeepsAll(l, w, GiveUp(w, task));
  }

  lemma StepsBeforeRun(l: Limits, w: World, a: Action, next: World, rest: seq<Action>, w': World)
    requires |w.s.locked| == l.maxConnections >= 1 && Enabled(l, w, a) && next == Next(l, w, a) && Reaches(l, next, rest, w')
    ensures Reaches(l, w, [a] + rest, w')
  {
    assert ([a] + rest)[1..] == rest;
  }

  lemma MovesCompose(w: World, next: World, w': World, task: nat)
    requires OnlyMoved(w, next, task) && OnlyMoved(next, w', task)
    ensures OnlyMoved(w, w', task)
  {
  }

  lemma {:induction false} FinishesAlone(l: Limits, w: World, task: nat) returns (actions: seq<Action>, w': World)
    requires l.Valid() && Inv(l, w) && task in w.tasks
    ensures Reaches(l, w, actions, w') && Inv(l, w')
    ensures forall a :: a in actions ==> !a.Evict? && a.task == task
    ensures OnlyMoved(w, w', task) && PhaseOf(w', task) == Finished
    ensures w'.s.breaker.generation >= w.s.breaker.generation
    decreases Rank(l, w.tasks[task])
  {
    if w.tasks[task] == Finished {
      actions, w' := [], w;
    } else {
      var a := GiveUp(w, task);
      assert !a.Evict? && a.task == task;
      hide Inv, Next, Enabled, GiveUp, Rank, Reaches, OnlyMoved;
      var next := GivingUpKeepsAll(l, w, task);
      var rest;
      rest, w' := FinishesAlone(l, next, task);
      actions := [a] + rest;
      StepsBeforeRun(l, w, a, next, rest, w');
      MovesCompose(w, next, w', task);
    }
  }

  /**
   No task can wedge the pool: whatever the others do or fail to do, a task in any reachable
   state can finish by its own enabled steps alone.  It then holds nothing, and if it owned
   the half-open probe, the breaker has left HalfOpen.
   */
  lemma EveryTaskCanFinish(l: Limits, w: World, task: nat) returns (actions: seq<Action>, w': World)
    requires l.Valid() && Inv(l, w) && task in w.tasks
    ensures Reaches(l, w, actions, w') && Inv(l, w')
    ensures forall a :: a in actions ==> !a.Evict? && a.task == task
    ensures OnlyMoved(w, w', task) && PhaseOf(w', task) == Finished
    ensures OwnsProbe(w, task) ==> w'.s.breaker.state != HalfOpen
  {
    hide Inv, Reaches, OnlyMoved;
    actions, w' := FinishesAlone(l, w, task);
    if OwnsProbe(w, task) {
      FinishedOwnerEndsProbe(l, w, w', task);
    }
  }

  /** From every reachable half-open state, the owner of the probe alone can end it. */
  lemma HalfOpenIsNeverWedged(l: Limits, secs: nat, actions: seq<Action>, w: World)
    returns (task: nat, more: seq<Action>, w': World)
    requires l.Valid() && Reaches(l, Init(l, secs), actions, w) && w.s.breaker.state == HalfOpen
    ensures OwnsProbe(w, task) && Reaches(l, w, more, w') && w'.s.breaker.state != HalfOpen
    ensures forall a :: a in more ==> !a.Evict? && a.task == task
  {
    StartSatisfies(l, secs);
    EveryReachableState(l, Init(l, secs), actions, w);
    task :| OwnsProbe(w, task);
    more, w' := EveryTaskCanFinish(l, w, task);
  }

  /** A scan that no other task disturbs ends with the first free client in rotation order, if there is one. */
  lemma {:induction false} UndisturbedScanFindsFirstFree(l: Limits, w: World, task: nat, free: nat)
    returns (actions: seq<Action>, w': World)
    requires |w.s.locked| == l.maxConnections >= 1 && task in w.tasks && w.tasks[task].Scanning?
    requires w.tasks[task].start < |w.s.locked| && w.tasks[task].offset <= free < |w.s.locked|
    requires !w.s.locked[Rotated(w.tasks[task].start, free, |w.s.locked|)]
    requires forall o :: w.tasks[task].offset <= o < free ==> w.s.locked[Rotated(w.tasks[task].start, o, |w.s.locked|)]
    ensures Reaches(l, w, actions, w') && forall a :: a in actions ==> a == Advance(task)
    ensures var index := Rotated(w.tasks[task].start, free, |w.s.locked|);
            && task in w'.tasks && w'.tasks[task] == Holding(w.tasks[task].permit, index, false)
            && w'.s == w.s.(locked := w.s.locked[index := true])
    decreases free - w.tasks[task].offset
  {
    var next := Next(l, w, Advance(task));
    if w.tasks[task].offset == free {
      actions, w' := [Advance(task)], next;
      assert actions[1..] == [] && Reaches(l, next, [], next);
    } else {
      var rest;
      rest, w' := UndisturbedScanFindsFirstFree(l, next, task, free);
      actions := [Advance(task)] + rest;
      assert actions[1..] == rest;
    }
  }

  /** A task waiting for a lease waits for another task that holds it, never for itself. */
  lemma BlockedTaskCanWake(l: Limits, secs: nat, actions: seq<Action>, w: World, task: nat)
    requires l.Valid() && Reaches(l, Init(l, secs), actions, w) && PhaseOf(w, task).Blocked?
    ensures Enabled(l, w, Advance(task)) ||
            exists u :: u != task && PhaseOf(w, u).Lease() == Some(PhaseOf(w, task).start)
  {
    StartSatisfies(l, secs);
    EveryReachableState(l, Init(l, secs), actions, w);
  }

  // ---------------------------------------------------------------- leases against permits

  /** Clients whose lease is held, listed by the tasks that hold them. */
  lemma {:induction false} HoldersOf(w: World, clients: set<nat>) returns (holders: set<nat>)
    requires forall c :: c in clients ==> exists t :: PhaseOf(w, t).Lease() == Some(c)
    ensures |holders| == |clients|
    ensures forall t :: t in holders ==> PhaseOf(w, t).Lease().Some? && PhaseOf(w, t).Lease().value in clients
  {
    if clients == {} {
      holders := {};
    } else {
      var c :| c in clients;
      var t :| PhaseOf(w, t).Lease() == Some(c);
      var rest := HoldersOf(w, clients - {c});
      holders := rest + {t};
    }
  }

  lemma LeasesLeaveRoom(l: Limits, w: World, task: nat)
    requires CountersMatch(l, w) && LeasesMatch(l, w)
    requires PhaseOf(w, task).HasPermit() && PhaseOf(w, task).Lease().None?
    requires forall t :: !PhaseOf(w, t).ClientDropping?
    ensures exists c: nat :: c < |w.s.locked| && !w.s.locked[c]
  {
    if forall c: nat :: c < |w.s.locked| ==> w.s.locked[c] {
      var holders := HoldersOf(w, Below(l.maxConnections));
      hide LeasesMatch;
      var users := Those(w.tasks, Uses);
      assert task in users && holders <= users - {task};
      SmallerSet(holders, users - {task});
      assert false;
    }
  }

  /**
   A task that has its permit but no client yet finds a free client unless some lease has
   outlived its permit: the fallback wait exists only because a handle returns its permit
   before its client.
   */
  lemma FreeClientForEveryPermit(l: Limits, secs: nat, actions: seq<Action>, w: World, task: nat)
    requires l.Valid() && Reaches(l, Init(l, secs), actions, w)
    requires PhaseOf(w, task).HasPermit() && PhaseOf(w, task).Lease().None?
    requires forall t :: !PhaseOf(w, t).ClientDropping?
    ensures exists c: nat :: c < |w.s.locked| && !w.s.locked[c]
  {
    StartSatisfies(l, secs);
    EveryReachableState(l, Init(l, secs), actions, w);
    LeasesLeaveRoom(l, w, task);
  }

  function Below(n: nat): (indices: set<nat>)
    ensures forall c: nat :: c in indices <==> c < n
    ensures |indices| == n
  {
    if n == 0 then {} else Below(n - 1) + {n - 1}
  }
}
