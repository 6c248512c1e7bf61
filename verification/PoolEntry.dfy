/** A pool entry's own fields, and its methods as the protocol's steps on them. */
module PoolEntries {
  import opened Common
  import opened Breakers
  import opened Pools
  import opened PoolProtocol

  lemma {:induction false} UndisturbedScanBlocks(l: Limits, w: World, task: nat) returns (actions: seq<Action>, w': World)
    requires |w.s.locked| == l.maxConnections >= 1 && task in w.tasks && w.tasks[task].Scanning?
    requires w.tasks[task].start < |w.s.locked| && w.tasks[task].offset <= |w.s.locked|
    requires forall i :: 0 <= i < |w.s.locked| ==> w.s.locked[i]
    ensures Reaches(l, w, actions, w') && forall a :: a in actions ==> a == Advance(task)
    ensures w'.s == w.s && task in w'.tasks && w'.tasks[task] == Blocked(w.tasks[task].permit, w.tasks[task].start)
    decreases |w.s.locked| - w.tasks[task].offset
  {
    var next := Next(l, w, Advance(task));
    var rest := [];
    w' := next;
    if w.tasks[task].offset < |w.s.locked| {
      rest, w' := UndisturbedScanBlocks(l, next, task);
    }
    actions := [Advance(task)] + rest;
    StepsBeforeRun(l, w, Advance(task), next, rest, w');
  }

  /** What picking and scanning come to when no other task runs: the first free client, or a wait for client `start`. */
  lemma PickAndScan(l: Limits, w: World, task: nat, free: Option<nat>) returns (actions: seq<Action>, w': World)
    requires |w.s.locked| == l.maxConnections >= 1 && task in w.tasks && w.tasks[task].Picking?
    requires var size := |w.s.locked|;
             var start := w.s.nextClient % size;
             if free.None? then forall i :: 0 <= i < size ==> w.s.locked[i]
             else free.value < size && !w.s.locked[Rotated(start, free.value, size)] &&
                  forall o :: 0 <= o < free.value ==> w.s.locked[Rotated(start, o, size)]
    ensures Reaches(l, w, actions, w') && forall a :: a in actions ==> a == Advance(task)
    ensures var size := |w.s.locked|;
            var start, bumped := w.s.nextClient % size, w.s.(nextClient := Bump(w.s.nextClient));
            && task in w'.tasks
            && if free.None? then w'.s == bumped && w'.tasks[task] == Blocked(w.tasks[task].permit, start)
               else
                 var index := Rotated(start, free.value, size);
                 && w'.s == bumped.(locked := w.s.locked[index := true])
                 && w'.tasks[task] == Holding(w.tasks[task].permit, index, false)
  {
    var next := Next(l, w, Advance(task));
    var rest;
    if free.None? {
      rest, w' := UndisturbedScanBlocks(l, next, task);
    } else {
      rest, w' := UndisturbedScanFindsFirstFree(l, next, task, free.value);
    }
    actions := [Advance(task)] + rest;
    StepsBeforeRun(l, w, Advance(task), next, rest, w');
  }

  /** Each method takes, as ghost arguments, the world it runs in and the task that calls it. */
  class PoolEntry {
    const limits: Limits
    const breaker: Breaker
    const leases: array<bool>
    var waiters: nat
    var available: nat
    var nextClient: nat
    var lastUsed: nat

    ghost predicate Valid()
      reads this
    {
      && limits.Valid() && leases.Length == limits.maxConnections && breaker.cfg == limits.breaker
      && nextClient <= MAX_U64
    }

    ghost function View(): Shared
      reads this, leases, breaker
    {
      Shared(waiters, available, leases[..], nextClient, lastUsed, breaker.View())
    }

    /** This entry is the shared state of the world, in which the action can be taken. */
    ghost predicate Can(w: World, a: Action)
      reads this, leases, breaker
    {
      Valid() && w.s == View() && Enabled(limits, w, a)
    }

    constructor (l: Limits, secs: nat)
      requires l.Valid()
      ensures Valid() && limits == l && View() == Init(l, secs).s && fresh(leases) && fresh(breaker)
      ensures waiters == 0 && available == l.maxConnections && nextClient == 0 && lastUsed == secs
    {
      limits := l;
      breaker := new Breaker(l.breaker);
      leases := new bool[l.maxConnections](i => false);
      waiters, available, nextClient, lastUsed := 0, l.maxConnections, 0, secs;
    }

    method Touch(secs: nat, ghost w: World, ghost task: nat)
      requires Can(w, Lookup(task, secs))
      modifies this`lastUsed
      ensures View() == Next(limits, w, Lookup(task, secs)).s && lastUsed == secs
    {
      lastUsed := secs;
    }

    method Admit(now: nat, ghost w: World, ghost task: nat) returns (r: Result<Admission, nat>)
      requires Can(w, PoolProtocol.Admit(task, now))
      modifies breaker
      ensures var w' := Next(limits, w, PoolProtocol.Admit(task, now));
              View() == w'.s && w'.tasks[task] == if r.Ok? then Admitted(r.value.permit) else Finished
    {
      r := breaker.Admit(now);
    }

    /** The bounded increment of the waiter counter; refusing it sheds the request. */
    method EnterQueue(ghost w: World, ghost task: nat) returns (entered: bool)
      requires Can(w, Enqueue(task))
      modifies this`waiters
      ensures var w' := Next(limits, w, Enqueue(task));
              View() == w'.s && (entered <==> w'.tasks[task].Queued?)
      ensures entered <==> old(waiters) < limits.maxWaiters
      ensures waiters == if entered then old(waiters) + 1 else old(waiters)
    {
      entered := waiters < limits.maxWaiters;
      if entered {
        waiters := waiters + 1;
      }
    }

    /** The waiter guard's drop, after the semaphore's grant or on an early exit. */
    method LeaveQueue(ghost w: World, ghost task: nat)
      requires Can(w, Advance(task)) && (w.tasks[task].Granted? || w.tasks[task].WaiterDropping?)
      modifies this`waiters
      ensures View() == Next(limits, w, Advance(task)).s
    {
      waiters := if waiters > 0 then waiters - 1 else MAX_U64;
    }

    method TakePermit(ghost w: World, ghost task: nat)
      requires Can(w, Take(task))
      modifies this`available
      ensures View() == Next(limits, w, Take(task)).s
    {
      available := available - 1;
    }

    method ReturnPermit(ghost w: World, ghost task: nat)
      requires Can(w, Advance(task)) && (w.tasks[task].PermitDropping? || w.tasks[task].LeaseDropping?)
      modifies this`available
      ensures View() == Next(limits, w, Advance(task)).s
    {
      available := available + 1;
    }

    /** The admission guard's drop on an early exit. */
    method CancelAdmission(permit: Permit, ghost w: World, ghost task: nat)
      requires Can(w, Advance(task)) && w.tasks[task] == AdmissionDropping(permit)
      modifies breaker
      ensures View() == Next(limits, w, Advance(task)).s
    {
      breaker.Cancel(permit);
    }

    method Unlock(client: nat, ghost w: World, ghost task: nat)
      requires Can(w, Advance(task)) && w.tasks[task] == ClientDropping(client) && client < leases.Length
      modifies leases
      ensures View() == Next(limits, w, Advance(task)).s
    {
      leases[client] := false;
    }

    /**
     The rotated lease scan, with no other task running.  It locks the first free client in
     rotation order, leaves every other lease alone, and gives up only when all are locked;
     the protocol's own steps lead to the same state.
     */
    method ScanLeases(ghost w: World, ghost task: nat) returns (start: nat, found: Option<nat>, ghost actions: seq<Action>, ghost w': World)
      requires Can(w, Advance(task)) && w.tasks[task].Picking?
      modifies this`nextClient, leases
      ensures start == old(nextClient) % limits.maxConnections
      ensures nextClient == if old(nextClient) == MAX_U64 then 0 else old(nextClient) + 1
      ensures found.None? <==> forall i :: 0 <= i < leases.Length ==> old(leases[i])
      ensures found.None? ==> leases[..] == old(leases[..])
      ensures found.Some? ==>
                && found.value < leases.Length
                && leases[..] == old(leases[..])[found.value := true]
                && exists offset :: 0 <= offset < leases.Length
                     && found.value == Rotated(start, offset, leases.Length)
                     && !old(leases[found.value])
                     && forall o :: 0 <= o < offset ==> old(leases[Rotated(start, o, leases.Length)])
      ensures Reaches(limits, w, actions, w') && (forall a :: a in actions ==> a == Advance(task)) && View() == w'.s
      ensures task in w'.tasks && w'.tasks[task] ==
                if found.Some? then Holding(w.tasks[task].permit, found.value, false) else Blocked(w.tasks[task].permit, start)
    {
      hide Reaches, Next;
      var size := leases.Length;
      start := nextClient % size;
      nextClient := Bump(nextClient);
      found := None;
      for offset := 0 to size
        invariant leases[..] == old(leases[..])
        invariant forall o :: 0 <= o < offset ==> old(leases[Rotated(start, o, size)])
      {
        var index := Rotated(start, offset, size);
        if !leases[index] {
          leases[index] := true;
          found := Some(index);
          actions, w' := PickAndScan(limits, w, task, Some(offset));
          return;
        }
      }
      forall i | 0 <= i < size
        ensures old(leases[i])
      {
        RotationVisits(start, i, size);
      }
      actions, w' := PickAndScan(limits, w, task, None);
    }
  }
}
