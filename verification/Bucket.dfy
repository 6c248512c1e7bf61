/**
 One credential's token bucket, whose balance may go negative.

 Balances and instants are real numbers, instants counted in seconds, so every result
 covers all the instants a clock can show; floating-point rounding is not modelled.
 */
module Buckets {
  import opened Common

  const IDLE_EVICTION: real := 900.0

  datatype Access = Probe | Charge(count: nat)

  datatype Bucket = Bucket(balance: real, updated: real, lastAccess: real)

  /** Tokens accrue at `rate` per second up to `capacity`. */
  datatype Limit = Limit(rate: real, capacity: real) {
    predicate Valid() {
      rate >= 1.0 && 1.0 <= capacity <= 2.0 * rate && capacity == capacity.Floor as real
    }

    /** Tokens that accrue between two instants. */
    function Accrued(from: real, to: real): real {
      (to - from) * rate
    }
  }

  /** Two seconds of tokens; doubling the 64-bit rate saturates. */
  function LimitOf(rate: nat): (l: Limit)
    requires rate <= MAX_U64
    ensures rate >= 1 ==> l.Valid()
  {
    Limit(rate as real, (if 2 * rate <= MAX_U64 then 2 * rate else MAX_U64) as real)
  }

  function Min(a: real, b: real): real {
    if a <= b then a else b
  }

  function Refill(l: Limit, b: Bucket, now: real): Bucket {
    var gain := if now >= b.updated then l.Accrued(b.updated, now) else 0.0;
    b.(balance := Min(b.balance + gain, l.capacity), updated := now)
  }

  function Full(l: Limit, now: real): Bucket {
    Bucket(l.capacity, now, now)
  }

  function Ceil(x: real): (n: int)
    ensures n as real >= x > n as real - 1.0
  {
    if x.Floor as real == x then x.Floor else x.Floor + 1
  }

  /** The advertised delay of a rejection, in whole seconds. */
  function RetryAfter(l: Limit, balance: real): (secs: nat)
    requires l.Valid()
  {
    var deficit := if balance < 0.0 then -balance else 0.0;
    var c := Ceil(deficit / l.rate);
    if c >= 1 then c else 1
  }

  function Cost(access: Access): nat {
    match access
    case Probe => 0
    case Charge(count) => if count >= 1 then count else 1
  }

  /** Rejects without charging at a balance of zero or below; otherwise charges in full. */
  function Settle(l: Limit, b: Bucket, access: Access): (Bucket, Result<(), nat>)
    requires l.Valid()
  {
    if b.balance <= 0.0 then (b, Err(RetryAfter(l, b.balance)))
    else (b.(balance := b.balance - Cost(access) as real), Ok(()))
  }

  // ---------------------------------------------------------------- what happens to one retained key

  datatype KeyEvent = Swept(at: real) | Accessed(access: Access, at: real)

  function KeyStep(l: Limit, b: Bucket, e: KeyEvent): Bucket
    requires l.Valid()
  {
    var refilled := Refill(l, b, e.at);
    if e.Swept? then refilled else Settle(l, refilled.(lastAccess := e.at), e.access).0
  }

  predicate Admitted(l: Limit, b: Bucket, e: KeyEvent) {
    Refill(l, b, e.at).balance > 0.0
  }

  /** The answers to all accesses, in order. */
  function Answers(l: Limit, b: Bucket, events: seq<KeyEvent>): seq<Result<(), nat>>
    requires l.Valid()
    decreases |events|
  {
    if events == [] then []
    else
      var e := events[0];
      (if e.Swept? then [] else [Settle(l, Refill(l, b, e.at), e.access).1]) +
      Answers(l, KeyStep(l, b, e), events[1..])
  }

  function KeyRun(l: Limit, b: Bucket, events: seq<KeyEvent>): Bucket
    requires l.Valid()
    decreases |events|
  {
    if events == [] then b else KeyRun(l, KeyStep(l, b, events[0]), events[1..])
  }

  /** Commands charged to admitted accesses. */
  function Charged(l: Limit, b: Bucket, events: seq<KeyEvent>): nat
    requires l.Valid()
    decreases |events|
  {
    if events == [] then 0
    else
      var e := events[0];
      (if e.Accessed? && Admitted(l, b, e) then Cost(e.access) else 0) +
      Charged(l, KeyStep(l, b, e), events[1..])
  }

  /** Commands in admitted charges, as the requests counted them. */
  function Commands(l: Limit, b: Bucket, events: seq<KeyEvent>): nat
    requires l.Valid()
    decreases |events|
  {
    if events == [] then 0
    else
      var e := events[0];
      (if e.Accessed? && e.access.Charge? && Admitted(l, b, e) then e.access.count else 0) +
      Commands(l, KeyStep(l, b, e), events[1..])
  }

  predicate Ordered(events: seq<KeyEvent>, from: real) {
    events == [] || (from <= events[0].at && Ordered(events[1..], events[0].at))
  }

  /**
   An access is admitted exactly at a positive balance.  Admitted, a charge for n commands takes
   n from the balance, one for none takes 1, and a probe nothing; rejected, an access takes nothing.
   */
  lemma ChargesAreExact(l: Limit, b: Bucket, access: Access)
    requires l.Valid()
    ensures var (b', r) := Settle(l, b, access);
            && (r.Ok? <==> b.balance > 0.0) && b' == b.(balance := b'.balance)
            && (r.Err? || access.Probe? ==> b'.balance == b.balance)
            && (r.Ok? && access.Charge? && access.count >= 1 ==> b'.balance == b.balance - access.count as real)
            && (r.Ok? && access == Charge(0) ==> b'.balance == b.balance - 1.0)
  {
  }

  // ---------------------------------------------------------------- refilling

  lemma Accrual(l: Limit, t0: real, t1: real, t2: real)
    requires l.Valid()
    ensures l.Accrued(t0, t1) + l.Accrued(t1, t2) == l.Accrued(t0, t2)
    ensures l.Accrued(t0, t0) == 0.0
    ensures t1 < t2 ==> l.Accrued(t1, t2) > 0.0
  {
  }

  lemma Scales(a: real, b: real, rate: real)
    requires a < b && rate > 0.0
    ensures a * rate < b * rate
  {
  }

  /** After t seconds a bucket has gained t times the rate, up to two seconds' worth; a clock behind it gains nothing. */
  lemma RefillsAtRate(rate: nat, b: Bucket, now: real)
    requires 1 <= rate && 2 * rate <= MAX_U64
    ensures var b' := Refill(LimitOf(rate), b, now);
            var gained := if now <= b.updated then b.balance else b.balance + (now - b.updated) * rate as real;
            && b'.balance == (if gained <= 2.0 * rate as real then gained else 2.0 * rate as real)
            && b'.updated == now && b'.lastAccess == b.lastAccess
  {
    var l := LimitOf(rate);
    assert l.capacity == 2.0 * rate as real && l.Accrued(b.updated, now) == (now - b.updated) * rate as real;
    hide Limit.Accrued;
    Accrual(l, b.updated, b.updated, b.updated);
  }

  /** Refilling in two stages is refilling once. */
  lemma RefillComposes(l: Limit, b: Bucket, t1: real, t2: real)
    requires l.Valid() && b.updated <= t1 <= t2
    ensures Refill(l, Refill(l, b, t1), t2) == Refill(l, b, t2)
  {
  }

  /** Both buckets will hold the same balance at every instant from `now` on. */
  predicate Alike(l: Limit, a: Bucket, b: Bucket, now: real) {
    a.updated <= now && b.updated <= now && Refill(l, a, now).balance == Refill(l, b, now).balance
  }

  lemma AlikeStaysAlike(l: Limit, a: Bucket, b: Bucket, now: real, later: real)
    requires l.Valid() && Alike(l, a, b, now) && now <= later
    ensures Alike(l, a, b, later)
  {
    hide Limit.Accrued;
    RefillComposes(l, a, now, later);
    RefillComposes(l, b, now, later);
    assert Refill(l, a, now).updated == Refill(l, b, now).updated;
  }

  lemma {:induction false} AlikeAnswersAlike(l: Limit, a: Bucket, b: Bucket, now: real, events: seq<KeyEvent>)
    requires l.Valid() && Alike(l, a, b, now) && Ordered(events, now)
    ensures Answers(l, a, events) == Answers(l, b, events)
    ensures Charged(l, a, events) == Charged(l, b, events)
    decreases |events|
  {
    hide Limit.Accrued;
    if events != [] {
      var e := events[0];
      AlikeStaysAlike(l, a, b, now, e.at);
      assert KeyStep(l, a, e).balance == KeyStep(l, b, e).balance;
      Accrual(l, e.at, e.at, e.at);
      AlikeAnswersAlike(l, KeyStep(l, a, e), KeyStep(l, b, e), e.at, events[1..]);
    }
  }

  /** A sweep, a probe or any rejected access is invisible to every later answer for the key. */
  lemma ObserversAreInvisible(l: Limit, b: Bucket, e: KeyEvent, later: seq<KeyEvent>)
    requires l.Valid() && b.updated <= e.at && Ordered(later, e.at)
    requires e.Swept? || e.access.Probe? || !Admitted(l, b, e)
    ensures Answers(l, KeyStep(l, b, e), later) == Answers(l, b, later)
    ensures Charged(l, KeyStep(l, b, e), later) == Charged(l, b, later)
  {
    hide Limit.Accrued;
    RefillComposes(l, b, e.at, e.at);
    AlikeAnswersAlike(l, KeyStep(l, b, e), b, e.at, later);
  }

  // ---------------------------------------------------------------- forgetting a key

  /**
   Forgetting a key at `now` (its next access starts a full bucket) is invisible to every
   later sequence of accesses exactly when its balance had refilled to capacity by then.
   */
  lemma ForgettingIsInvisibleIffFull(l: Limit, b: Bucket, now: real)
    requires l.Valid() && b.updated <= now
    ensures (forall later :: Ordered(later, now) ==> Answers(l, b, later) == Answers(l, Full(l, now), later))
            <==> Refill(l, b, now).balance == l.capacity
  {
    hide Limit.Accrued;
    if Refill(l, b, now).balance == l.capacity {
      Accrual(l, now, now, now);
      forall later | Ordered(later, now)
        ensures Answers(l, b, later) == Answers(l, Full(l, now), later)
      {
        AlikeAnswersAlike(l, b, Full(l, now), now, later);
      }
    } else {
      var later := Distinguisher(l, b, now);
    }
  }

  /** Spends a full bucket, then probes at the instant the kept bucket climbs back to zero. */
  lemma Distinguisher(l: Limit, b: Bucket, now: real) returns (later: seq<KeyEvent>)
    requires l.Valid() && b.updated <= now && Refill(l, b, now).balance != l.capacity
    ensures Ordered(later, now) && Answers(l, b, later) != Answers(l, Full(l, now), later)
    ensures forall e :: e in later ==> e.Accessed?
  {
    hide Limit.Accrued;
    var v := Refill(l, b, now).balance;
    var spend := Accessed(Charge(l.capacity.Floor), now);
    Accrual(l, now, now, now);
    var kept, reset := KeyStep(l, b, spend), KeyStep(l, Full(l, now), spend);
    assert reset.balance == 0.0 && reset.updated == now;
    if v <= 0.0 {
      later := [spend];
      assert later[1..] == [];
      assert Answers(l, b, later)[0].Err? && Answers(l, Full(l, now), later)[0].Ok?;
    } else {
      var climbed := TimeToAccrue(l, now, l.capacity - v);
      var probe := Accessed(Probe, climbed);
      later := [spend, probe];
      assert later[1..] == [probe] && [probe][1..] == [] && Ordered([probe], now);
      assert Settle(l, Refill(l, kept, climbed), Probe).1.Err? && Settle(l, Refill(l, reset, climbed), Probe).1.Ok?;
      TwoAnswers(l, b, spend, probe);
      TwoAnswers(l, Full(l, now), spend, probe);
    }
  }

  lemma TwoAnswers(l: Limit, b: Bucket, first: KeyEvent, second: KeyEvent)
    requires l.Valid() && first.Accessed? && second.Accessed?
    ensures |Answers(l, b, [first, second])| == 2
    ensures Answers(l, b, [first, second])[1] == Settle(l, Refill(l, KeyStep(l, b, first), second.at), second.access).1
  {
    assert [first, second][1..] == [second];
    assert Answers(l, KeyStep(l, b, first), [second]) ==
           [Settle(l, Refill(l, KeyStep(l, b, first), second.at), second.access).1];
  }

  lemma TimeToAccrue(l: Limit, now: real, tokens: real) returns (later: real)
    requires l.Valid() && tokens >= 0.0
    ensures later >= now && l.Accrued(now, later) == tokens
  {
    var wait := tokens / l.rate;
    assert wait * l.rate == tokens;
    if wait < 0.0 {
      Scales(wait, 0.0, l.rate);
    }
    later := now + wait;
  }

  /**
   A key idle for the eviction period is full again, hence safely forgotten, exactly when its
   balance after the last access plus the accrual since reaches capacity; a balance of at
   least -898 seconds of rate always does.
   */
  lemma IdleKeyIsFull(l: Limit, b: Bucket, now: real)
    requires l.Valid() && b.balance <= l.capacity && b.updated + IDLE_EVICTION <= now
    ensures Refill(l, b, now).balance == l.capacity <==> b.balance + l.Accrued(b.updated, now) >= l.capacity
    ensures b.balance >= -898.0 * l.rate ==> Refill(l, b, now).balance == l.capacity
  {
    assert l.Accrued(b.updated, b.updated + IDLE_EVICTION) == 900.0 * l.rate;
    hide Limit.Accrued;
    Accrual(l, b.updated, b.updated + IDLE_EVICTION, now);
  }

  // ---------------------------------------------------------------- the advertised delay

  /** Waiting a whole number of seconds clears the deficit. */
  predicate Clears(l: Limit, balance: real, secs: nat) {
    balance + secs as real * l.rate >= 0.0
  }

  /** The delay is the least whole number of seconds, at least one, that clears the deficit. */
  lemma RetryAfterIsLeast(l: Limit, balance: real)
    requires l.Valid() && balance <= 0.0
    ensures RetryAfter(l, balance) >= 1 && Clears(l, balance, RetryAfter(l, balance))
    ensures forall n: nat :: 1 <= n < RetryAfter(l, balance) ==> !Clears(l, balance, n)
  {
    var rate, secs := l.rate, RetryAfter(l, balance);
    var exact := -balance / rate;
    assert exact * rate == -balance;
    if exact < secs as real {
      Scales(exact, secs as real, rate);
    }
    forall n: nat | 1 <= n < secs
      ensures !Clears(l, balance, n)
    {
      assert n as real <= secs as real - 1.0 < exact;
      Scales(n as real, exact, rate);
    }
  }

  /** Until the deficit is repaid every access is rejected, so nothing is charged. */
  lemma {:induction false} RejectedUntilRepaid(l: Limit, b: Bucket, events: seq<KeyEvent>, repaid: real)
    requires l.Valid() && Ordered(events, b.updated)
    requires b.balance + l.Accrued(b.updated, repaid) == 0.0
    requires forall e :: e in events ==> e.at <= repaid
    ensures forall a :: a in Answers(l, b, events) ==> a.Err?
    ensures Charged(l, b, events) == 0
    ensures var after := KeyRun(l, b, events);
            && b.updated <= after.updated && (after.updated <= repaid || after == b)
            && after.balance + l.Accrued(after.updated, repaid) == 0.0
    decreases |events|
  {
    hide Limit.Accrued;
    if events != [] {
      var e := events[0];
      Accrual(l, b.updated, e.at, repaid);
      Accrual(l, e.at, b.updated, e.at);
      var next := KeyStep(l, b, e);
      assert Refill(l, b, e.at).balance == -l.Accrued(e.at, repaid) <= 0.0;
      RejectedUntilRepaid(l, next, events[1..], repaid);
    }
  }

  predicate Observes(e: KeyEvent) {
    e.Swept? || e.access.Probe?
  }

  /** A bucket in credit admits every probe, and whatever comes after any number of probes and sweeps. */
  lemma {:induction false} CreditOutlastsObservers(l: Limit, b: Bucket, events: seq<KeyEvent>)
    requires l.Valid() && b.balance > 0.0 && forall e :: e in events ==> Observes(e)
    ensures forall a :: a in Answers(l, b, events) ==> a.Ok?
    ensures Charged(l, b, events) == 0 && KeyRun(l, b, events).balance > 0.0
    decreases |events|
  {
    hide Limit.Accrued;
    if events != [] {
      assert Observes(events[0]);
      Accrual(l, b.updated, b.updated, events[0].at);
      CreditOutlastsObservers(l, KeyStep(l, b, events[0]), events[1..]);
    }
  }

  /** From the instant after its deficit is repaid, a bucket admits every access until one has charged it. */
  lemma AdmittedOnceRepaid(l: Limit, b: Bucket, repaid: real, after: seq<KeyEvent>, next: KeyEvent)
    requires l.Valid() && b.updated <= repaid && b.balance + l.Accrued(b.updated, repaid) == 0.0
    requires forall e :: e in after ==> e.at > repaid && Observes(e)
    requires next.Accessed? && next.at > repaid
    ensures forall a :: a in Answers(l, b, after) ==> a.Ok?
    ensures Charged(l, b, after) == 0 && Admitted(l, KeyRun(l, b, after), next)
  {
    hide Limit.Accrued;
    var first := if after == [] then next else after[0];
    Accrual(l, b.updated, repaid, first.at);
    assert Refill(l, b, first.at).balance > 0.0;
    if after != [] {
      var b' := KeyStep(l, b, first);
      CreditOutlastsObservers(l, b', after[1..]);
      var last := KeyRun(l, b', after[1..]);
      Accrual(l, last.updated, last.updated, next.at);
    }
  }

  /**
   A rejection at `now` is exact.  Let `repaid` be the instant at which the deficit is made
   up.  Whatever accesses and sweeps follow, none up to `repaid` is admitted or charged; every
   access strictly after it is admitted, until and including the next charge; and at the
   advertised delay the balance is no longer negative.
   */
  lemma RetryAfterIsExact(l: Limit, b: Bucket, now: real, repaid: real,
                          meanwhile: seq<KeyEvent>, after: seq<KeyEvent>, next: KeyEvent)
    requires l.Valid() && b.updated <= now && Refill(l, b, now).balance <= 0.0
    requires repaid == now - Refill(l, b, now).balance / l.rate
    requires Ordered(meanwhile, now) && forall e :: e in meanwhile ==> e.at <= repaid
    requires forall e :: e in after ==> e.at > repaid && Observes(e)
    requires next.Accessed? && next.at > repaid
    ensures var start := Refill(l, b, now);
            && (forall a :: a in Answers(l, start, meanwhile) ==> a.Err?)
            && Charged(l, start, meanwhile) == 0
    ensures var due := KeyRun(l, Refill(l, b, now), meanwhile);
            && (forall a :: a in Answers(l, due, after) ==> a.Ok?)
            && Charged(l, due, after) == 0 && Admitted(l, KeyRun(l, due, after), next)
    ensures Refill(l, b, now + RetryAfter(l, Refill(l, b, now).balance) as real).balance >= 0.0
  {
    var start := Refill(l, b, now);
    RepaidWhenAccrued(l, start.balance, now, repaid);
    var delay := RetryAfter(l, start.balance);
    RetryAfterIsLeast(l, start.balance);
    assert Clears(l, start.balance, delay) && start.balance + l.Accrued(now, now + delay as real) >= 0.0;
    hide Limit.Accrued;
    RejectedUntilRepaid(l, start, meanwhile, repaid);
    AdmittedOnceRepaid(l, KeyRun(l, start, meanwhile), repaid, after, next);
    RefillComposes(l, b, now, now + delay as real);
  }

  lemma RepaidWhenAccrued(l: Limit, balance: real, now: real, repaid: real)
    requires l.Valid() && balance <= 0.0 && repaid == now - balance / l.rate
    ensures balance + l.Accrued(now, repaid) == 0.0 && now <= repaid
  {
  }

  // ---------------------------------------------------------------- throughput

  /** Spending comes out of the opening balance and the accrual; debt stays below the largest charge. */
  lemma {:induction false} SpendingIsCovered(l: Limit, b: Bucket, events: seq<KeyEvent>, end: real, largest: nat)
    requires l.Valid() && Ordered(events, b.updated) && b.updated <= end
    requires forall e :: e in events ==> e.at <= end && (e.Accessed? ==> Cost(e.access) <= largest)
    ensures var after := KeyRun(l, b, events);
            && b.updated <= after.updated <= end
            && Charged(l, b, events) as real + after.balance <= b.balance + l.Accrued(b.updated, after.updated)
            && (b.balance > -(largest as real) || Charged(l, b, events) > 0 ==> after.balance > -(largest as real))
    decreases |events|
  {
    hide Limit.Accrued;
    Accrual(l, b.updated, b.updated, b.updated);
    if events != [] {
      var e := events[0];
      var next := KeyStep(l, b, e);
      Accrual(l, b.updated, b.updated, e.at);
      SpendingIsCovered(l, next, events[1..], end, largest);
      Accrual(l, b.updated, next.updated, KeyRun(l, b, events).updated);
    }
  }

  lemma SpendingIsBounded(charged: nat, opening: real, closing: real, gained: real, accrued: real, rate: real, largest: nat)
    requires opening <= 2.0 * rate && gained <= accrued
    requires charged as real + closing <= opening + gained
    requires charged > 0 ==> closing > -(largest as real)
    requires rate > 0.0 && accrued >= 0.0
    ensures charged as real < 2.0 * rate + accrued + largest as real
  {
  }

  /** In any window, charges total strictly less than 2 rate + rate T + the largest one. */
  lemma ChargesAreBounded(l: Limit, b: Bucket, events: seq<KeyEvent>, begin: real, end: real, largest: nat)
    requires l.Valid() && b.balance <= l.capacity && b.updated <= begin <= end && Ordered(events, begin)
    requires forall e :: e in events ==> e.at <= end && (e.Accessed? ==> Cost(e.access) <= largest)
    ensures Charged(l, b, events) as real < 2.0 * l.rate + l.Accrued(begin, end) + largest as real
  {
    hide Limit.Accrued, Answers;
    var opening := Refill(l, b, begin);
    assert opening.updated == begin && opening.balance <= 2.0 * l.rate;
    ObserversAreInvisible(l, b, Swept(begin), events);
    hide Refill;
    SpendingIsCovered(l, opening, events, end, largest);
    var closing := KeyRun(l, opening, events);
    Accrual(l, begin, closing.updated, end);
    Accrual(l, begin, begin, end);
    SpendingIsBounded(Charged(l, opening, events), opening.balance, closing.balance, l.Accrued(begin, closing.updated),
                      l.Accrued(begin, end), l.rate, largest);
  }

  lemma {:induction false} CommandsAreCharged(l: Limit, b: Bucket, events: seq<KeyEvent>, largest: nat)
    requires l.Valid() && forall e :: e in events && e.Accessed? && e.access.Charge? ==> e.access.count <= largest
    ensures Commands(l, b, events) <= Charged(l, b, events)
    ensures largest == 0 ==> Commands(l, b, events) == 0
    decreases |events|
  {
    if events != [] {
      assert events[0] in events;
      CommandsAreCharged(l, KeyStep(l, b, events[0]), events[1..], largest);
    }
  }

  /** In any window, admitted commands total strictly less than 2 rate + rate T + the largest request. */
  lemma ThroughputIsBounded(l: Limit, b: Bucket, events: seq<KeyEvent>, begin: real, end: real, largest: nat)
    requires l.Valid() && b.balance <= l.capacity && b.updated <= begin <= end && Ordered(events, begin)
    requires forall e :: e in events ==> e.at <= end && (e.Accessed? && e.access.Charge? ==> e.access.count <= largest)
    ensures Commands(l, b, events) as real < 2.0 * l.rate + l.Accrued(begin, end) + largest as real
  {
    hide Limit.Accrued, Commands, Charged, Ordered;
    CommandsAreCharged(l, b, events, largest);
    Accrual(l, begin, begin, end);
    if largest >= 1 {
      ChargesAreBounded(l, b, events, begin, end, largest);
    }
  }

  // ---------------------------------------------------------------- bursts

  function SingleCharges(n: nat, now: real): (events: seq<KeyEvent>)
    ensures |events| == n && forall i :: 0 <= i < n ==> events[i] == Accessed(Charge(1), now)
  {
    seq(n, i => Accessed(Charge(1), now))
  }

  lemma {:induction false} TokensAreSpentOneByOne(l: Limit, b: Bucket, n: nat, tokens: nat)
    requires l.Valid() && b.balance == tokens as real <= l.capacity
    ensures var answers := Answers(l, b, SingleCharges(n, b.updated));
            |answers| == n && forall i :: 0 <= i < n ==> (answers[i].Ok? <==> i < tokens)
    decreases n
  {
    if n > 0 {
      var e := Accessed(Charge(1), b.updated);
      hide Limit.Accrued;
      Accrual(l, b.updated, b.updated, b.updated);
      assert SingleCharges(n, b.updated)[0] == e && SingleCharges(n, b.updated)[1..] == SingleCharges(n - 1, b.updated);
      var b' := KeyStep(l, b, e);
      assert b'.updated == b.updated && b'.balance == (if tokens > 0 then tokens - 1 else 0) as real;
      TokensAreSpentOneByOne(l, b', n - 1, if tokens > 0 then tokens - 1 else 0);
    }
  }

  /** A key that starts fresh can send exactly two seconds' worth of commands at one instant. */
  lemma BurstIsTwoSeconds(rate: nat, now: real, n: nat)
    requires 1 <= rate && 2 * rate <= MAX_U64
    ensures var answers := Answers(LimitOf(rate), Full(LimitOf(rate), now), SingleCharges(n, now));
            |answers| == n && forall i :: 0 <= i < n ==> (answers[i].Ok? <==> i < 2 * rate)
  {
    TokensAreSpentOneByOne(LimitOf(rate), Full(LimitOf(rate), now), n, 2 * rate);
  }
}
