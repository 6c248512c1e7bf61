/** Properties of every run of the limiter, stated on the model that `RateLimiter` refines. */
module LimiterRuns {
  import opened Common
  import opened Buckets
  import opened Limiters
  import opened Recency

  datatype Op = Use(key: Key, access: Access, at: real) | Sweep(at: real)

  /** The list holds each key of the map once, from the least to the most recent last access. */
  ghost predicate Listed(recency: seq<Key>, buckets: map<Key, Bucket>) {
    (forall k :: k in recency <==> k in buckets) && Aged(recency, buckets)
  }

  ghost predicate Aged(keys: seq<Key>, buckets: map<Key, Bucket>)
    requires forall k :: k in keys ==> k in buckets
  {
    forall i, j :: 0 <= i < j < |keys| ==>
      keys[i] != keys[j] && buckets[keys[i]].lastAccess <= buckets[keys[j]].lastAccess
  }

  ghost predicate Bounded(l: Limit, buckets: map<Key, Bucket>, clock: real) {
    forall k :: k in buckets ==>
      buckets[k].balance <= l.capacity && buckets[k].updated <= clock && buckets[k].lastAccess <= clock
  }

  /** What holds between operations. */
  ghost predicate Sound(cfg: Settings, s: Simple, clock: real) {
    && cfg.Valid()
    && Listed(s.recency, s.buckets)
    && |s.buckets| <= cfg.maxBuckets
    && Bounded(cfg.Limit(), s.buckets, clock)
  }

  function Next(cfg: Settings, s: Simple, op: Op): Simple
    requires cfg.Valid()
  {
    match op
    case Use(key, access, at) => AccessNext(cfg, s, key, access, at).0
    case Sweep(at) => SweepNext(cfg, s, at)
  }

  // ---------------------------------------------------------------- every operation keeps the limiter sound

  lemma KeepLists(keys: seq<Key>, kept: set<Key>, buckets: map<Key, Bucket>)
    requires (forall k :: k in keys ==> k in buckets) && Aged(keys, buckets)
    ensures Aged(Keep(keys, kept), buckets)
  {
    var before := (a: Key, b: Key) =>
      a != b && a in buckets && b in buckets && buckets[a].lastAccess <= buckets[b].lastAccess;
    assert Sorted(keys, before) by {
      assert forall i :: 0 <= i < |keys| ==> keys[i] in buckets;
    }
    KeepSorted(keys, kept, before);
  }

  /** Dropping keys and changing anything but the last access keep the list in order. */
  lemma FewerAreListed(recency: seq<Key>, buckets: map<Key, Bucket>, fewer: map<Key, Bucket>)
    requires Listed(recency, buckets) && fewer.Keys <= buckets.Keys
    requires forall k :: k in fewer ==> fewer[k].lastAccess == buckets[k].lastAccess
    ensures Listed(Keep(recency, fewer.Keys), fewer)
  {
    KeepLists(recency, fewer.Keys, buckets);
  }

  lemma LatestIsListed(recency: seq<Key>, buckets: map<Key, Bucket>, key: Key, b: Bucket)
    requires Listed(recency, buckets) && key !in buckets
    requires forall k :: k in buckets ==> buckets[k].lastAccess <= b.lastAccess
    ensures Listed(recency + [key], buckets[key := b])
  {
  }

  lemma SizeWith(buckets: map<Key, Bucket>, key: Key, b: Bucket)
    ensures |buckets[key := b]| == |buckets| + if key in buckets then 0 else 1
    ensures (buckets - {key})[key := b] == buckets[key := b]
  {
  }

  lemma SizeWithout(buckets: map<Key, Bucket>, key: Key)
    ensures |buckets - {key}| == |buckets| - if key in buckets then 1 else 0
    ensures (buckets - {key}).Keys == buckets.Keys - {key}
  {
  }

  lemma EvictionIsSound(cfg: Settings, s: Simple, clock: real)
    requires Sound(cfg, s, clock) && s.buckets != map[]
    ensures Sound(cfg, Evicted(s), clock) && |Evicted(s).buckets| == |s.buckets| - 1
    ensures Evicted(s).buckets.Keys <= s.buckets.Keys
  {
    var k :| k in s.buckets;
    assert k in s.recency;
    var v := Victim(s);
    assert v in s.buckets;
    assert Bounded(cfg.Limit(), s.buckets - {v}, clock);
    hide Keep, Listed, Bounded, Victim;
    SizeWithout(s.buckets, v);
    FewerAreListed(s.recency, s.buckets, s.buckets - {v});
  }

  lemma StorageIsSound(cfg: Settings, s: Simple, clock: real, key: Key, b: Bucket)
    requires Sound(cfg, s, clock) && (key in s.buckets || |s.buckets| < cfg.maxBuckets)
    requires b.balance <= cfg.Limit().capacity && b.updated == b.lastAccess == clock
    ensures Sound(cfg, Simple(s.buckets[key := b], Keep(s.recency, s.buckets.Keys - {key}) + [key], s.forgiven), clock)
  {
    assert Bounded(cfg.Limit(), s.buckets[key := b], clock);
    assert forall k :: k in s.buckets - {key} ==> (s.buckets - {key})[k].lastAccess <= b.lastAccess;
    hide Keep, Listed, Bounded;
    SizeWith(s.buckets, key, b);
    SizeWithout(s.buckets, key);
    FewerAreListed(s.recency, s.buckets, s.buckets - {key});
    LatestIsListed(Keep(s.recency, s.buckets.Keys - {key}), s.buckets - {key}, key, b);
  }

  lemma LaterIsSound(cfg: Settings, s: Simple, clock: real, later: real)
    requires Sound(cfg, s, clock) && clock <= later
    ensures Sound(cfg, s, later)
  {
  }

  lemma AccessIsSound(cfg: Settings, s: Simple, clock: real, op: Op)
    requires Sound(cfg, s, clock) && op.Use? && clock <= op.at
    ensures Sound(cfg, Next(cfg, s, op), op.at)
  {
    LaterIsSound(cfg, s, clock, op.at);
    if cfg.rate != 0 {
      var l := cfg.Limit();
      var b := if op.key in s.buckets then Refill(l, s.buckets[op.key], op.at).(lastAccess := op.at) else Full(l, op.at);
      var b' := Settle(l, b, op.access).0;
      assert b'.balance <= l.capacity && b'.updated == b'.lastAccess == op.at;
      hide Keep, Listed, Bounded, Evicted, Refill, Settle;
      if op.key in s.buckets || |s.buckets| < cfg.maxBuckets {
        StorageIsSound(cfg, s, op.at, op.key, b');
      } else {
        EvictionIsSound(cfg, s, op.at);
        StorageIsSound(cfg, Evicted(s), op.at, op.key, b');
      }
    }
  }

  lemma SweepIsSound(cfg: Settings, s: Simple, clock: real, op: Op)
    requires Sound(cfg, s, clock) && op.Sweep? && clock <= op.at
    ensures Sound(cfg, Next(cfg, s, op), op.at)
  {
    LaterIsSound(cfg, s, clock, op.at);
    if cfg.rate != 0 {
      var kept := SweepNext(cfg, s, op.at).buckets;
      hide Limit.Accrued;
      assert Bounded(cfg.Limit(), kept, op.at);
      assert forall k :: k in kept ==> kept[k].lastAccess == s.buckets[k].lastAccess;
      SmallerSet(kept.Keys, s.buckets.Keys);
      hide Keep, Listed, Bounded, Refill;
      FewerAreListed(s.recency, s.buckets, kept);
    }
  }

  function Run(cfg: Settings, s: Simple, ops: seq<Op>): Simple
    requires cfg.Valid()
    decreases |ops|
  {
    if ops == [] then s else Run(cfg, Next(cfg, s, ops[0]), ops[1..])
  }

  predicate InOrder(ops: seq<Op>, from: real) {
    ops == [] || (from <= ops[0].at && InOrder(ops[1..], ops[0].at))
  }

  function EndOf(ops: seq<Op>, now: real): real {
    if ops == [] then now else ops[|ops| - 1].at
  }

  lemma StepIsSound(cfg: Settings, s: Simple, clock: real, op: Op)
    requires Sound(cfg, s, clock) && clock <= op.at
    ensures Sound(cfg, Next(cfg, s, op), op.at)
  {
    hide Next, Listed, Bounded;
    if op.Use? {
      AccessIsSound(cfg, s, clock, op);
    } else {
      SweepIsSound(cfg, s, clock, op);
    }
  }

  /** In every run the buckets stay bounded and the recency list is the order of last access. */
  lemma {:induction false} EveryRunIsSound(cfg: Settings, s: Simple, ops: seq<Op>, clock: real)
    requires Sound(cfg, s, clock) && InOrder(ops, clock)
    ensures Sound(cfg, Run(cfg, s, ops), EndOf(ops, clock))
    decreases |ops|
  {
    if ops != [] {
      var op, rest := ops[0], ops[1..];
      assert cfg.Valid() && EndOf(ops, clock) == EndOf(rest, op.at);
      hide Sound, Next, EndOf;
      StepIsSound(cfg, s, clock, op);
      EveryRunIsSound(cfg, Next(cfg, s, op), rest, op.at);
    }
  }

  /** A new limiter is sound, so every run of it is. */
  lemma EveryRunFromNothingIsSound(cfg: Settings, ops: seq<Op>, clock: real)
    requires cfg.Valid() && InOrder(ops, clock)
    ensures |Run(cfg, Simple(map[], [], 0), ops).buckets| <= cfg.maxBuckets
    ensures Listed(Run(cfg, Simple(map[], [], 0), ops).recency, Run(cfg, Simple(map[], [], 0), ops).buckets)
  {
    EveryRunIsSound(cfg, Simple(map[], [], 0), ops, clock);
  }

  lemma FirstIsOldest(keys: seq<Key>, buckets: map<Key, Bucket>, k: Key)
    requires (forall key :: key in keys ==> key in buckets) && Aged(keys, buckets) && k in keys
    ensures buckets[keys[0]].lastAccess <= buckets[k].lastAccess
  {
  }

  /**
   The victim is the least recently accessed bucket that is not in debt; a bucket in debt is
   chosen only when all are, then the least recently accessed, and exactly then is debt forgiven.
   */
  lemma VictimIsLeastRecentlyUsed(cfg: Settings, s: Simple, clock: real)
    requires Sound(cfg, s, clock) && s.recency != []
    ensures var v := Victim(s);
            && v in s.buckets && Evicted(s).buckets == s.buckets - {v}
            && (forall k :: k in s.buckets && (s.buckets[k].balance >= 0.0 || s.buckets[v].balance < 0.0) ==>
                  s.buckets[v].lastAccess <= s.buckets[k].lastAccess)
    ensures Evicted(s).forgiven == s.forgiven + 1 <==> forall k :: k in s.buckets ==> s.buckets[k].balance < 0.0
  {
    var v, credits := Victim(s), Keep(s.recency, InCredit(s.buckets));
    KeepLists(s.recency, InCredit(s.buckets), s.buckets);
    forall k | k in s.buckets && (s.buckets[k].balance >= 0.0 || s.buckets[v].balance < 0.0)
      ensures s.buckets[v].lastAccess <= s.buckets[k].lastAccess
    {
      if credits != [] {
        assert v in credits && k in credits;
        FirstIsOldest(credits, s.buckets, k);
      } else {
        FirstIsOldest(s.recency, s.buckets, k);
      }
    }
    assert (exists k :: k in s.buckets && s.buckets[k].balance >= 0.0) ==> credits != [] by {
      if k :| k in s.buckets && s.buckets[k].balance >= 0.0 { assert k in credits; }
    }
  }

  /** A sweep removes exactly the keys idle for the eviction period whose refilled balance is not negative. */
  lemma SweepSparesDebt(cfg: Settings, s: Simple, now: real, k: Key)
    requires cfg.Valid() && cfg.rate >= 1 && k in s.buckets
    ensures k !in SweepNext(cfg, s, now).buckets <==>
              Refill(cfg.Limit(), s.buckets[k], now).balance >= 0.0 && now - s.buckets[k].lastAccess >= IDLE_EVICTION
    ensures k in SweepNext(cfg, s, now).buckets ==> SweepNext(cfg, s, now).buckets[k] == Refill(cfg.Limit(), s.buckets[k], now)
    ensures SweepNext(cfg, s, now).buckets.Keys <= s.buckets.Keys && SweepNext(cfg, s, now).forgiven == s.forgiven
  {
  }

  // ---------------------------------------------------------------- one key within a run

  function EventsOf(ops: seq<Op>, k: Key): seq<KeyEvent> {
    if ops == [] then []
    else
      (match ops[0]
       case Use(key, access, at) => if key == k then [Accessed(access, at)] else []
       case Sweep(at) => [Swept(at)]) + EventsOf(ops[1..], k)
  }

  /** Once present, the key is never swept or evicted. */
  predicate NeverDropped(cfg: Settings, s: Simple, ops: seq<Op>, k: Key)
    requires cfg.Valid()
    decreases |ops|
  {
    ops == [] ||
    var s' := Next(cfg, s, ops[0]);
    (k in s.buckets ==> k in s'.buckets) && NeverDropped(cfg, s', ops[1..], k)
  }

  /** The limiter's answers to the key's accesses. */
  function AnswersTo(cfg: Settings, s: Simple, ops: seq<Op>, k: Key): seq<Result<(), nat>>
    requires cfg.Valid()
    decreases |ops|
  {
    if ops == [] then []
    else
      (if ops[0].Use? && ops[0].key == k then [AccessNext(cfg, s, k, ops[0].access, ops[0].at).1] else []) +
      AnswersTo(cfg, Next(cfg, s, ops[0]), ops[1..], k)
  }

  /** Commands charged to the key's admitted accesses. */
  function ChargedTo(cfg: Settings, s: Simple, ops: seq<Op>, k: Key): nat
    requires cfg.Valid()
    decreases |ops|
  {
    if ops == [] then 0
    else
      (if ops[0].Use? && ops[0].key == k && AccessNext(cfg, s, k, ops[0].access, ops[0].at).1.Ok?
       then Cost(ops[0].access) else 0) +
      ChargedTo(cfg, Next(cfg, s, ops[0]), ops[1..], k)
  }

  /** Commands in the key's admitted requests, as the requests counted them. */
  function CommandsTo(cfg: Settings, s: Simple, ops: seq<Op>, k: Key): nat
    requires cfg.Valid()
    decreases |ops|
  {
    if ops == [] then 0
    else
      (if ops[0].Use? && ops[0].key == k && ops[0].access.Charge? && AccessNext(cfg, s, k, ops[0].access, ops[0].at).1.Ok?
       then ops[0].access.count else 0) +
      CommandsTo(cfg, Next(cfg, s, ops[0]), ops[1..], k)
  }

  lemma {:induction false} CommandsToAreCharged(cfg: Settings, s: Simple, ops: seq<Op>, k: Key, largest: nat)
    requires cfg.Valid()
    requires forall op :: op in ops && op.Use? && op.key == k && op.access.Charge? ==> op.access.count <= largest
    ensures CommandsTo(cfg, s, ops, k) <= ChargedTo(cfg, s, ops, k)
    ensures largest == 0 ==> CommandsTo(cfg, s, ops, k) == 0
    decreases |ops|
  {
    hide AccessNext, Next;
    if ops != [] {
      assert ops[0] in ops;
      CommandsToAreCharged(cfg, Next(cfg, s, ops[0]), ops[1..], k, largest);
    }
  }

  /** The bucket that answers for a key: its own, or the full one its next access would create. */
  function BucketOf(cfg: Settings, s: Simple, k: Key, now: real): Bucket
    requires cfg.Valid()
  {
    if k in s.buckets then s.buckets[k] else Full(cfg.Limit(), now)
  }

  lemma OtherKeysAreUntouched(cfg: Settings, s: Simple, op: Op, k: Key)
    requires cfg.Valid() && op.Use? && op.key != k
    ensures var s' := Next(cfg, s, op);
            && (k in s'.buckets ==> k in s.buckets && s'.buckets[k] == s.buckets[k])
            && (k in s.buckets && k !in s'.buckets ==>
                  op.key !in s.buckets && |s.buckets| >= cfg.maxBuckets && s.recency != [] && k == Victim(s))
  {
    hide Keep, Victim, Refill, Settle;
  }

  lemma OwnAccessSettles(cfg: Settings, s: Simple, op: Op)
    requires cfg.Valid() && cfg.rate >= 1 && op.Use?
    ensures var l, s' := cfg.Limit(), Next(cfg, s, op);
            var b := if op.key in s.buckets then Refill(l, s.buckets[op.key], op.at).(lastAccess := op.at) else Full(l, op.at);
            && op.key in s'.buckets && s'.buckets[op.key] == Settle(l, b, op.access).0
            && AccessNext(cfg, s, op.key, op.access, op.at).1 == Settle(l, b, op.access).1
  {
  }

  lemma FullStaysFull(l: Limit, now: real, later: real)
    requires l.Valid() && now <= later
    ensures Refill(l, Full(l, now), later).balance == l.capacity
  {
  }

  /** The bucket answering for a key that the operation does not access. */
  lemma BystanderStaysAlike(cfg: Settings, s: Simple, b: Bucket, op: Op, k: Key, now: real)
    requires cfg.Valid() && cfg.rate >= 1 && now <= op.at && !(op.Use? && op.key == k)
    requires k in s.buckets ==> k in Next(cfg, s, op).buckets
    requires Alike(cfg.Limit(), BucketOf(cfg, s, k, now), b, now)
    ensures Alike(cfg.Limit(), BucketOf(cfg, Next(cfg, s, op), k, op.at), if op.Sweep? then KeyStep(cfg.Limit(), b, Swept(op.at)) else b, op.at)
  {
    var l, own := cfg.Limit(), BucketOf(cfg, s, k, now);
    AlikeStaysAlike(l, own, b, now, op.at);
    FullStaysFull(l, now, op.at);
    FullStaysFull(l, op.at, op.at);
    RefillComposes(l, b, op.at, op.at);
    RefillComposes(l, own, op.at, op.at);
    if op.Use? {
      OtherKeysAreUntouched(cfg, s, op, k);
    }
  }

  lemma OwnerStaysAlike(cfg: Settings, s: Simple, b: Bucket, op: Op, now: real)
    requires cfg.Valid() && cfg.rate >= 1 && now <= op.at && op.Use?
    requires Alike(cfg.Limit(), BucketOf(cfg, s, op.key, now), b, now)
    ensures var l, e := cfg.Limit(), Accessed(op.access, op.at);
            && Alike(l, BucketOf(cfg, Next(cfg, s, op), op.key, op.at), KeyStep(l, b, e), op.at)
            && AccessNext(cfg, s, op.key, op.access, op.at).1 == Settle(l, Refill(l, b, op.at), op.access).1
  {
    hide Limit.Accrued;
    var l, own := cfg.Limit(), BucketOf(cfg, s, op.key, now);
    AlikeStaysAlike(l, own, b, now, op.at);
    FullStaysFull(l, now, op.at);
    OwnAccessSettles(cfg, s, op);
    Accrual(l, op.at, op.at, op.at);
  }

  /**
   Isolation: as long as a key is not dropped, the limiter answers it exactly as its own
   bucket would, whatever the other keys do, and ends with a bucket like it.
   */
  lemma {:induction false} KeysAreIsolated(cfg: Settings, s: Simple, b: Bucket, ops: seq<Op>, k: Key, now: real)
    requires cfg.Valid() && cfg.rate >= 1 && InOrder(ops, now) && NeverDropped(cfg, s, ops, k)
    requires Alike(cfg.Limit(), BucketOf(cfg, s, k, now), b, now)
    ensures AnswersTo(cfg, s, ops, k) == Answers(cfg.Limit(), b, EventsOf(ops, k))
    ensures ChargedTo(cfg, s, ops, k) == Charged(cfg.Limit(), b, EventsOf(ops, k))
    ensures var end := EndOf(ops, now);
            Alike(cfg.Limit(), BucketOf(cfg, Run(cfg, s, ops), k, end), KeyRun(cfg.Limit(), b, EventsOf(ops, k)), end)
    decreases |ops|
  {
    hide Alike, Next, AccessNext, Refill;
    if ops != [] {
      var op, l, rest := ops[0], cfg.Limit(), EventsOf(ops[1..], k);
      assert EndOf(ops, now) == EndOf(ops[1..], op.at);
      hide EndOf, BucketOf, Settle;
      if op.Use? && op.key == k {
        OwnerStaysAlike(cfg, s, b, op, now);
        var e := Accessed(op.access, op.at);
        KeysAreIsolated(cfg, Next(cfg, s, op), KeyStep(l, b, e), ops[1..], k, op.at);
        HeadAnswer(l, b, e, rest);
      } else {
        BystanderStaysAlike(cfg, s, b, op, k, now);
        var b' := if op.Sweep? then KeyStep(l, b, Swept(op.at)) else b;
        KeysAreIsolated(cfg, Next(cfg, s, op), b', ops[1..], k, op.at);
        if op.Sweep? {
          HeadAnswer(l, b, Swept(op.at), rest);
        } else {
          assert EventsOf(ops, k) == rest;
        }
      }
    }
  }

  lemma HeadAnswer(l: Limit, b: Bucket, e: KeyEvent, rest: seq<KeyEvent>)
    requires l.Valid()
    ensures Answers(l, b, [e] + rest) ==
            (if e.Swept? then [] else [Settle(l, Refill(l, b, e.at), e.access).1]) + Answers(l, KeyStep(l, b, e), rest)
    ensures Charged(l, b, [e] + rest) ==
            (if e.Accessed? && Settle(l, Refill(l, b, e.at), e.access).1.Ok? then Cost(e.access) else 0) +
            Charged(l, KeyStep(l, b, e), rest)
    ensures KeyRun(l, b, [e] + rest) == KeyRun(l, KeyStep(l, b, e), rest)
  {
  }

  // ---------------------------------------------------------------- main results for the whole limiter

  lemma {:induction false} EventsAreOrdered(ops: seq<Op>, k: Key, from: real, end: real)
    requires InOrder(ops, from) && forall op :: op in ops ==> op.at <= end
    ensures Ordered(EventsOf(ops, k), from) && forall e :: e in EventsOf(ops, k) ==> e.at <= end
    decreases |ops|
  {
    if ops != [] {
      var op, rest := ops[0], EventsOf(ops[1..], k);
      EventsAreOrdered(ops[1..], k, op.at, end);
      if EventsOf(ops, k) != rest {
        assert EventsOf(ops, k)[1..] == rest;
      } else {
        OrderedEarlier(rest, op.at, from);
      }
    }
  }

  lemma {:induction false} EventsCostNoMore(ops: seq<Op>, k: Key, largest: nat)
    requires forall op :: op in ops && op.Use? && op.key == k ==> Cost(op.access) <= largest
    ensures forall e :: e in EventsOf(ops, k) && e.Accessed? ==> Cost(e.access) <= largest
  {
    if ops != [] {
      assert ops[0] in ops;
      EventsCostNoMore(ops[1..], k, largest);
    }
  }

  lemma OrderedEarlier(events: seq<KeyEvent>, later: real, from: real)
    requires Ordered(events, later) && from <= later
    ensures Ordered(events, from)
  {
  }

  lemma KeyChargesAreBounded(cfg: Settings, s: Simple, ops: seq<Op>, k: Key, begin: real, end: real, largest: nat)
    requires Sound(cfg, s, begin) && cfg.rate >= 1 && begin <= end
    requires InOrder(ops, begin) && NeverDropped(cfg, s, ops, k)
    requires forall op :: op in ops ==> op.at <= end && (op.Use? && op.key == k ==> Cost(op.access) <= largest)
    ensures ChargedTo(cfg, s, ops, k) as real <
            2.0 * cfg.rate as real + (end - begin) * cfg.rate as real + largest as real
  {
    var l, b := cfg.Limit(), BucketOf(cfg, s, k, begin);
    assert l.Accrued(begin, end) == (end - begin) * cfg.rate as real;
    assert l.Valid() && l.rate == cfg.rate as real && b.balance <= l.capacity && b.updated <= begin;
    assert Alike(l, b, b, begin);
    hide *;
    KeysAreIsolated(cfg, s, b, ops, k, begin);
    EventsAreOrdered(ops, k, begin, end);
    EventsCostNoMore(ops, k, largest);
    ChargesAreBounded(l, b, EventsOf(ops, k), begin, end, largest);
  }

  /**
   While a key is not dropped, the commands of its admitted requests in any window total
   strictly less than 2 rate + rate T + the largest request, whatever other keys do.
   */
  lemma KeyThroughputIsBounded(cfg: Settings, s: Simple, ops: seq<Op>, k: Key, begin: real, end: real, largest: nat)
    requires Sound(cfg, s, begin) && cfg.rate >= 1 && begin <= end
    requires InOrder(ops, begin) && NeverDropped(cfg, s, ops, k)
    requires forall op :: op in ops ==>
               op.at <= end && (op.Use? && op.key == k && op.access.Charge? ==> op.access.count <= largest)
    ensures CommandsTo(cfg, s, ops, k) as real <
            2.0 * cfg.rate as real + (end - begin) * cfg.rate as real + largest as real
  {
    hide Listed, Bounded, InOrder, NeverDropped, CommandsTo, ChargedTo;
    CommandsToAreCharged(cfg, s, ops, k, largest);
    if largest >= 1 {
      KeyChargesAreBounded(cfg, s, ops, k, begin, end, largest);
    } else {
      WindowsAccrue(end - begin, cfg.rate as real);
    }
  }

  lemma WindowsAccrue(window: real, rate: real)
    requires window >= 0.0 && rate >= 1.0
    ensures window * rate >= 0.0
  {
  }

  // ---------------------------------------------------------------- the advertised delay

  lemma {:induction false} ObserversOnly(ops: seq<Op>, k: Key, repaid: real)
    requires forall op :: op in ops ==> op.at > repaid && (op.Use? && op.key == k ==> op.access.Probe?)
    ensures forall e :: e in EventsOf(ops, k) ==> e.at > repaid && Observes(e)
  {
    if ops != [] {
      assert ops[0] in ops;
      ObserversOnly(ops[1..], k, repaid);
    }
  }

  lemma {:induction false} LastEvent(ops: seq<Op>, k: Key, access: Access, at: real)
    ensures EventsOf(ops + [Use(k, access, at)], k) == EventsOf(ops, k) + [Accessed(access, at)]
  {
    if ops != [] {
      LastEvent(ops[1..], k, access, at);
      assert (ops + [Use(k, access, at)])[1..] == ops[1..] + [Use(k, access, at)];
    }
  }

  lemma {:induction false} LastAnswer(l: Limit, b: Bucket, events: seq<KeyEvent>, e: KeyEvent)
    requires l.Valid() && e.Accessed?
    ensures var before := KeyRun(l, b, events);
            && Answers(l, b, events + [e]) == Answers(l, b, events) + [Settle(l, Refill(l, before, e.at), e.access).1]
            && Charged(l, b, events + [e]) == Charged(l, b, events) + if Admitted(l, before, e) then Cost(e.access) else 0
    decreases |events|
  {
    hide Refill, Settle;
    if events == [] {
      HeadAnswer(l, b, e, []);
      assert [] + [e] == [e] + [];
    } else {
      LastAnswer(l, KeyStep(l, b, events[0]), events[1..], e);
      HeadAnswer(l, b, events[0], events[1..] + [e]);
      assert events + [e] == [events[0]] + (events[1..] + [e]);
    }
  }

  /** Waiting n seconds reaches the instant of repayment exactly when it clears the deficit. */
  lemma ClearedIffRepaid(l: Limit, balance: real, now: real, secs: nat)
    requires l.Valid()
    ensures Clears(l, balance, secs) <==> now - balance / l.rate <= now + secs as real
  {
    var exact := -balance / l.rate;
    assert exact * l.rate == -balance;
    if exact < secs as real {
      Scales(exact, secs as real, l.rate);
    } else if secs as real < exact {
      Scales(secs as real, exact, l.rate);
    }
  }

  /** The bucket that an access at `now` rejects: it is kept, and its deficit decides the advertised delay. */
  lemma RejectedBucket(cfg: Settings, s: Simple, k: Key, access: Access, now: real) returns (b: Bucket)
    requires Sound(cfg, s, now) && cfg.rate >= 1 && AccessNext(cfg, s, k, access, now).1.Err?
    ensures var (s1, r) := AccessNext(cfg, s, k, access, now);
            && k in s1.buckets && s1.buckets[k] == b && b.updated == now && b.balance <= 0.0
            && b.balance == Refill(cfg.Limit(), BucketOf(cfg, s, k, now), now).balance
            && r == Err(RetryAfter(cfg.Limit(), b.balance)) && Refill(cfg.Limit(), b, now) == b
  {
    hide Limit.Accrued, RetryAfter;
    OwnAccessSettles(cfg, s, Use(k, access, now));
    b := AccessNext(cfg, s, k, access, now).0.buckets[k];
    FullStaysFull(cfg.Limit(), now, now);
    Accrual(cfg.Limit(), now, now, now);
  }

  lemma AdvertisedDelay(l: Limit, balance: real, now: real, repaid: real)
    requires l.Valid() && balance <= 0.0 && repaid == now - balance / l.rate
    ensures var secs := RetryAfter(l, balance);
            secs >= 1 && repaid <= now + secs as real && (secs > 1 ==> now + (secs - 1) as real < repaid)
  {
    var secs := RetryAfter(l, balance);
    RetryAfterIsLeast(l, balance);
    hide Clears, RetryAfter;
    ClearedIffRepaid(l, balance, now, secs);
    if secs > 1 {
      ClearedIffRepaid(l, balance, now, secs - 1);
    }
  }

  /** The traffic of a key in deficit, before and after the instant of repayment. */
  lemma DebtorsTraffic(cfg: Settings, s: Simple, k: Key, now: real, repaid: real, before: seq<Op>, after: seq<Op>, next: Op)
    requires cfg.Valid() && cfg.rate >= 1 && k in s.buckets
    requires var b := s.buckets[k];
             b.updated == now && b.balance <= 0.0 && repaid == now - b.balance / cfg.Limit().rate && Refill(cfg.Limit(), b, now) == b
    requires InOrder(before, now) && NeverDropped(cfg, s, before, k) && forall op :: op in before ==> op.at <= repaid
    requires NeverDropped(cfg, Run(cfg, s, before), after + [next], k)
    requires InOrder(after + [next], repaid) && next.Use? && next.key == k && next.at > repaid
    requires forall op :: op in after ==> op.at > repaid && (op.Use? && op.key == k ==> op.access.Probe?)
    ensures (forall a :: a in AnswersTo(cfg, s, before, k) ==> a.Err?) && ChargedTo(cfg, s, before, k) == 0
    ensures forall a :: a in AnswersTo(cfg, Run(cfg, s, before), after + [next], k) ==> a.Ok?
    ensures ChargedTo(cfg, Run(cfg, s, before), after + [next], k) == Cost(next.access)
  {
    hide Refill, Settle, EventsOf, NeverDropped, AnswersTo, ChargedTo, Limit.Accrued, KeyRun, Answers, Charged;
    var l, b := cfg.Limit(), s.buckets[k];
    var early, late, e := EventsOf(before, k), EventsOf(after, k), Accessed(next.access, next.at);
    var due, end := KeyRun(l, b, early), EndOf(before, now);
    RepaidWhenAccrued(l, b.balance, now, repaid);
    assert end <= repaid && InOrder(after + [next], end);
    EventsAreOrdered(before, k, now, repaid);
    ObserversOnly(after, k, repaid);
    LastEvent(after, k, next.access, next.at);
    LastAnswer(l, due, late, e);
    KeysAreIsolated(cfg, s, b, before, k, now);
    KeysAreIsolated(cfg, Run(cfg, s, before), due, after + [next], k, end);
    RetryAfterIsExact(l, b, now, repaid, early, late, e);
    SettlesWhenAdmitted(l, KeyRun(l, due, late), e);
  }

  /**
   A rejection by the limiter is exact, whatever the other keys do.  Let `repaid` be the
   instant at which the rejected key's deficit is made up; the advertised delay is the least
   whole number of seconds, at least one, that reaches it.  As long as the key is not dropped,
   all its accesses up to `repaid` are rejected without charge, and all its accesses strictly
   after it are admitted, through any probes and sweeps up to and including the next charge.
   */
  lemma RejectionIsExact(cfg: Settings, s: Simple, k: Key, access: Access, now: real, repaid: real,
                         before: seq<Op>, after: seq<Op>, next: Op)
    requires Sound(cfg, s, now) && cfg.rate >= 1 && AccessNext(cfg, s, k, access, now).1.Err?
    requires repaid == now - Refill(cfg.Limit(), BucketOf(cfg, s, k, now), now).balance / cfg.Limit().rate
    requires var s1 := AccessNext(cfg, s, k, access, now).0;
             InOrder(before, now) && NeverDropped(cfg, s1, before, k) &&
             NeverDropped(cfg, Run(cfg, s1, before), after + [next], k)
    requires forall op :: op in before ==> op.at <= repaid
    requires InOrder(after + [next], repaid) && next.Use? && next.key == k && next.at > repaid
    requires forall op :: op in after ==> op.at > repaid && (op.Use? && op.key == k ==> op.access.Probe?)
    ensures var secs := AccessNext(cfg, s, k, access, now).1.error;
            secs >= 1 && repaid <= now + secs as real && (secs > 1 ==> now + (secs - 1) as real < repaid)
    ensures var s1 := AccessNext(cfg, s, k, access, now).0;
            && (forall a :: a in AnswersTo(cfg, s1, before, k) ==> a.Err?) && ChargedTo(cfg, s1, before, k) == 0
            && (forall a :: a in AnswersTo(cfg, Run(cfg, s1, before), after + [next], k) ==> a.Ok?)
            && ChargedTo(cfg, Run(cfg, s1, before), after + [next], k) == Cost(next.access)
  {
    var l, s1 := cfg.Limit(), AccessNext(cfg, s, k, access, now).0;
    var b := RejectedBucket(cfg, s, k, access, now);
    hide AccessNext, Refill, Sound, NeverDropped, AnswersTo, ChargedTo, RetryAfter, InOrder;
    AdvertisedDelay(l, b.balance, now, repaid);
    DebtorsTraffic(cfg, s1, k, now, repaid, before, after, next);
  }

  lemma SettlesWhenAdmitted(l: Limit, b: Bucket, e: KeyEvent)
    requires l.Valid() && e.Accessed? && Admitted(l, b, e)
    ensures Settle(l, Refill(l, b, e.at), e.access).1.Ok?
  {
  }

  // ---------------------------------------------------------------- what sweeps forget

  function OpsOf(events: seq<KeyEvent>, k: Key): seq<Op> {
    if events == [] then []
    else [if events[0].Swept? then Sweep(events[0].at) else Use(k, events[0].access, events[0].at)] + OpsOf(events[1..], k)
  }

  /** A key that nothing but its own accesses happens to is never dropped. */
  lemma {:induction false} OwnTraffic(cfg: Settings, s: Simple, events: seq<KeyEvent>, k: Key, from: real)
    requires cfg.Valid() && cfg.rate >= 1 && Ordered(events, from) && forall e :: e in events ==> e.Accessed?
    ensures var ops := OpsOf(events, k);
            EventsOf(ops, k) == events && InOrder(ops, from) && NeverDropped(cfg, s, ops, k)
    decreases |events|
  {
    if events != [] {
      var op := Use(k, events[0].access, events[0].at);
      assert events[0] in events && OpsOf(events, k) == [op] + OpsOf(events[1..], k);
      OwnAccessSettles(cfg, s, op);
      hide AccessNext;
      OwnTraffic(cfg, Next(cfg, s, op), events[1..], k, op.at);
      assert OpsOf(events, k)[1..] == OpsOf(events[1..], k);
    }
  }

  /** In state s, which does not hold k, the limiter answers every later traffic of k as bucket b would. */
  ghost predicate Transparent(cfg: Settings, s: Simple, k: Key, b: Bucket, now: real)
    requires cfg.Valid() && cfg.rate >= 1
  {
    forall ops :: InOrder(ops, now) && NeverDropped(cfg, s, ops, k) ==>
      AnswersTo(cfg, s, ops, k) == Answers(cfg.Limit(), b, EventsOf(ops, k))
  }

  lemma AbsentKeyIsTransparentIffFull(cfg: Settings, s: Simple, k: Key, b: Bucket, now: real)
    requires cfg.Valid() && cfg.rate >= 1 && k !in s.buckets && b.updated <= now
    ensures Transparent(cfg, s, k, b, now) <==> Refill(cfg.Limit(), b, now).balance == cfg.Limit().capacity
  {
    var l, full := cfg.Limit(), Full(cfg.Limit(), now);
    FullStaysFull(l, now, now);
    assert Alike(l, BucketOf(cfg, s, k, now), full, now);
    if Refill(l, b, now).balance == l.capacity {
      assert Alike(l, BucketOf(cfg, s, k, now), b, now);
      hide NeverDropped, InOrder, AnswersTo, Answers, EventsOf, Refill, Alike;
      forall ops | InOrder(ops, now) && NeverDropped(cfg, s, ops, k)
        ensures AnswersTo(cfg, s, ops, k) == Answers(l, b, EventsOf(ops, k))
      {
        KeysAreIsolated(cfg, s, b, ops, k, now);
      }
    } else {
      hide NeverDropped, InOrder, AnswersTo, Answers, EventsOf, Refill, Alike;
      var later := Distinguisher(l, b, now);
      OwnTraffic(cfg, s, later, k, now);
      KeysAreIsolated(cfg, s, full, OpsOf(later, k), k, now);
    }
  }

  /**
   A key dropped by a sweep gets the later answers its own bucket would have given, for every
   later traffic of the whole limiter that does not drop it again, exactly when its refilled
   balance had reached capacity.
   */
  lemma SweepIsTransparentIffFull(cfg: Settings, s: Simple, k: Key, now: real)
    requires Sound(cfg, s, now) && cfg.rate >= 1 && k in s.buckets && k !in SweepNext(cfg, s, now).buckets
    ensures Transparent(cfg, SweepNext(cfg, s, now), k, s.buckets[k], now) <==>
              Refill(cfg.Limit(), s.buckets[k], now).balance == cfg.Limit().capacity
  {
    AbsentKeyIsTransparentIffFull(cfg, SweepNext(cfg, s, now), k, s.buckets[k], now);
  }

  /** What becomes of a key that is neither accessed nor dropped: it is only refilled. */
  lemma {:induction false} QuietKeyIsRefilled(cfg: Settings, s: Simple, ops: seq<Op>, k: Key, from: real, now: real)
    requires cfg.Valid() && cfg.rate >= 1 && InOrder(ops, from) && NeverDropped(cfg, s, ops, k)
    requires k in s.buckets && s.buckets[k].updated <= from <= now
    requires forall op :: op in ops ==> op.at <= now && !(op.Use? && op.key == k)
    ensures var s' := Run(cfg, s, ops);
            && k in s'.buckets && s'.buckets[k].updated <= now && s'.buckets[k].lastAccess == s.buckets[k].lastAccess
            && Refill(cfg.Limit(), s'.buckets[k], now) == Refill(cfg.Limit(), s.buckets[k], now)
    decreases |ops|
  {
    if ops != [] {
      var op, s' := ops[0], Next(cfg, s, ops[0]);
      if op.Use? {
        OtherKeysAreUntouched(cfg, s, op, k);
      } else {
        SweepSparesDebt(cfg, s, op.at, k);
        RefillComposes(cfg.Limit(), s.buckets[k], op.at, now);
      }
      assert s'.buckets[k].lastAccess == s.buckets[k].lastAccess && s'.buckets[k].updated <= op.at;
      hide Next, Refill;
      QuietKeyIsRefilled(cfg, s', ops[1..], k, op.at, now);
    }
  }

  lemma AccessLeaves(cfg: Settings, s: Simple, op: Op)
    requires Sound(cfg, s, op.at) && cfg.rate >= 1 && op.Use?
    ensures op.key in Next(cfg, s, op).buckets
    ensures var b := Next(cfg, s, op).buckets[op.key];
            b.updated == b.lastAccess == op.at && b.balance <= cfg.Limit().capacity && cfg.Limit().rate == cfg.rate as real
  {
    hide Limit.Accrued;
    OwnAccessSettles(cfg, s, op);
  }

  /** The sweep that drops a quiet key finds it idle since its last access and refilled since then. */
  lemma DroppedWhileQuiet(cfg: Settings, s: Simple, quiet: seq<Op>, k: Key, now: real)
    requires cfg.Valid() && cfg.rate >= 1 && k in s.buckets && s.buckets[k].lastAccess == s.buckets[k].updated
    requires InOrder(quiet, s.buckets[k].updated) && NeverDropped(cfg, s, quiet, k) && s.buckets[k].updated <= now
    requires forall op :: op in quiet ==> op.at <= now && !(op.Use? && op.key == k)
    requires k !in SweepNext(cfg, Run(cfg, s, quiet), now).buckets
    ensures s.buckets[k].updated + IDLE_EVICTION <= now
  {
    hide Next, Refill, SweepNext, InOrder, NeverDropped;
    QuietKeyIsRefilled(cfg, s, quiet, k, s.buckets[k].updated, now);
    SweepSparesDebt(cfg, Run(cfg, s, quiet), now, k);
  }

  /**
   A key that a sweep drops after any quiet stretch of a run, with whatever sweeps and other
   keys' traffic in it, is dropped without changing any of its later answers exactly when the
   balance its last access left plus the accrual since reaches capacity; a balance of at least
   -898 seconds of rate always does.
   */
  lemma SmallDebtsAreForgottenSafely(cfg: Settings, s: Simple, last: Op, quiet: seq<Op>, now: real)
    requires Sound(cfg, s, last.at) && cfg.rate >= 1 && last.Use? && InOrder(quiet, last.at) && EndOf(quiet, last.at) <= now
    requires forall op :: op in quiet ==> op.at <= now && !(op.Use? && op.key == last.key)
    requires NeverDropped(cfg, Next(cfg, s, last), quiet, last.key)
    requires last.key !in SweepNext(cfg, Run(cfg, Next(cfg, s, last), quiet), now).buckets
    ensures var swept := SweepNext(cfg, Run(cfg, Next(cfg, s, last), quiet), now);
            && last.key in Next(cfg, s, last).buckets
            && var b := Next(cfg, s, last).buckets[last.key];
               && (Transparent(cfg, swept, last.key, b, now) <==>
                     b.balance + cfg.Limit().Accrued(last.at, now) >= cfg.Limit().capacity)
               && (b.balance >= -898.0 * cfg.Limit().rate ==> Transparent(cfg, swept, last.key, b, now))
  {
    var l, k, s1 := cfg.Limit(), last.key, Next(cfg, s, last);
    AccessLeaves(cfg, s, last);
    var b, swept := s1.buckets[k], SweepNext(cfg, Run(cfg, s1, quiet), now);
    assert l.Valid() && last.at <= now;
    hide *;
    DroppedWhileQuiet(cfg, s1, quiet, k, now);
    IdleKeyIsFull(l, b, now);
    AbsentKeyIsTransparentIffFull(cfg, swept, k, b, now);
  }
}
