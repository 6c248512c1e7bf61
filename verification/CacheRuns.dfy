/** Properties of every run of the introspection cache, stated on the model it refines. */
module CacheRuns {
  import opened Common
  import opened Recency
  import opened Caches

  datatype Op =
    | Get(digest: Digest, now: nat)
    | Insert(digest: Digest, active: bool, now: nat)
    | Sweep(now: nat)

  const EMPTY := Simple(map[], [])

  function Step(cfg: Settings, s: Simple, op: Op): Simple {
    match op
    case Get(d, now) => GetNext(s, d, now).0
    case Insert(d, active, now) => InsertNext(cfg, s, d, active, now)
    case Sweep(now) => SweepNext(s, now)
  }

  function After(cfg: Settings, ops: seq<Op>): Simple {
    if ops == [] then EMPTY else Step(cfg, After(cfg, ops[..|ops| - 1]), ops[|ops| - 1])
  }

  function Clock(ops: seq<Op>): nat {
    if ops == [] then 0 else ops[|ops| - 1].now
  }

  predicate InOrder(ops: seq<Op>) {
    ops == [] || (InOrder(ops[..|ops| - 1]) && Clock(ops[..|ops| - 1]) <= ops[|ops| - 1].now)
  }

  // ---------------------------------------------------------------- what the past says

  /** The digest an operation touches: inserts and hits, not misses. */
  function Touched(s: Simple, op: Op): Option<Digest> {
    match op
    case Insert(d, _, _) => Some(d)
    case Get(d, now) => if GetNext(s, d, now).1.Some? then Some(d) else None
    case Sweep(_) => None
  }

  /** The latest insert for a digest: its answer and its instant. */
  function LatestInsert(ops: seq<Op>, d: Digest): Option<(bool, nat)> {
    if ops == [] then None
    else
      var last := ops[|ops| - 1];
      if last.Insert? && last.digest == d then Some((last.active, last.now)) else LatestInsert(ops[..|ops| - 1], d)
  }

  /** The answer of a map that forgets nothing before its time to live is over. */
  function Unbounded(cfg: Settings, ops: seq<Op>, d: Digest, now: nat): Option<bool> {
    var latest := LatestInsert(ops, d);
    if latest.Some? && now < latest.value.1 + cfg.ttlSecs * 1_000_000_000 then Some(latest.value.0) else None
  }

  function Inserted(ops: seq<Op>): set<Digest> {
    set i | 0 <= i < |ops| && ops[i].Insert? :: ops[i].digest
  }

  /** The digests touched after the latest touch of d. */
  function TouchedSince(cfg: Settings, ops: seq<Op>, d: Digest): (touched: set<Digest>)
    ensures d !in touched
  {
    if ops == [] then {}
    else
      var init := ops[..|ops| - 1];
      var t := Touched(After(cfg, init), ops[|ops| - 1]);
      if t == Some(d) then {}
      else TouchedSince(cfg, init, d) + if t.Some? then {t.value} else {}
  }

  // ---------------------------------------------------------------- the invariant of every run

  ghost predicate Listed(s: Simple) {
    && (forall d :: d in s.recency <==> d in s.answers)
    && Sorted(s.recency, (a: Digest, b: Digest) => a != b)
  }

  /** Kept answers are the latest inserted ones. */
  ghost predicate Faithful(cfg: Settings, ops: seq<Op>, s: Simple) {
    forall d :: d in s.answers ==>
      LatestInsert(ops, d).Some? &&
      s.answers[d] == Answer(LatestInsert(ops, d).value.0, cfg.Expiry(LatestInsert(ops, d).value.1))
  }

  /** Later digests of the list were touched after the earlier ones' latest touch. */
  ghost predicate TouchOrder(cfg: Settings, ops: seq<Op>, s: Simple) {
    Sorted(s.recency, (a: Digest, b: Digest) => b in TouchedSince(cfg, ops, a))
  }

  lemma ListedWithout(s: Simple, kept: map<Digest, Answer>)
    requires Listed(s) && kept.Keys <= s.answers.Keys
    ensures Listed(Simple(kept, Keep(s.recency, kept.Keys)))
  {
    KeepSorted(s.recency, kept.Keys, (a: Digest, b: Digest) => a != b);
  }

  lemma ListedWith(s: Simple, d: Digest, a: Answer)
    requires Listed(s)
    ensures Listed(Simple(s.answers[d := a], Keep(s.recency, s.answers.Keys - {d}) + [d]))
  {
    KeepSorted(s.recency, s.answers.Keys - {d}, (a: Digest, b: Digest) => a != b);
    var kept := Keep(s.recency, s.answers.Keys - {d});
    assert forall i :: 0 <= i < |kept| ==> kept[i] in kept;
  }

  lemma {:induction false} ListSize(recency: seq<Digest>, keys: set<Digest>)
    requires (forall d :: d in recency <==> d in keys) && Sorted(recency, (a: Digest, b: Digest) => a != b)
    ensures |recency| == |keys|
  {
    if recency == [] {
      assert keys == {};
    } else {
      var d, rest := recency[0], recency[1..];
      forall k
        ensures k in rest <==> k in keys - {d}
      {
        if k in rest {
          var i :| 0 <= i < |rest| && rest[i] == k;
          assert recency[i + 1] == k;
        }
      }
      ListSize(rest, keys - {d});
    }
  }

  lemma RemovalKeys(s: Simple, d: Digest)
    ensures Without(s, d) == Simple(s.answers - {d}, Keep(s.recency, (s.answers - {d}).Keys))
    ensures |s.answers - {d}| == |s.answers| - if d in s.answers then 1 else 0
    ensures (s.answers - {d}).Keys == s.answers.Keys - {d}
  {
  }

  lemma GetIsListed(cfg: Settings, s: Simple, d: Digest, now: nat)
    requires Listed(s) && |s.answers| <= cfg.maxEntries
    ensures var s' := GetNext(s, d, now).0; Listed(s') && |s'.answers| <= cfg.maxEntries
  {
    hide Listed, Keep;
    if d in s.answers {
      RemovalKeys(s, d);
      ListedWithout(s, s.answers - {d});
      ListedWith(s, d, s.answers[d]);
      assert s.answers[d := s.answers[d]] == s.answers;
    }
  }

  lemma InsertIsListed(cfg: Settings, s: Simple, d: Digest, active: bool, now: nat)
    requires cfg.Valid() && Listed(s) && |s.answers| <= cfg.maxEntries
    ensures var s' := InsertNext(cfg, s, d, active, now); Listed(s') && |s'.answers| <= cfg.maxEntries
  {
    ListSize(s.recency, s.answers.Keys);
    assert |s.answers.Keys| == |s.answers|;
    assert s.recency != [] ==> s.recency[0] in s.recency;
    hide Listed, Keep;
    var room := if d in s.answers || |s.answers| < cfg.maxEntries || s.recency == [] then s else Without(s, s.recency[0]);
    if room != s {
      RemovalKeys(s, s.recency[0]);
      ListedWithout(s, s.answers - {s.recency[0]});
    }
    ListedWith(room, d, Answer(active, cfg.Expiry(now)));
    SizeWith(room.answers, d, Answer(active, cfg.Expiry(now)));
  }

  lemma StepIsListed(cfg: Settings, s: Simple, op: Op)
    requires cfg.Valid() && Listed(s) && |s.answers| <= cfg.maxEntries
    ensures Listed(Step(cfg, s, op)) && |Step(cfg, s, op).answers| <= cfg.maxEntries
  {
    hide Listed, Keep, GetNext, InsertNext;
    match op
    case Get(d, now) => GetIsListed(cfg, s, d, now);
    case Insert(d, active, now) => InsertIsListed(cfg, s, d, active, now);
    case Sweep(now) =>
      var live := SweepNext(s, now).answers;
      SmallerSet(live.Keys, s.answers.Keys);
      ListedWithout(s, live);
  }

  lemma SizeWith(answers: map<Digest, Answer>, d: Digest, a: Answer)
    ensures |answers[d := a]| == |answers| + if d in answers then 0 else 1
  {
  }

  /** In every run the cache stays within its bound and lists each entry once. */
  lemma {:induction false} EveryRunIsListed(cfg: Settings, ops: seq<Op>)
    requires cfg.Valid()
    ensures Listed(After(cfg, ops)) && |After(cfg, ops).answers| <= cfg.maxEntries
  {
    if ops != [] {
      EveryRunIsListed(cfg, ops[..|ops| - 1]);
      StepIsListed(cfg, After(cfg, ops[..|ops| - 1]), ops[|ops| - 1]);
    }
  }

  lemma {:induction false} EveryRunIsFaithful(cfg: Settings, ops: seq<Op>)
    ensures Faithful(cfg, ops, After(cfg, ops))
  {
    if ops != [] {
      hide Keep;
      EveryRunIsFaithful(cfg, ops[..|ops| - 1]);
    }
  }

  /** A hit returns the latest inserted answer for that digest, and only before it expires. */
  lemma {:induction false} HitsAreFaithful(cfg: Settings, ops: seq<Op>, d: Digest, now: nat)
    requires InOrder(ops) && Clock(ops) <= now
    ensures var r := GetNext(After(cfg, ops), d, now).1;
            r.Some? ==> r == Unbounded(cfg, ops, d, now)
  {
    EveryRunIsFaithful(cfg, ops);
  }

  // ---------------------------------------------------------------- nothing is lost while the digests fit

  ghost predicate Complete(cfg: Settings, ops: seq<Op>, s: Simple) {
    forall d :: LatestInsert(ops, d).Some? && Clock(ops) < cfg.Expiry(LatestInsert(ops, d).value.1) ==> d in s.answers
  }

  lemma InsertedGrows(ops: seq<Op>)
    requires ops != []
    ensures var last, init := ops[|ops| - 1], ops[..|ops| - 1];
            Inserted(ops) == Inserted(init) + if last.Insert? then {last.digest} else {}
  {
  }

  lemma {:induction false} LatestIsInserted(ops: seq<Op>, d: Digest)
    requires LatestInsert(ops, d).Some?
    ensures d in Inserted(ops)
  {
    InsertedGrows(ops);
    if !(ops[|ops| - 1].Insert? && ops[|ops| - 1].digest == d) {
      LatestIsInserted(ops[..|ops| - 1], d);
    }
  }

  /** A digest leaves the map only by its own expiry, unless the map is full. */
  lemma StepIsComplete(cfg: Settings, s: Simple, ops: seq<Op>)
    requires ops != [] && InOrder(ops)
    requires var init := ops[..|ops| - 1]; Complete(cfg, init, s) && Faithful(cfg, init, s)
    requires var op := ops[|ops| - 1]; op.Insert? ==> op.digest in s.answers || |s.answers| < cfg.maxEntries
    ensures Complete(cfg, ops, Step(cfg, s, ops[|ops| - 1]))
  {
  }

  lemma {:induction false} EveryRunIsComplete(cfg: Settings, ops: seq<Op>)
    requires cfg.Valid() && InOrder(ops) && |Inserted(ops)| <= cfg.maxEntries
    ensures Complete(cfg, ops, After(cfg, ops))
  {
    if ops != [] {
      var init, op := ops[..|ops| - 1], ops[|ops| - 1];
      var s := After(cfg, init);
      InsertedGrows(ops);
      SmallerSet(Inserted(init), Inserted(ops));
      EveryRunIsComplete(cfg, init);
      EveryRunIsFaithful(cfg, init);
      if op.Insert? && op.digest !in s.answers {
        forall d | d in s.answers
          ensures d in Inserted(init)
        {
          LatestIsInserted(init, d);
        }
        SmallerSet(s.answers.Keys + {op.digest}, Inserted(ops));
        assert |s.answers.Keys + {op.digest}| == |s.answers.Keys| + 1;
      }
      StepIsComplete(cfg, s, ops);
    }
  }

  /** While at most maxEntries digests are ever inserted, the cache equals an unbounded map with a time to live. */
  lemma EqualsUnboundedMap(cfg: Settings, ops: seq<Op>, d: Digest, now: nat)
    requires cfg.Valid() && InOrder(ops) && Clock(ops) <= now && |Inserted(ops)| <= cfg.maxEntries
    ensures GetNext(After(cfg, ops), d, now).1 == Unbounded(cfg, ops, d, now)
  {
    EveryRunIsFaithful(cfg, ops);
    EveryRunIsComplete(cfg, ops);
  }

  // ---------------------------------------------------------------- eviction for capacity

  lemma TouchedSinceGrows(cfg: Settings, ops: seq<Op>, d: Digest)
    requires ops != []
    ensures var init := ops[..|ops| - 1];
            var t := Touched(After(cfg, init), ops[|ops| - 1]);
            t != Some(d) ==> TouchedSince(cfg, ops, d) == TouchedSince(cfg, init, d) + if t.Some? then {t.value} else {}
  {
  }

  lemma {:induction false} EveryRunIsTouchOrdered(cfg: Settings, ops: seq<Op>)
    requires cfg.Valid()
    ensures TouchOrder(cfg, ops, After(cfg, ops))
  {
    hide Keep, GetNext, InsertNext, SweepNext;
    if ops != [] {
      var init, op := ops[..|ops| - 1], ops[|ops| - 1];
      var s, s' := After(cfg, init), After(cfg, ops);
      var t := Touched(s, op);
      EveryRunIsTouchOrdered(cfg, init);
      StepKeepsOrder(cfg, s, op, (a: Digest, b: Digest) => b in TouchedSince(cfg, init, a));
      var kept := if t.Some? then s'.recency[..|s'.recency| - 1] else s'.recency;
      forall i, j | 0 <= i < j < |s'.recency|
        ensures s'.recency[j] in TouchedSince(cfg, ops, s'.recency[i])
      {
        assert kept[i] == s'.recency[i] && kept[i] in kept;
        TouchedSinceGrows(cfg, ops, s'.recency[i]);
      }
    }
  }

  /** Apart from a touched digest, which comes last, a step only drops digests from the list. */
  lemma StepKeepsOrder(cfg: Settings, s: Simple, op: Op, before: (Digest, Digest) -> bool)
    requires Sorted(s.recency, before)
    ensures var s', t := Step(cfg, s, op), Touched(s, op);
            && (t.None? ==> Sorted(s'.recency, before))
            && (t.Some? ==>
                  var last := |s'.recency| - 1;
                  last >= 0 && s'.recency[last] == t.value && Sorted(s'.recency[..last], before) && t.value !in s'.recency[..last])
  {
    hide Keep, Sorted;
    match op
    case Get(d, now) =>
      KeepSorted(s.recency, s.answers.Keys - {d}, before);
      var r := Keep(s.recency, s.answers.Keys - {d});
      assert (r + [d])[..|r|] == r;
    case Insert(d, active, now) =>
      var room := if d in s.answers || |s.answers| < cfg.maxEntries || s.recency == [] then s else Without(s, s.recency[0]);
      if room != s {
        KeepSorted(s.recency, s.answers.Keys - {s.recency[0]}, before);
      }
      KeepSorted(room.recency, room.answers.Keys - {d}, before);
      var r := Keep(room.recency, room.answers.Keys - {d});
      assert (r + [d])[..|r|] == r;
    case Sweep(now) =>
      KeepSorted(s.recency, SweepNext(s, now).answers.Keys, before);
  }

  lemma VictimIsFirst(cfg: Settings, s: Simple, op: Op, victim: Digest)
    requires Listed(s) && |s.answers| <= cfg.maxEntries && op.Insert?
    requires victim in s.answers && victim !in Step(cfg, s, op).answers
    ensures s.recency != [] && victim == s.recency[0]
    ensures |s.answers| == cfg.maxEntries && op.digest !in s.answers
  {
  }

  lemma OthersWereTouchedLater(cfg: Settings, ops: seq<Op>, s: Simple)
    requires Listed(s) && TouchOrder(cfg, ops, s) && s.recency != []
    ensures s.answers.Keys - {s.recency[0]} <= TouchedSince(cfg, ops, s.recency[0])
  {
  }

  /**
   An insert evicts another digest only when the cache is full, and by then at least maxEntries
   distinct other digests have been touched since the evicted one's latest touch.
   */
  lemma EvictionNeedsMaxEntriesTouches(cfg: Settings, ops: seq<Op>, op: Op, victim: Digest)
    requires cfg.Valid() && op.Insert?
    requires victim in After(cfg, ops).answers && victim !in After(cfg, ops + [op]).answers
    ensures |After(cfg, ops).answers| == cfg.maxEntries
    ensures |TouchedSince(cfg, ops + [op], victim)| >= cfg.maxEntries
  {
    assert (ops + [op])[..|ops|] == ops;
    var s := After(cfg, ops);
    assert Touched(s, op) == Some(op.digest);
    TouchedSinceGrows(cfg, ops + [op], victim);
    hide Listed, TouchOrder, Step, TouchedSince, Touched;
    EveryRunIsListed(cfg, ops);
    EveryRunIsTouchOrdered(cfg, ops);
    VictimIsFirst(cfg, s, op, victim);
    OthersWereTouchedLater(cfg, ops, s);
    var others := s.answers.Keys - {victim};
    assert |others + {op.digest}| == |s.answers.Keys| == cfg.maxEntries;
    SmallerSet(others + {op.digest}, TouchedSince(cfg, ops + [op], victim));
  }
}
