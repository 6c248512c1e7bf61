/**
 The rate limiter: a bounded map of buckets with two recency indexes, one for buckets in
 credit and one for buckets in debt, specified by a plain map with one recency list.
 */
module Limiters {
  import opened Common
  import opened Buckets
  import opened Recency

  /** A credential's bucket key. */
  datatype Key = Key(name: string)

  // ---------------------------------------------------------------- the simple model

  /** Buckets by key, and the same keys from least to most recently accessed. */
  datatype Simple = Simple(buckets: map<Key, Bucket>, recency: seq<Key>, forgiven: nat)

  datatype Settings = Settings(rate: nat, maxBuckets: nat) {
    predicate Valid() {
      rate <= MAX_U64 && maxBuckets >= 1
    }

    function Limit(): Limit
      requires Valid()
    {
      LimitOf(rate)
    }
  }

  function InCredit(buckets: map<Key, Bucket>): set<Key> {
    set k | k in buckets && buckets[k].balance >= 0.0
  }

  /** The least recently used key whose stored balance is not negative, else the least recently used key. */
  function Victim(s: Simple): (v: Key)
    requires s.recency != []
    ensures v in s.recency
  {
    var credits := Keep(s.recency, InCredit(s.buckets));
    if credits != [] then credits[0] else s.recency[0]
  }

  function Evicted(s: Simple): Simple {
    if s.recency == [] || Victim(s) !in s.buckets then s
    else
      var v := Victim(s);
      Simple(s.buckets - {v}, Keep(s.recency, s.buckets.Keys - {v}),
             s.forgiven + if s.buckets[v].balance < 0.0 then 1 else 0)
  }

  function AccessNext(cfg: Settings, s: Simple, key: Key, access: Access, now: real): (Simple, Result<(), nat>)
    requires cfg.Valid()
  {
    if cfg.rate == 0 then (s, Ok(()))
    else
      var l := cfg.Limit();
      var room := if key in s.buckets || |s.buckets| < cfg.maxBuckets then s else Evicted(s);
      var b := if key in s.buckets then Refill(l, s.buckets[key], now).(lastAccess := now) else Full(l, now);
      var (b', r) := Settle(l, b, access);
      (Simple(room.buckets[key := b'], Keep(room.recency, room.buckets.Keys - {key}) + [key], room.forgiven), r)
  }

  predicate Idle(l: Limit, b: Bucket, now: real) {
    Refill(l, b, now).balance >= 0.0 && now - b.lastAccess >= IDLE_EVICTION
  }

  function SweepNext(cfg: Settings, s: Simple, now: real): Simple
    requires cfg.Valid()
  {
    if cfg.rate == 0 then s
    else
      var l := cfg.Limit();
      var kept := map k | k in s.buckets && !Idle(l, s.buckets[k], now) :: Refill(l, s.buckets[k], now);
      Simple(kept, Keep(s.recency, kept.Keys), s.forgiven)
  }

  // ---------------------------------------------------------------- the indexed implementation

  /** `indebted` says which index holds `order`; it is set when the entry is linked. */
  datatype Entry = Entry(bucket: Bucket, order: nat, key: Key, indebted: bool)

  ghost predicate Rising(keys: seq<Key>, entries: map<Key, Entry>)
    requires forall k :: k in keys ==> k in entries
  {
    forall i, j :: 0 <= i < j < |keys| ==> entries[keys[i]].order < entries[keys[j]].order
  }

  /** The list holds exactly the keys of the map, in the order of their latest access. */
  ghost predicate Recent(recency: seq<Key>, entries: map<Key, Entry>) {
    (forall k :: k in recency <==> k in entries) && Rising(recency, entries)
  }

  ghost predicate Linked(e: Entry, credit: map<nat, Key>, debt: map<nat, Key>) {
    && (e.indebted <==> e.bucket.balance < 0.0)
    && if e.indebted then e.order in debt && debt[e.order] == e.key else e.order in credit && credit[e.order] == e.key
  }

  /** Every entry is in exactly the index its flag names, and the indexes hold nothing else. */
  ghost predicate Indexed(entries: map<Key, Entry>, credit: map<nat, Key>, debt: map<nat, Key>, nextOrder: nat) {
    && (forall k :: k in entries ==>
          entries[k].key == k && entries[k].order < nextOrder && Linked(entries[k], credit, debt))
    && (forall o :: o in credit ==> credit[o] in entries && entries[credit[o]].order == o && !entries[credit[o]].indebted)
    && (forall o :: o in debt ==> debt[o] in entries && entries[debt[o]].order == o && entries[debt[o]].indebted)
  }

  function Project(entries: map<Key, Entry>): map<Key, Bucket> {
    map k | k in entries :: entries[k].bucket
  }

  lemma KeepRises(keys: seq<Key>, kept: set<Key>, entries: map<Key, Entry>)
    requires (forall k :: k in keys ==> k in entries) && Rising(keys, entries)
    ensures Rising(Keep(keys, kept), entries)
  {
    var before := (a: Key, b: Key) => a in entries && b in entries && entries[a].order < entries[b].order;
    assert Sorted(keys, before) by {
      assert forall i :: 0 <= i < |keys| ==> keys[i] in entries;
    }
    KeepSorted(keys, kept, before);
  }

  lemma {:induction false} LeastOf(orders: set<nat>) returns (o: nat)
    requires orders != {}
    ensures o in orders && forall p :: p in orders ==> o <= p
  {
    var first :| first in orders;
    if orders == {first} {
      o := first;
    } else {
      var least := LeastOf(orders - {first});
      o := if least < first then least else first;
      assert forall p :: p in orders ==> p == first || p in orders - {first};
    }
  }

  /** Both ways of naming the victim agree: smallest order in the index, first key in the list. */
  lemma FirstIsLeast(keys: seq<Key>, entries: map<Key, Entry>, index: map<nat, Key>, o: nat)
    requires keys != [] && (forall k :: k in keys ==> k in entries) && Rising(keys, entries)
    requires forall k :: k in keys ==> entries[k].order in index && index[entries[k].order] == k
    requires o in index && index[o] in keys && entries[index[o]].order == o
    requires forall p :: p in index ==> o <= p
    ensures keys[0] == index[o]
  {
  }

  lemma ForgettingShrinks(entries: map<Key, Entry>, key: Key)
    requires key in entries
    ensures |entries - {key}| == |entries| - 1
    ensures Project(entries - {key}) == Project(entries) - {key}
    ensures (entries - {key}).Keys == entries.Keys - {key}
  {
  }

  lemma ForgettingKeepsOrder(entries: map<Key, Entry>, recency: seq<Key>, key: Key)
    requires Recent(recency, entries)
    ensures Recent(Keep(recency, entries.Keys - {key}), entries - {key})
  {
    KeepRises(recency, entries.Keys - {key}, entries);
  }

  /** An index without the given entry. */
  function Unlinked(index: map<nat, Key>, e: Entry, here: bool): map<nat, Key> {
    if here then index - {e.order} else index
  }

  lemma UnlinkingKeepsIndex(entries: map<Key, Entry>, credit: map<nat, Key>, debt: map<nat, Key>, nextOrder: nat, k: Key)
    requires Indexed(entries, credit, debt, nextOrder) && k in entries
    ensures var e := entries[k];
            Indexed(entries - {k}, Unlinked(credit, e, !e.indebted), Unlinked(debt, e, e.indebted), nextOrder)
  {
  }

  lemma LinkingKeepsIndex(entries: map<Key, Entry>, credit: map<nat, Key>, debt: map<nat, Key>, nextOrder: nat, e: Entry)
    requires Indexed(entries, credit, debt, nextOrder) && e.key !in entries
    requires e.order == nextOrder && (e.indebted <==> e.bucket.balance < 0.0)
    ensures Indexed(entries[e.key := e], if e.indebted then credit else credit[e.order := e.key],
                    if e.indebted then debt[e.order := e.key] else debt, nextOrder + 1)
  {
  }

  lemma CreditVictim(entries: map<Key, Entry>, credit: map<nat, Key>, debt: map<nat, Key>, nextOrder: nat, s: Simple, order: nat)
    requires Indexed(entries, credit, debt, nextOrder) && s.buckets == Project(entries)
    requires Recent(s.recency, entries)
    requires order in credit && forall p :: p in credit ==> order <= p
    ensures s.recency != [] && credit[order] == Victim(s)
    ensures credit[order] in entries && entries[credit[order]].order == order && !entries[credit[order]].indebted
  {
    var credits := Keep(s.recency, InCredit(s.buckets));
    KeepRises(s.recency, InCredit(s.buckets), entries);
    assert credit[order] in credits;
    FirstIsLeast(credits, entries, credit, order);
  }

  lemma DebtVictim(entries: map<Key, Entry>, credit: map<nat, Key>, debt: map<nat, Key>, nextOrder: nat, s: Simple, order: nat)
    requires Indexed(entries, credit, debt, nextOrder) && s.buckets == Project(entries) && credit == map[]
    requires Recent(s.recency, entries)
    requires order in debt && forall p :: p in debt ==> order <= p
    ensures s.recency != [] && debt[order] == Victim(s)
    ensures debt[order] in entries && entries[debt[order]].order == order && entries[debt[order]].indebted
  {
  }

  lemma EvictionForgets(entries: map<Key, Entry>, s: Simple, v: Key)
    requires s.buckets == Project(entries) && Recent(s.recency, entries) && s.recency != [] && v == Victim(s)
    ensures v in entries
    ensures Evicted(s) == Simple(Project(entries) - {v}, Keep(s.recency, entries.Keys - {v}),
                                 s.forgiven + if entries[v].bucket.balance < 0.0 then 1 else 0)
  {
    assert Project(entries).Keys == entries.Keys;
  }

  /** An entry's flag tells its sign. */
  lemma FlagIsSign(entries: map<Key, Entry>, credit: map<nat, Key>, debt: map<nat, Key>, nextOrder: nat, k: Key)
    requires Indexed(entries, credit, debt, nextOrder) && k in entries
    ensures entries[k].indebted <==> entries[k].bucket.balance < 0.0
    ensures entries[k].indebted ==> entries[k].order in debt
    ensures !entries[k].indebted ==> entries[k].order in credit
    ensures entries[k].key == k && entries[k].order < nextOrder
  {
  }

  /** A newly linked entry is the most recent one. */
  lemma LinkingKeepsOrder(entries: map<Key, Entry>, credit: map<nat, Key>, debt: map<nat, Key>, nextOrder: nat,
                          recency: seq<Key>, e: Entry)
    requires Indexed(entries, credit, debt, nextOrder) && Recent(recency, entries)
    requires e.key !in entries && e.order == nextOrder
    ensures Recent(recency + [e.key], entries[e.key := e])
  {
  }

  lemma ReplacingIsRelinking(entries: map<Key, Entry>, e: Entry)
    ensures (entries - {e.key})[e.key := e] == entries[e.key := e]
    ensures Project(entries[e.key := e]) == Project(entries)[e.key := e.bucket]
    ensures |entries[e.key := e]| == |entries| + if e.key in entries then 0 else 1
  {
  }

  lemma NothingToForget(entries: map<Key, Entry>, recency: seq<Key>, key: Key)
    requires key !in entries && Recent(recency, entries)
    ensures entries - {key} == entries && Keep(recency, entries.Keys - {key}) == recency
  {
    KeepAll(recency, entries.Keys - {key});
  }

  lemma ViewKeys(entries: map<Key, Entry>)
    ensures Project(entries).Keys == entries.Keys && |Project(entries)| == |entries|
  {
  }

  /** Refilling in place keeps the entry's order, and so the recency list. */
  lemma RefillingKeepsOrder(entries: map<Key, Entry>, recency: seq<Key>, e: Entry)
    requires Recent(recency, entries) && e.key in entries && e.order == entries[e.key].order
    ensures Recent(recency, entries[e.key := e])
  {
  }

  /** An in-place refill either stays in its index or moves from debt to credit under the same order. */
  lemma RefillingKeepsIndex(entries: map<Key, Entry>, credit: map<nat, Key>, debt: map<nat, Key>, nextOrder: nat, e: Entry)
    requires Indexed(entries, credit, debt, nextOrder) && e.key in entries && e.order == entries[e.key].order
    requires e.indebted <==> e.bucket.balance < 0.0
    requires e.indebted ==> entries[e.key].indebted
    requires e.order in credit ==> credit[e.order] == e.key
    ensures var moved := entries[e.key].indebted && !e.indebted;
            Indexed(entries[e.key := e], if moved then credit[e.order := e.key] else credit,
                    Unlinked(debt, e, moved), nextOrder)
  {
  }

  lemma OrdersAreDistinct(entries: map<Key, Entry>, credit: map<nat, Key>, debt: map<nat, Key>, nextOrder: nat,
                          recency: seq<Key>, k: Key)
    requires Indexed(entries, credit, debt, nextOrder) && Recent(recency, entries) && k in entries
    ensures entries[k].order in credit ==> credit[entries[k].order] == k
  {
  }

  /** What one visit of the sweep leaves of an entry. */
  function Revisited(l: Limit, e: Entry, now: real): Entry {
    var b := Refill(l, e.bucket, now);
    e.(bucket := b, indebted := e.indebted && b.balance < 0.0)
  }

  lemma RefillNeverLosesCredit(l: Limit, b: Bucket, now: real)
    requires l.Valid() && b.balance >= 0.0
    ensures Refill(l, b, now).balance >= 0.0
  {
  }

  lemma SweepRefines(cfg: Settings, entries: map<Key, Entry>, swept: map<Key, Entry>, rest: map<Key, Entry>,
                     idle: set<Key>, s: Simple, now: real)
    requires cfg.Valid() && cfg.rate >= 1 && s.buckets == Project(entries)
    requires swept.Keys == entries.Keys && forall k :: k in entries ==> swept[k] == Revisited(cfg.Limit(), entries[k], now)
    requires forall k :: k in idle <==> k in entries && Idle(cfg.Limit(), entries[k].bucket, now)
    requires rest == swept - idle
    ensures SweepNext(cfg, s, now) == Simple(Project(rest), Keep(s.recency, rest.Keys), s.forgiven)
  {
    hide Refill, Keep;
    var l := cfg.Limit();
    var kept := map k | k in s.buckets && !Idle(l, s.buckets[k], now) :: Refill(l, s.buckets[k], now);
    assert Project(rest) == kept;
    assert kept.Keys == rest.Keys;
  }

  class RateLimiter {
    const cfg: Settings
    var entries: map<Key, Entry>
    var credit: map<nat, Key>
    var debt: map<nat, Key>
    var nextOrder: nat
    var forgiven: nat
    ghost var recency: seq<Key>

    ghost predicate Valid()
      reads this
    {
      && cfg.Valid()
      && Indexed(entries, credit, debt, nextOrder)
      && |entries| <= cfg.maxBuckets
      && Recent(recency, entries)
    }

    ghost function View(): Simple
      reads this
    {
      Simple(Project(entries), recency, forgiven)
    }

    constructor (rate: nat, maxBuckets: nat)
      requires rate <= MAX_U64
      ensures Valid() && cfg == Settings(rate, if maxBuckets >= 1 then maxBuckets else 1)
      ensures View() == Simple(map[], [], 0)
    {
      cfg := Settings(rate, if maxBuckets >= 1 then maxBuckets else 1);
      entries, credit, debt, nextOrder, forgiven, recency := map[], map[], map[], 0, 0, [];
    }

    method Unlink(e: Entry)
      modifies this`credit, this`debt
      ensures if e.indebted then debt == old(debt) - {e.order} && credit == old(credit)
              else credit == old(credit) - {e.order} && debt == old(debt)
    {
      if e.indebted {
        debt := debt - {e.order};
      } else {
        credit := credit - {e.order};
      }
    }

    method Link(e: Entry) returns (linked: Entry)
      modifies this`credit, this`debt, this`nextOrder
      ensures linked == e.(order := old(nextOrder), indebted := e.bucket.balance < 0.0)
      ensures nextOrder == old(nextOrder) + 1
      ensures if linked.indebted then debt == old(debt)[linked.order := e.key] && credit == old(credit)
              else credit == old(credit)[linked.order := e.key] && debt == old(debt)
    {
      linked := e.(order := nextOrder, indebted := e.bucket.balance < 0.0);
      nextOrder := nextOrder + 1;
      if linked.indebted {
        debt := debt[linked.order := e.key];
      } else {
        credit := credit[linked.order := e.key];
      }
    }

    /** Evicts the oldest entry in credit, or the oldest in debt only when none is in credit. */
    method EvictOne() returns (forgave: bool)
      requires Valid() && entries != map[]
      modifies this`entries, this`credit, this`debt, this`recency
      ensures Valid() && |entries| == old(|entries|) - 1 && entries.Keys <= old(entries.Keys)
      ensures View().(forgiven := old(forgiven) + if forgave then 1 else 0) == Evicted(old(View()))
      ensures forgave <==> old(credit) == map[]
    {
      hide Indexed, Recent, Keep, Project, Victim, Evicted;
      var order: nat;
      var victim: Key;
      if credit != map[] {
        ghost var least := LeastOf(credit.Keys);
        order :| order in credit && forall p :: p in credit ==> order <= p;
        victim := credit[order];
        CreditVictim(entries, credit, debt, nextOrder, View(), order);
        UnlinkingKeepsIndex(entries, credit, debt, nextOrder, victim);
        FlagIsSign(entries, credit, debt, nextOrder, victim);
        credit := credit - {order};
        forgave := false;
      } else {
        var some: Key :| some in entries;
        FlagIsSign(entries, credit, debt, nextOrder, some);
        ghost var least := LeastOf(debt.Keys);
        order :| order in debt && forall p :: p in debt ==> order <= p;
        victim := debt[order];
        DebtVictim(entries, credit, debt, nextOrder, View(), order);
        UnlinkingKeepsIndex(entries, credit, debt, nextOrder, victim);
        FlagIsSign(entries, credit, debt, nextOrder, victim);
        debt := debt - {order};
        forgave := true;
      }
      EvictionForgets(entries, View(), victim);
      Forget(victim);
    }

    /** Removes a key that is no longer in any index. */
    method Forget(key: Key)
      requires key in entries && cfg.Valid() && |entries| <= cfg.maxBuckets
      requires Indexed(entries - {key}, credit, debt, nextOrder)
      requires Recent(recency, entries)
      modifies this`entries, this`recency
      ensures Valid() && entries == old(entries) - {key} && |entries| == old(|entries|) - 1
      ensures recency == Keep(old(recency), old(entries.Keys) - {key})
      ensures Project(entries) == Project(old(entries)) - {key}
    {
      hide Indexed, Recent, Keep, Project;
      ForgettingShrinks(entries, key);
      ForgettingKeepsOrder(entries, recency, key);
      recency := Keep(recency, entries.Keys - {key});
      entries := entries - {key};
    }

    /** Settles a bucket that is in no index, then links and stores it as the most recent one. */
    method Store(key: Key, b: Bucket, access: Access) returns (r: Result<(), nat>)
      requires cfg.Valid() && cfg.rate >= 1
      requires Indexed(entries - {key}, credit, debt, nextOrder) && Recent(recency, entries - {key})
      requires |entries| + (if key in entries then 0 else 1) <= cfg.maxBuckets
      modifies this`entries, this`credit, this`debt, this`nextOrder, this`recency
      ensures Valid() && key in entries
      ensures recency == old(recency) + [key]
      ensures var (b', answer) := Settle(cfg.Limit(), b, access);
              Project(entries) == Project(old(entries))[key := b'] && r == answer
    {
      hide Indexed, Recent, Project;
      var (settled, answer) := Settle(cfg.Limit(), b, access);
      r := answer;
      var e := Link(Entry(settled, 0, key, false));
      LinkingKeepsIndex(old(entries) - {key}, old(credit), old(debt), old(nextOrder), e);
      LinkingKeepsOrder(old(entries) - {key}, old(credit), old(debt), old(nextOrder), recency, e);
      ReplacingIsRelinking(entries, e);
      entries := entries[key := e];
      recency := recency + [key];
    }

    /** An access of a key that has a bucket: unlinks it, settles it and links it as the latest. */
    method Revise(key: Key, access: Access, now: real) returns (r: Result<(), nat>)
      requires Valid() && cfg.rate >= 1 && key in entries
      modifies this`entries, this`credit, this`debt, this`nextOrder, this`recency
      ensures Valid() && key in entries && (View(), r) == AccessNext(cfg, old(View()), key, access, now)
    {
      hide Indexed, Recent, Project, Keep, Evicted, Refill, Settle, Victim;
      var e := entries[key];
      ViewKeys(entries);
      ProjectAt(entries, key);
      UnlinkingKeepsIndex(entries, credit, debt, nextOrder, key);
      ForgettingKeepsOrder(entries, recency, key);
      Unlink(e);
      recency := Keep(recency, entries.Keys - {key});
      r := Store(key, Refill(cfg.Limit(), e.bucket, now).(lastAccess := now), access);
    }

    /** Evicts one entry if the limiter is full. */
    method MakeRoom()
      requires Valid()
      modifies this`entries, this`credit, this`debt, this`recency, this`forgiven
      ensures Valid() && |entries| < cfg.maxBuckets && entries.Keys <= old(entries.Keys)
      ensures View() == if old(|entries|) < cfg.maxBuckets then old(View()) else Evicted(old(View()))
      ensures forgiven > old(forgiven) <==> old(|entries|) >= cfg.maxBuckets && old(credit) == map[]
    {
      hide Indexed, Recent, Project, Evicted;
      if |entries| >= cfg.maxBuckets {
        var forgave := EvictOne();
        if forgave {
          forgiven := forgiven + 1;
        }
      }
    }

    /** An access of a new key: makes room if there is none, then settles a full bucket and links it as the latest. */
    method Open(key: Key, access: Access, now: real) returns (r: Result<(), nat>)
      requires Valid() && cfg.rate >= 1 && key !in entries
      modifies this
      ensures Valid() && key in entries && (View(), r) == AccessNext(cfg, old(View()), key, access, now)
      ensures forgiven > old(forgiven) <==> old(|entries|) >= cfg.maxBuckets && old(credit) == map[]
    {
      hide Indexed, Recent, Project, Keep, Evicted, Refill, Settle, AccessNext;
      ViewKeys(entries);
      NewKeySettles(cfg, View(), key, access, now);
      MakeRoom();
      NothingToForget(entries, recency, key);
      ViewKeys(entries);
      r := Store(key, Full(cfg.Limit(), now), access);
    }

    /** One probe or charge of one key: the recency list ends with that key, and both indexes stay exact. */
    method Access(key: Key, access: Access, now: real) returns (r: Result<(), nat>)
      requires Valid()
      modifies this
      ensures Valid() && (View(), r) == AccessNext(cfg, old(View()), key, access, now)
      ensures forgiven > old(forgiven) <==>
                cfg.rate != 0 && key !in old(entries) && old(|entries|) >= cfg.maxBuckets && old(credit) == map[]
      ensures cfg.rate == 0 ==> r.Ok? && View() == old(View())
      ensures cfg.rate != 0 ==>
                var l := cfg.Limit();
                var balance := if key in old(entries) then Refill(l, old(entries)[key].bucket, now).balance else l.capacity;
                && (r.Ok? <==> balance > 0.0)
                && (r.Err? ==> r.error == RetryAfter(l, balance))
                && key in entries && entries[key].bucket.updated == entries[key].bucket.lastAccess == now
                && entries[key].bucket.balance ==
                     if r.Err? || access.Probe? then balance
                     else balance - (if access.count == 0 then 1 else access.count) as real
    {
      hide Indexed, Recent, Project, AccessNext, Refill, RetryAfter;
      if cfg.rate == 0 {
        AccessDisabled(cfg, View(), key, access, now);
        return Ok(());
      }
      AccessSettles(cfg, View(), key, access, now);
      ViewKeys(entries);
      if key in entries {
        ProjectAt(entries, key);
        r := Revise(key, access, now);
      } else {
        r := Open(key, access, now);
      }
      ProjectAt(entries, key);
    }

    /** Refills one entry in place and moves it to the credit index if that repaid its debt. */
    method Revisit(key: Key, now: real)
      requires Valid() && cfg.rate >= 1 && key in entries
      modifies this`entries, this`credit, this`debt
      ensures Valid() && entries == old(entries)[key := Revisited(cfg.Limit(), old(entries)[key], now)]
      ensures entries.Keys == old(entries.Keys)
    {
      hide Indexed, Recent, Project, Keep, Refill;
      var e := entries[key];
      var b := Refill(cfg.Limit(), e.bucket, now);
      FlagIsSign(entries, credit, debt, nextOrder, key);
      if e.bucket.balance >= 0.0 {
        RefillNeverLosesCredit(cfg.Limit(), e.bucket, now);
      }
      OrdersAreDistinct(entries, credit, debt, nextOrder, recency, key);
      ghost var revisited := Revisited(cfg.Limit(), e, now);
      RefillingKeepsIndex(entries, credit, debt, nextOrder, revisited);
      RefillingKeepsOrder(entries, recency, revisited);
      ReplacingIsRelinking(entries, revisited);
      if e.indebted && b.balance >= 0.0 {
        debt := debt - {e.order};
        credit := credit[e.order := key];
        entries := entries[key := e.(bucket := b, indebted := false)];
      } else {
        entries := entries[key := e.(bucket := b)];
      }
    }

    /** First pass of the sweep: refills every entry and collects the idle ones. */
    method RevisitAll(now: real) returns (idle: set<Key>)
      requires Valid() && cfg.rate >= 1
      modifies this`entries, this`credit, this`debt
      ensures Valid() && entries.Keys == old(entries.Keys)
      ensures forall k :: k in entries ==> entries[k] == Revisited(cfg.Limit(), old(entries)[k], now)
      ensures forall k :: k in idle <==> k in entries && Idle(cfg.Limit(), old(entries)[k].bucket, now)
    {
      hide Indexed, Recent, Limit.Accrued;
      var l := cfg.Limit();
      idle := {};
      var todo := entries.Keys;
      while todo != {}
        invariant Valid() && entries.Keys == old(entries.Keys) && todo <= entries.Keys
        invariant forall k :: k in todo ==> entries[k] == old(entries)[k]
        invariant forall k :: k in entries && k !in todo ==> entries[k] == Revisited(l, old(entries)[k], now)
        invariant forall k :: k in idle <==> k in entries && k !in todo && Idle(l, old(entries)[k].bucket, now)
        decreases todo
      {
        var key :| key in todo;
        Revisit(key, now);
        var b := entries[key].bucket;
        if b.balance >= 0.0 && now - b.lastAccess >= IDLE_EVICTION {
          idle := idle + {key};
        }
        todo := todo - {key};
      }
    }

    method ForgetOne(key: Key)
      requires Valid() && key in entries
      modifies this`entries, this`credit, this`debt, this`recency
      ensures Valid() && entries == old(entries) - {key} && |entries| == old(|entries|) - 1
      ensures entries.Keys == old(entries.Keys) - {key}
      ensures recency == Keep(old(recency), old(entries.Keys) - {key})
    {
      hide Indexed, Recent, Keep, Project;
      UnlinkingKeepsIndex(entries, credit, debt, nextOrder, key);
      Unlink(entries[key]);
      Forget(key);
    }

    /** Second pass of the sweep: unlinks and removes the given entries. */
    method ForgetAll(idle: set<Key>)
      requires Valid() && idle <= entries.Keys
      modifies this`entries, this`credit, this`debt, this`recency
      ensures Valid() && entries == old(entries) - idle && |entries| + |idle| == old(|entries|)
      ensures recency == Keep(old(recency), entries.Keys)
    {
      hide Indexed, Recent, Keep, Project;
      var left := idle;
      KeepEverything(entries, recency);
      while left != {}
        invariant Valid() && left <= idle && entries == old(entries) - (idle - left)
        invariant recency == Keep(old(recency), entries.Keys)
        invariant |entries| + |idle| == old(|entries|) + |left|
        decreases left
      {
        var key :| key in left;
        KeepTwice(old(recency), entries.Keys, entries.Keys - {key});
        RemovingOneMore(old(entries), idle, left, key);
        ForgetOne(key);
        left := left - {key};
      }
    }

    /** Evicts the entries that are out of debt and have been idle for the eviction period. */
    method SweepIdle(now: real) returns (count: nat)
      requires Valid()
      modifies this
      ensures Valid() && View() == SweepNext(cfg, old(View()), now)
      ensures count == old(|entries|) - |entries| && entries.Keys <= old(entries.Keys)
      ensures cfg.rate == 0 ==> entries == old(entries)
      ensures cfg.rate != 0 ==> forall k :: k in old(entries) ==>
                var b := old(entries)[k].bucket;
                var refilled := Refill(cfg.Limit(), b, now);
                if refilled.balance >= 0.0 && now - b.lastAccess >= 900.0 then k !in entries
                else k in entries && entries[k].bucket == refilled && entries[k].order == old(entries)[k].order
    {
      hide Indexed, Recent, Project, Keep, Refill, SweepNext;
      if cfg.rate == 0 {
        SweepDisabled(cfg, View(), now);
        return 0;
      }
      var idle := RevisitAll(now);
      ghost var swept := entries;
      count := |idle|;
      assert |swept.Keys| == |old(entries).Keys|;
      ForgetAll(idle);
      SweepRefines(cfg, old(entries), swept, entries, idle, old(View()), now);
    }
  }

  lemma NewKeySettles(cfg: Settings, s: Simple, key: Key, access: Access, now: real)
    requires cfg.Valid() && cfg.rate >= 1 && key !in s.buckets
    ensures var room := if |s.buckets| < cfg.maxBuckets then s else Evicted(s);
            var (b, r) := Settle(cfg.Limit(), Full(cfg.Limit(), now), access);
            AccessNext(cfg, s, key, access, now) ==
              (Simple(room.buckets[key := b], Keep(room.recency, room.buckets.Keys - {key}) + [key], room.forgiven), r)
  {
    hide Evicted, Settle, Keep;
  }

  lemma AccessDisabled(cfg: Settings, s: Simple, key: Key, access: Access, now: real)
    requires cfg.Valid() && cfg.rate == 0
    ensures AccessNext(cfg, s, key, access, now) == (s, Ok(()))
  {
  }

  /** The bucket an access leaves behind and the answer it gives. */
  lemma AccessSettles(cfg: Settings, s: Simple, key: Key, access: Access, now: real)
    requires cfg.Valid() && cfg.rate >= 1
    ensures var l, (s', r) := cfg.Limit(), AccessNext(cfg, s, key, access, now);
            var balance := if key in s.buckets then Refill(l, s.buckets[key], now).balance else l.capacity;
            && (r.Ok? <==> balance > 0.0) && (r.Err? ==> r.error == RetryAfter(l, balance))
            && key in s'.buckets && s'.buckets[key].updated == s'.buckets[key].lastAccess == now
            && s'.buckets[key].balance ==
                 if r.Err? || access.Probe? then balance
                 else balance - (if access.count == 0 then 1 else access.count) as real
  {
    hide Limit.Accrued, RetryAfter;
    var l := cfg.Limit();
    ChargesAreExact(l, if key in s.buckets then Refill(l, s.buckets[key], now).(lastAccess := now) else Full(l, now), access);
  }

  lemma RemovingOneMore(entries: map<Key, Entry>, idle: set<Key>, left: set<Key>, key: Key)
    requires key in left && left <= idle <= entries.Keys
    ensures entries - (idle - left) - {key} == entries - (idle - (left - {key}))
    ensures key in entries - (idle - left) && |left - {key}| == |left| - 1
  {
  }

  lemma SweepDisabled(cfg: Settings, s: Simple, now: real)
    requires cfg.Valid() && cfg.rate == 0
    ensures SweepNext(cfg, s, now) == s
  {
  }

  lemma KeepEverything(entries: map<Key, Entry>, recency: seq<Key>)
    requires Recent(recency, entries)
    ensures Keep(recency, entries.Keys) == recency
  {
    KeepAll(recency, entries.Keys);
  }

  lemma ProjectAt(entries: map<Key, Entry>, k: Key)
    requires k in entries
    ensures k in Project(entries) && Project(entries)[k] == entries[k].bucket
  {
  }
}
