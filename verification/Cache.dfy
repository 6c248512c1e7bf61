/**
 The introspection cache: answers of the authorization service (the `active` member of
 section 2.2 of RFC 7662) by token digest, with a time to live and a bound on their number.

 The map and the ordered set of the implementation are specified by a map and one recency
 list.  Instants are counted in nanoseconds.
 */
module Caches {
  import opened Common
  import opened Recency

  datatype Digest = Digest(bytes: Bytes)

  datatype Settings = Settings(ttlSecs: nat, maxEntries: nat) {
    predicate Valid() {
      maxEntries >= 1
    }

    function Expiry(now: nat): nat {
      now + ttlSecs * NANOS_PER_SEC
    }
  }

  // ---------------------------------------------------------------- the simple model

  datatype Answer = Answer(active: bool, expiresAt: nat)

  /** Answers by digest, and the same digests from least to most recently touched. */
  datatype Simple = Simple(answers: map<Digest, Answer>, recency: seq<Digest>)

  function Without(s: Simple, d: Digest): Simple {
    Simple(s.answers - {d}, Keep(s.recency, s.answers.Keys - {d}))
  }

  function GetNext(s: Simple, d: Digest, now: nat): (Simple, Option<bool>) {
    if d !in s.answers then (s, None)
    else if now >= s.answers[d].expiresAt then (Without(s, d), None)
    else
      (s.(recency := Keep(s.recency, s.answers.Keys - {d}) + [d]), Some(s.answers[d].active))
  }

  function InsertNext(cfg: Settings, s: Simple, d: Digest, active: bool, now: nat): Simple {
    var room := if d in s.answers || |s.answers| < cfg.maxEntries || s.recency == [] then s else Without(s, s.recency[0]);
    Simple(room.answers[d := Answer(active, cfg.Expiry(now))], Keep(room.recency, room.answers.Keys - {d}) + [d])
  }

  function SweepNext(s: Simple, now: nat): Simple {
    var live := map d | d in s.answers && now < s.answers[d].expiresAt :: s.answers[d];
    Simple(live, Keep(s.recency, live.Keys))
  }

  /** Looking up changes no answer but an expired one of that digest, which it drops; a hit moves the digest to the end. */
  lemma LookupsOnlyDropExpired(s: Simple, d: Digest, now: nat)
    ensures var (s', r) := GetNext(s, d, now);
            && s'.answers == (if d in s.answers && s.answers[d].expiresAt <= now then s.answers - {d} else s.answers)
            && (r.Some? ==> s'.recency != [] && s'.recency[|s'.recency| - 1] == d)
  {
  }

  /** Inserting stores the answer for its time to live, in seconds, and drops another only for room: the least recent one. */
  lemma InsertsDropOnlyForRoom(cfg: Settings, s: Simple, d: Digest, active: bool, now: nat, other: Digest)
    requires other != d
    ensures var s' := InsertNext(cfg, s, d, active, now);
            && d in s'.answers && s'.answers[d] == Answer(active, now + cfg.ttlSecs * 1_000_000_000)
            && s'.recency != [] && s'.recency[|s'.recency| - 1] == d
            && (other in s'.answers ==> other in s.answers && s'.answers[other] == s.answers[other])
            && (other in s.answers && other !in s'.answers <==>
                  other in s.answers && d !in s.answers && |s.answers| >= cfg.maxEntries && s.recency != [] && other == s.recency[0])
  {
    hide Keep;
  }

  // ---------------------------------------------------------------- the implementation

  datatype Entry = Entry(active: bool, expiresAt: nat, lastAccess: nat, order: nat)

  /** An element of the ordered set, compared lexicographically. */
  datatype Stamp = Stamp(lastAccess: nat, order: nat, digest: Digest)

  predicate Below(a: Stamp, b: Stamp) {
    a.lastAccess < b.lastAccess || (a.lastAccess == b.lastAccess && a.order < b.order)
  }

  function StampOf(d: Digest, e: Entry): Stamp {
    Stamp(e.lastAccess, e.order, d)
  }

  function Stamps(entries: map<Digest, Entry>): set<Stamp> {
    set d | d in entries :: StampOf(d, entries[d])
  }

  function Project(entries: map<Digest, Entry>): map<Digest, Answer> {
    map d | d in entries :: Answer(entries[d].active, entries[d].expiresAt)
  }

  predicate Precedes(entries: map<Digest, Entry>, a: Digest, b: Digest) {
    a in entries && b in entries && Below(StampOf(a, entries[a]), StampOf(b, entries[b]))
  }

  /** The list holds exactly the keys of the map, in the order of their stamps. */
  ghost predicate Recent(recency: seq<Digest>, entries: map<Digest, Entry>) {
    && (forall d :: d in recency <==> d in entries)
    && Sorted(recency, (a, b) => Precedes(entries, a, b))
  }

  /** No stamp is ahead of the clock or of the next order. */
  ghost predicate Past(entries: map<Digest, Entry>, clock: nat, nextOrder: nat) {
    forall d :: d in entries ==> entries[d].lastAccess <= clock && entries[d].order < nextOrder
  }

  lemma RemovalKeepsRecent(recency: seq<Digest>, entries: map<Digest, Entry>, d: Digest)
    requires Recent(recency, entries)
    ensures Recent(Keep(recency, entries.Keys - {d}), entries - {d})
  {
    var kept, rest := Keep(recency, entries.Keys - {d}), entries - {d};
    KeepSorted(recency, entries.Keys - {d}, (a, b) => Precedes(entries, a, b));
    forall i, j | 0 <= i < j < |kept|
      ensures Precedes(rest, kept[i], kept[j])
    {
      assert Precedes(entries, kept[i], kept[j]) && kept[i] in kept && kept[j] in kept;
    }
  }

  lemma RemovalProjects(entries: map<Digest, Entry>, d: Digest)
    ensures Project(entries - {d}) == Project(entries) - {d}
    ensures Project(entries).Keys == entries.Keys
  {
  }

  lemma TouchKeepsRecent(recency: seq<Digest>, entries: map<Digest, Entry>, d: Digest, e: Entry, clock: nat)
    requires Recent(recency, entries) && d !in entries && Past(entries, clock, e.order) && clock <= e.lastAccess
    ensures Recent(recency + [d], entries[d := e])
    ensures Project(entries[d := e]) == Project(entries)[d := Answer(e.active, e.expiresAt)]
  {
  }

  lemma StampsGrow(entries: map<Digest, Entry>, d: Digest, e: Entry)
    requires d !in entries
    ensures Stamps(entries[d := e]) == Stamps(entries) + {StampOf(d, e)}
    ensures |entries[d := e]| == |entries| + 1
  {
    var more := entries[d := e];
    assert more.Keys == entries.Keys + {d};
    forall s | s in Stamps(entries)
      ensures s in Stamps(more)
    {
      assert s == StampOf(s.digest, more[s.digest]);
    }
    assert StampOf(d, more[d]) in Stamps(more);
  }

  lemma StampsShrink(entries: map<Digest, Entry>, d: Digest)
    requires d in entries
    ensures Stamps(entries - {d}) == Stamps(entries) - {StampOf(d, entries[d])}
    ensures |entries - {d}| == |entries| - 1
  {
    var rest := entries - {d};
    assert rest.Keys == entries.Keys - {d};
    forall s | s in Stamps(entries) && s.digest != d
      ensures s in Stamps(rest)
    {
      assert s == StampOf(s.digest, rest[s.digest]);
    }
  }

  lemma PastGrows(entries: map<Digest, Entry>, clock: nat, d: Digest, e: Entry)
    requires Past(entries, clock, e.order) && clock <= e.lastAccess
    ensures Past(entries[d := e], e.lastAccess, e.order + 1)
  {
  }

  /** The first key of the list has the least stamp. */
  lemma FirstIsLeast(recency: seq<Digest>, entries: map<Digest, Entry>, least: Stamp)
    requires Recent(recency, entries) && least in Stamps(entries)
    requires forall s :: s in Stamps(entries) ==> s == least || Below(least, s)
    ensures recency != [] && recency[0] == least.digest && least.digest in entries
    ensures least == StampOf(recency[0], entries[recency[0]])
  {
    var i :| 0 <= i < |recency| && recency[i] == least.digest;
    assert recency[0] in recency;
    assert StampOf(recency[0], entries[recency[0]]) in Stamps(entries);
    assert i == 0 || Precedes(entries, recency[0], recency[i]);
  }

  lemma LeastExists(recency: seq<Digest>, entries: map<Digest, Entry>)
    requires Recent(recency, entries) && entries != map[]
    ensures exists s :: s in Stamps(entries) && forall r :: r in Stamps(entries) ==> r == s || Below(s, r)
  {
    var some :| some in entries;
    assert some in recency;
    var first := StampOf(recency[0], entries[recency[0]]);
    assert recency[0] in recency && first in Stamps(entries);
    forall r | r in Stamps(entries)
      ensures r == first || Below(first, r)
    {
      assert r.digest in recency;
      var i :| 0 <= i < |recency| && recency[i] == r.digest;
      assert i == 0 || Precedes(entries, recency[0], recency[i]);
    }
  }

  class IntrospectionCache {
    const cfg: Settings
    var entries: map<Digest, Entry>
    var lru: set<Stamp>
    var nextOrder: nat
    ghost var recency: seq<Digest>
    ghost var clock: nat

    /** The map and the ordered set describe the same entries, and there are not too many. */
    ghost predicate Valid()
      reads this
    {
      && cfg.Valid()
      && lru == Stamps(entries)
      && |entries| <= cfg.maxEntries
      && Recent(recency, entries)
      && Past(entries, clock, nextOrder)
    }

    ghost function View(): Simple
      reads this
    {
      Simple(Project(entries), recency)
    }

    constructor (ttlSecs: nat, maxEntries: nat)
      ensures Valid() && cfg == Settings(ttlSecs, if maxEntries >= 1 then maxEntries else 1)
      ensures View() == Simple(map[], []) && clock == 0
    {
      cfg := Settings(ttlSecs, if maxEntries >= 1 then maxEntries else 1);
      entries, lru, nextOrder, recency, clock := map[], {}, 0, [], 0;
    }

    method Remove(d: Digest)
      requires Valid() && d in entries
      modifies this`entries, this`lru, this`recency
      ensures Valid() && entries == old(entries) - {d} && |entries| == old(|entries|) - 1
      ensures View() == Without(old(View()), d)
    {
      hide Recent, Keep, Stamps, Project, Sorted;
      RemovalKeepsRecent(recency, entries, d);
      RemovalProjects(entries, d);
      StampsShrink(entries, d);
      lru := lru - {StampOf(d, entries[d])};
      recency := Keep(recency, entries.Keys - {d});
      entries := entries - {d};
    }

    method Add(d: Digest, active: bool, expiresAt: nat, now: nat)
      requires Valid() && d !in entries && |entries| < cfg.maxEntries && clock <= now
      modifies this
      ensures Valid() && clock == now
      ensures View() == Simple(old(View()).answers[d := Answer(active, expiresAt)], old(recency) + [d])
    {
      hide Recent, Stamps, Project, Past;
      var e := Entry(active, expiresAt, now, nextOrder);
      TouchKeepsRecent(recency, entries, d, e, clock);
      StampsGrow(entries, d, e);
      PastGrows(entries, clock, d, e);
      nextOrder := nextOrder + 1;
      lru := lru + {StampOf(d, e)};
      entries := entries[d := e];
      recency := recency + [d];
      clock := now;
    }

    method Get(d: Digest, now: nat) returns (r: Option<bool>)
      requires Valid() && clock <= now
      modifies this
      ensures Valid() && clock <= now && (View(), r) == GetNext(old(View()), d, now)
      ensures r.Some? <==> d in old(entries) && now < old(entries)[d].expiresAt
      ensures r.Some? ==> r.value == old(entries)[d].active
    {
      hide Recent, Keep, Stamps, Past, Sorted;
      if d !in entries {
        return None;
      }
      var e := entries[d];
      Remove(d);
      if now >= e.expiresAt {
        return None;
      }
      Add(d, e.active, e.expiresAt, now);
      assert View().answers == old(View()).answers;
      r := Some(e.active);
    }

    method Insert(d: Digest, active: bool, now: nat)
      requires Valid() && clock <= now
      modifies this
      ensures Valid() && clock == now && View() == InsertNext(cfg, old(View()), d, active, now)
    {
      hide Recent, Stamps, Past, Sorted;
      ViewSize(entries);
      if d in entries {
        Remove(d);
        assert View().answers[d := Answer(active, cfg.Expiry(now))] == old(View()).answers[d := Answer(active, cfg.Expiry(now))];
      } else {
        if |entries| >= cfg.maxEntries {
          LeastExists(recency, entries);
          var least :| least in lru && forall r :: r in lru ==> r == least || Below(least, r);
          FirstIsLeast(recency, entries, least);
          Remove(least.digest);
          ViewSize(entries);
        }
        Absent(entries, recency, d);
      }
      Add(d, active, cfg.Expiry(now), now);
    }

    method RemoveAll(expired: set<Digest>)
      requires Valid() && expired <= entries.Keys
      modifies this`entries, this`lru, this`recency
      ensures Valid() && entries == old(entries) - expired && |entries| + |expired| == old(|entries|)
      ensures recency == Keep(old(recency), entries.Keys)
    {
      hide Recent, Keep, Stamps, Past, Project;
      KeepEverything(entries, recency);
      var left := expired;
      while left != {}
        invariant Valid() && left <= expired && entries == old(entries) - (expired - left)
        invariant recency == Keep(old(recency), entries.Keys)
        invariant |entries| + |expired| == old(|entries|) + |left|
        decreases left
      {
        var d :| d in left;
        OneFewer(old(entries), expired, left, d);
        KeepTwice(old(recency), entries.Keys, entries.Keys - {d});
        RemovalProjects(entries, d);
        Remove(d);
        left := left - {d};
      }
    }

    /** Removes exactly the expired entries. */
    method Sweep(now: nat) returns (count: nat)
      requires Valid() && clock <= now
      modifies this`entries, this`lru, this`recency
      ensures Valid() && View() == SweepNext(old(View()), now)
      ensures count == old(|entries|) - |entries| && entries.Keys <= old(entries.Keys)
      ensures forall d :: d in old(entries) ==>
                if now < old(entries)[d].expiresAt then d in entries && entries[d] == old(entries)[d] else d !in entries
    {
      hide Recent, Keep, Stamps, Past, Project, SweepNext;
      var expired := set d | d in entries && now >= entries[d].expiresAt;
      count := |expired|;
      RemoveAll(expired);
      SweepRefines(old(entries), expired, old(View()), now);
    }
  }

  lemma ViewSize(entries: map<Digest, Entry>)
    ensures Project(entries).Keys == entries.Keys && |Project(entries)| == |entries|
  {
  }

  lemma Absent(entries: map<Digest, Entry>, recency: seq<Digest>, d: Digest)
    requires d !in entries && Recent(recency, entries)
    ensures Keep(recency, Project(entries).Keys - {d}) == recency
  {
    KeepAll(recency, Project(entries).Keys - {d});
  }

  lemma KeepEverything(entries: map<Digest, Entry>, recency: seq<Digest>)
    requires Recent(recency, entries)
    ensures Keep(recency, entries.Keys) == recency
  {
    KeepAll(recency, entries.Keys);
  }

  lemma OneFewer(entries: map<Digest, Entry>, expired: set<Digest>, left: set<Digest>, d: Digest)
    requires d in left && left <= expired <= entries.Keys
    ensures var now := entries - (expired - left);
            && d in now && now - {d} == entries - (expired - (left - {d}))
            && (now - {d}).Keys == now.Keys - {d} && |left - {d}| == |left| - 1
  {
  }

  lemma SweepRefines(entries: map<Digest, Entry>, expired: set<Digest>, s: Simple, now: nat)
    requires s.answers == Project(entries)
    requires forall d :: d in expired <==> d in entries && now >= entries[d].expiresAt
    ensures SweepNext(s, now) == Simple(Project(entries - expired), Keep(s.recency, (entries - expired).Keys))
  {
    assert SweepNext(s, now).answers == Project(entries - expired);
    assert SweepNext(s, now).answers.Keys == (entries - expired).Keys;
  }
}
