/** Recency lists: sequences of keys from the least to the most recently used. */
module Recency {

  /** The keys of the list that are in the set, in the same order. */
  function Keep<K(==, !new)>(keys: seq<K>, kept: set<K>): (r: seq<K>)
    ensures forall k :: k in r <==> k in keys && k in kept
  {
    if keys == [] then [] else (if keys[0] in kept then [keys[0]] else []) + Keep(keys[1..], kept)
  }

  lemma {:induction false} KeepTwice<K(!new)>(keys: seq<K>, some: set<K>, fewer: set<K>)
    requires fewer <= some
    ensures Keep(Keep(keys, some), fewer) == Keep(keys, fewer)
  {
    if keys != [] {
      KeepTwice(keys[1..], some, fewer);
      var rest := Keep(keys[1..], some);
      if keys[0] in some {
        assert Keep(keys, some)[1..] == rest;
      } else {
        assert Keep(keys, some) == rest;
      }
    }
  }

  lemma {:induction false} KeepAll<K(!new)>(keys: seq<K>, kept: set<K>)
    requires forall k :: k in keys ==> k in kept
    ensures Keep(keys, kept) == keys
  {
    if keys != [] {
      KeepAll(keys[1..], kept);
    }
  }

  ghost predicate Sorted<K(!new)>(keys: seq<K>, before: (K, K) -> bool) {
    forall i, j :: 0 <= i < j < |keys| ==> before(keys[i], keys[j])
  }

  /** Dropping keys keeps whatever relation held between earlier and later ones. */
  lemma {:induction false} KeepSorted<K(!new)>(keys: seq<K>, kept: set<K>, before: (K, K) -> bool)
    requires Sorted(keys, before)
    ensures Sorted(Keep(keys, kept), before)
  {
    if keys != [] {
      var rest := Keep(keys[1..], kept);
      KeepSorted(keys[1..], kept, before);
      forall k | k in rest
        ensures before(keys[0], k)
      {
        var i :| 0 <= i < |keys[1..]| && keys[1..][i] == k;
        assert keys[i + 1] == k;
      }
    }
  }
}
