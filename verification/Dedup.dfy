/** Batch deduplication at the receiver: a set of batch keys that is emptied when it is full. */
module Dedup {

  /** Whether the key is a duplicate, and the set of remembered keys afterwards. */
  function Remember(seen: set<nat>, maxEntries: nat, key: nat): (bool, set<nat>) {
    if key in seen then (true, seen)
    else (false, (if |seen| >= maxEntries then {} else seen) + {key})
  }

  class Deduplicator {
    var seen: set<nat>
    const maxEntries: nat

    constructor (maxEntries: nat)
      ensures seen == {} && this.maxEntries == (if maxEntries >= 1 then maxEntries else 1)
    {
      seen := {};
      this.maxEntries := if maxEntries >= 1 then maxEntries else 1;
    }

    method CheckAndRemember(key: nat) returns (duplicate: bool)
      modifies this
      ensures (duplicate, seen) == Remember(old(seen), maxEntries, key)
    {
      if key in seen {
        return true;
      }
      if |seen| >= maxEntries {
        seen := {};
      }
      seen := seen + {key};
      return false;
    }
  }

  // ---------------------------------------------------------------- whole histories

  /** After a sequence of keys, from an empty set: the remembered keys, and the keys called new, in order. */
  function History(maxEntries: nat, keys: seq<nat>): (set<nat>, seq<nat>) {
    if keys == [] then ({}, [])
    else
      var (seen, novel) := History(maxEntries, keys[..|keys| - 1]);
      var key := keys[|keys| - 1];
      var (duplicate, seen') := Remember(seen, maxEntries, key);
      (seen', if duplicate then novel else novel + [key])
  }

  function ToSet(keys: seq<nat>): set<nat> { set k | k in keys }

  /** How many of n keys called new are still remembered. */
  function Kept(n: nat, maxEntries: nat): nat
    requires maxEntries >= 1
  {
    if n == 0 then 0 else (n - 1) % maxEntries + 1
  }

  lemma {:induction false} ProductsApart(a: int, b: int, d: int)
    requires a < b && d > 0
    ensures b * d >= a * d + d
    decreases b - a
  {
    assert b * d == (b - 1) * d + d;
    if a < b - 1 {
      ProductsApart(a, b - 1, d);
    }
  }

  lemma RemainderUnique(n: int, q: int, r: int, d: int)
    requires d > 0 && n == q * d + r && 0 <= r < d
    ensures n % d == r
  {
    var q', r' := n / d, n % d;
    assert n == q' * d + r';
    if q < q' { ProductsApart(q, q', d); }
    if q' < q { ProductsApart(q', q, d); }
  }

  lemma KeptNext(n: nat, maxEntries: nat)
    requires maxEntries >= 1
    ensures Kept(n, maxEntries) <= maxEntries
    ensures Kept(n + 1, maxEntries) == if Kept(n, maxEntries) == maxEntries then 1 else Kept(n, maxEntries) + 1
  {
    if n == 0 {
      RemainderUnique(0, 0, 0, maxEntries);
    } else {
      var q, r := (n - 1) / maxEntries, (n - 1) % maxEntries;
      assert n == q * maxEntries + (r + 1);
      if r + 1 == maxEntries {
        assert n == (q + 1) * maxEntries + 0;
        RemainderUnique(n, q + 1, 0, maxEntries);
      } else {
        RemainderUnique(n, q, r + 1, maxEntries);
      }
    }
  }

  lemma ToSetSnoc(keys: seq<nat>, key: nat)
    ensures ToSet(keys + [key]) == ToSet(keys) + {key}
  {}

  lemma KeptNone(maxEntries: nat)
    requires maxEntries >= 1
    ensures Kept(0, maxEntries) == 0
  {}

  /** The set stands for the last so many of the keys called new. */
  ghost predicate Closed(maxEntries: nat, seen: set<nat>, novel: seq<nat>)
    requires maxEntries >= 1
  {
    var kept := Kept(|novel|, maxEntries);
    && kept <= |novel|
    && seen == ToSet(novel[|novel| - kept..])
    && |seen| == kept <= maxEntries
  }

  lemma ClosedNext(maxEntries: nat, seen: set<nat>, novel: seq<nat>, key: nat)
    requires maxEntries >= 1 && Closed(maxEntries, seen, novel) && key !in seen
    ensures Closed(maxEntries, Remember(seen, maxEntries, key).1, novel + [key])
  {
    hide Kept, ToSet;
    var kept := Kept(|novel|, maxEntries);
    KeptNext(|novel|, maxEntries);
    var last := if kept < maxEntries then novel[|novel| - kept..] else [];
    assert (novel + [key])[|novel| - |last|..] == last + [key];
    ToSetSnoc(last, key);
    NoKeys();
  }

  lemma ClosedStart(maxEntries: nat)
    requires maxEntries >= 1
    ensures Closed(maxEntries, {}, [])
  {
    KeptNone(maxEntries);
    NoKeys();
  }

  lemma {:induction false} HistoryIsClosed(maxEntries: nat, keys: seq<nat>)
    requires maxEntries >= 1
    ensures Closed(maxEntries, History(maxEntries, keys).0, History(maxEntries, keys).1)
  {
    hide Closed;
    if keys == [] {
      ClosedStart(maxEntries);
    } else {
      var front, key := keys[..|keys| - 1], keys[|keys| - 1];
      HistoryIsClosed(maxEntries, front);
      var (seen, novel) := History(maxEntries, front);
      if key !in seen {
        ClosedNext(maxEntries, seen, novel, key);
      }
    }
  }

  /**
   * In closed form: of n keys called new, exactly the last ((n - 1) mod max) + 1 are remembered, so
   * the set never outgrows its bound.
   */
  lemma ClosedForm(maxEntries: nat, keys: seq<nat>)
    requires maxEntries >= 1
    ensures var (seen, novel) := History(maxEntries, keys);
            var kept := Kept(|novel|, maxEntries);
            && kept <= |novel|
            && seen == ToSet(novel[|novel| - kept..])
            && |seen| == kept <= maxEntries
  {
    hide History, Kept, ToSet;
    HistoryIsClosed(maxEntries, keys);
  }

  lemma NoKeys()
    ensures ToSet([]) == {}
  {}

  /** Every remembered key really came: a duplicate is only reported for a key seen before. */
  lemma {:induction false} RememberedKeysCame(maxEntries: nat, keys: seq<nat>)
    ensures History(maxEntries, keys).0 <= ToSet(keys)
  {
    if keys != [] {
      RememberedKeysCame(maxEntries, keys[..|keys| - 1]);
    }
  }

  /** An immediate retry is always recognised, and a key never seen before never is. */
  lemma RetryRecognised(maxEntries: nat, keys: seq<nat>, key: nat)
    ensures Remember(History(maxEntries, keys + [key]).0, maxEntries, key).0
    ensures key !in keys ==> !Remember(History(maxEntries, keys).0, maxEntries, key).0
  {
    RememberedKeysCame(maxEntries, keys);
    assert (keys + [key])[..|keys|] == keys;
  }
}
