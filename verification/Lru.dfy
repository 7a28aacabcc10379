/** A bounded cache in order of use, as golang-lru keeps it: a hit moves its entry to the front, a full cache drops the last. */
module Lru {
  import opened Sequences
  import opened Wrappers

  datatype Entry<+K, +V> = Entry(key: K, value: V)

  /** Most recently used first. */
  type Entries<+K, +V> = seq<Entry<K, V>>

  predicate Cached<K(==), V>(entries: Entries<K, V>, key: K) {
    exists i :: 0 <= i < |entries| && entries[i].key == key
  }

  predicate DistinctKeys<K(==), V>(entries: Entries<K, V>) {
    forall i, j | 0 <= i < j < |entries| :: entries[i].key != entries[j].key
  }

  function Find<K(==), V>(entries: Entries<K, V>, key: K): (r: Option<V>)
    ensures r.Some? <==> Cached(entries, key)
    ensures r.Some? ==> exists i :: 0 <= i < |entries| && entries[i] == Entry(key, r.value)
  {
    if entries == [] then None
    else if entries[0].key == key then Some(entries[0].value)
    else
      var rest := Find(entries[1..], key);
      assert forall i | 1 <= i < |entries| :: entries[1..][i - 1] == entries[i];
      assert forall i | 0 <= i < |entries[1..]| :: entries[1..][i] == entries[i + 1];
      rest
  }

  function Without<K(==), V>(entries: Entries<K, V>, key: K): (r: Entries<K, V>)
    ensures forall e | e in r :: e in entries && e.key != key
    ensures forall e | e in entries && e.key != key :: e in r
    ensures |r| <= |entries| && (Cached(entries, key) ==> |r| < |entries|)
    ensures DistinctKeys(entries) ==> DistinctKeys(r)
  {
    if entries == [] then []
    else
      var rest := Without(entries[1..], key);
      assert entries == [entries[0]] + entries[1..];
      if entries[0].key == key then rest
      else
        assert DistinctKeys(entries) ==> forall i | 0 <= i < |rest| :: rest[i] in entries[1..];
        [entries[0]] + rest
  }

  /** A hit makes its entry the most recent one. */
  function Touch<K(==), V>(entries: Entries<K, V>, key: K): Entries<K, V> {
    match Find(entries, key)
    case None => entries
    case Some(value) => [Entry(key, value)] + Without(entries, key)
  }

  /** What adding an entry leaves, and what it evicts. */
  function Add<K(==), V>(entries: Entries<K, V>, max: nat, key: K, value: V): (r: (Entries<K, V>, Option<Entry<K, V>>))
    requires max > 0
  {
    var added := [Entry(key, value)] + Without(entries, key);
    if |added| > max then (added[..|added| - 1], Some(added[|added| - 1])) else (added, None)
  }

  lemma DistinctCons<K, V>(entry: Entry<K, V>, rest: Entries<K, V>)
    requires DistinctKeys(rest) && !Cached(rest, entry.key)
    ensures DistinctKeys([entry] + rest)
  {
  }

  lemma WithoutIsUncached<K, V>(entries: Entries<K, V>, key: K)
    ensures !Cached(Without(entries, key), key)
    ensures !Cached(entries, key) ==> Without(entries, key) == entries
  {
    var r := Without(entries, key);
    assert forall i | 0 <= i < |r| :: r[i] in r;
    if !Cached(entries, key) {
      NothingToRemove(entries, key);
    }
  }

  lemma {:induction false} NothingToRemove<K, V>(entries: Entries<K, V>, key: K)
    requires !Cached(entries, key)
    ensures Without(entries, key) == entries
  {
    if entries != [] {
      NothingToRemove(entries[1..], key);
    }
  }

  lemma {:induction false} WithoutShrinksByOne<K, V>(entries: Entries<K, V>, key: K)
    requires DistinctKeys(entries) && Cached(entries, key)
    ensures |Without(entries, key)| == |entries| - 1
  {
    if entries[0].key == key {
      NothingToRemove(entries[1..], key);
    } else {
      assert Cached(entries[1..], key) by {
        var i :| 0 <= i < |entries| && entries[i].key == key;
        assert entries[1..][i - 1] == entries[i];
      }
      WithoutShrinksByOne(entries[1..], key);
    }
  }

  /** A hit changes the order and nothing else. */
  lemma TouchKeepsEntries<K, V>(entries: Entries<K, V>, key: K)
    requires DistinctKeys(entries)
    ensures DistinctKeys(Touch(entries, key)) && |Touch(entries, key)| == |entries|
    ensures forall e | e in entries :: e in Touch(entries, key)
    ensures forall e | e in Touch(entries, key) :: e in entries
  {
    if Cached(entries, key) {
      var value := Find(entries, key).value;
      WithoutIsUncached(entries, key);
      WithoutShrinksByOne(entries, key);
      DistinctCons(Entry(key, value), Without(entries, key));
      forall e | e in entries
        ensures e in Touch(entries, key)
      {
        if e.key == key {
          SameEntry(entries, e, Entry(key, value));
        }
      }
    }
  }

  lemma SameEntry<K, V>(entries: Entries<K, V>, a: Entry<K, V>, b: Entry<K, V>)
    requires DistinctKeys(entries) && a in entries && b in entries && a.key == b.key
    ensures a == b
  {
    var i :| 0 <= i < |entries| && entries[i] == a;
    var j :| 0 <= j < |entries| && entries[j] == b;
  }

  /** Adding an uncached key keeps the bound and evicts at most one other entry, the least recently used. */
  lemma AddEvictsOldest<K, V>(entries: Entries<K, V>, max: nat, key: K, value: V)
    requires 0 < max && |entries| <= max && DistinctKeys(entries) && !Cached(entries, key)
    ensures var (after, evicted) := Add(entries, max, key, value);
            && DistinctKeys(after) && 0 < |after| <= max
            && after[0] == Entry(key, value)
            && (evicted.None? ==> after == [Entry(key, value)] + entries)
            && (evicted.Some? ==>
                  && |entries| == max && evicted.value == entries[max - 1]
                  && after == [Entry(key, value)] + entries[..max - 1])
  {
    NothingToRemove(entries, key);
    DistinctCons(Entry(key, value), entries);
  }

  lemma {:induction false} WithoutIs<K, V>(entries: Entries<K, V>, i: nat)
    requires i < |entries| && DistinctKeys(entries)
    ensures Without(entries, entries[i].key) == entries[..i] + entries[i + 1..]
  {
    hide DistinctKeys, Cached;
    FirstIsApart(entries);
    if i == 0 {
      NothingToRemove(entries[1..], entries[0].key);
      assert entries[..0] + entries[1..] == entries[1..];
    } else {
      WithoutIs(entries[1..], i - 1);
      assert entries[1..][i - 1] == entries[i];
      WithoutAt(entries, i);
    }
  }

  lemma FirstIsApart<K, V>(entries: Entries<K, V>)
    requires entries != [] && DistinctKeys(entries)
    ensures DistinctKeys(entries[1..]) && !Cached(entries[1..], entries[0].key)
    ensures forall i | 1 <= i < |entries| :: entries[i].key != entries[0].key
  {
  }

  /** A hit moves its entry to the front and leaves the others in their order. */
  lemma TouchMovesToFront<K, V>(entries: Entries<K, V>, i: nat)
    requires i < |entries| && DistinctKeys(entries)
    ensures Touch(entries, entries[i].key) == [entries[i]] + entries[..i] + entries[i + 1..]
  {
    hide Find, Without;
    var key := entries[i].key;
    WithoutIs(entries, i);
    assert Cached(entries, key);
    SameEntry(entries, entries[i], Entry(key, Find(entries, key).value));
    assert [entries[i]] + (entries[..i] + entries[i + 1..]) == [entries[i]] + entries[..i] + entries[i + 1..];
  }

  /** At most n other keys have been used since this one was. */
  predicate Recent<K(==), V>(entries: Entries<K, V>, key: K, n: nat) {
    exists i :: 0 <= i <= n && i < |entries| && entries[i].key == key
  }

  lemma HitIsRecent<K, V>(entries: Entries<K, V>, key: K)
    requires Cached(entries, key)
    ensures Recent(Touch(entries, key), key, 0)
  {
    hide Without;
    assert Touch(entries, key)[0].key == key;
  }

  /** A hit on any key costs the others one place at most. */
  lemma HitKeepsRecent<K, V>(entries: Entries<K, V>, key: K, other: K, n: nat)
    requires DistinctKeys(entries) && Recent(entries, key, n)
    ensures Recent(Touch(entries, other), key, n + 1)
  {
    hide Touch;
    var i :| 0 <= i <= n && i < |entries| && entries[i].key == key;
    if Cached(entries, other) {
      var j :| 0 <= j < |entries| && entries[j].key == other;
      TouchMovesToFront(entries, j);
      var after := Touch(entries, other);
      assert if i < j then after[i + 1] == entries[i] else if i == j then after[0] == entries[i] else after[i] == entries[i];
    } else {
      UncachedIsUntouched(entries, other);
    }
  }

  lemma UncachedIsUntouched<K, V>(entries: Entries<K, V>, key: K)
    requires !Cached(entries, key)
    ensures Touch(entries, key) == entries
  {
  }

  /** So does an addition, and a key that recent is not the one evicted. */
  lemma AddKeepsRecent<K, V>(entries: Entries<K, V>, max: nat, key: K, other: K, value: V, n: nat)
    requires |entries| <= max && DistinctKeys(entries) && !Cached(entries, other) && Recent(entries, key, n) && n + 1 < max
    ensures Recent(Add(entries, max, other, value).0, key, n + 1)
  {
    hide Add;
    var i :| 0 <= i <= n && i < |entries| && entries[i].key == key;
    AddEvictsOldest(entries, max, other, value);
    assert Add(entries, max, other, value).0[i + 1] == entries[i];
  }

  class LruCache<K(==), V> {
    const max: nat
    var entries: Entries<K, V>

    ghost predicate Valid()
      reads this
    {
      0 < max && |entries| <= max && DistinctKeys(entries)
    }

    constructor (max: nat)
      requires max > 0
      ensures Valid() && this.max == max && entries == []
    {
      this.max, entries := max, [];
    }

    method Get(key: K) returns (value: Option<V>)
      requires Valid()
      modifies this
      ensures Valid() && value == Find(old(entries), key) && entries == Touch(old(entries), key)
    {
      TouchKeepsEntries(entries, key);
      value := Find(entries, key);
      if value.Some? {
        entries := [Entry(key, value.value)] + Without(entries, key);
      }
    }

    method Put(key: K, value: V) returns (evicted: Option<Entry<K, V>>)
      requires Valid() && !Cached(entries, key)
      modifies this
      ensures Valid() && (entries, evicted) == Add(old(entries), max, key, value)
    {
      hide Without, DistinctKeys, Cached;
      AddEvictsOldest(entries, max, key, value);
      NothingToRemove(entries, key);
      entries, evicted := [Entry(key, value)] + entries, None;
      if |entries| > max {
        evicted := Some(entries[|entries| - 1]);
        entries := entries[..|entries| - 1];
      }
    }

    method Purge()
      requires Valid()
      modifies this
      ensures Valid() && entries == []
    {
      entries := [];
    }
  }
}
