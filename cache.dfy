/**
 * The in-memory cache of app/internal/cache/cache.go: a map from key to value,
 * a list of keys that decides eviction, and a capacity. The mutex is left out
 * (every method runs atomically here).
 */
module Cache {
  import opened Wrappers

  /** The cache's two collections. */
  datatype Contents<K, V> = Contents(entries: map<K, V>, list: seq<K>)

  // ---------------------------------------------------------------------
  // As written: Add never records the key; only Get appends to the list.

  /** Add does not index an empty list: the key is present, there is room, or
      the list has a head to evict. Otherwise line 30 panics. */
  predicate CanAdd<K, V>(c: Contents<K, V>, capacity: int, key: K)
  {
    key in c.entries || |c.entries| < capacity || |c.list| > 0
  }

  /** The contents after Add, as written. */
  function Added<K, V>(c: Contents<K, V>, capacity: int, key: K, value: V): (r: Contents<K, V>)
    requires CanAdd(c, capacity, key)
    ensures key in r.entries
    ensures r.entries[key] == if key in c.entries then c.entries[key] else value
    ensures r.entries.Keys <= c.entries.Keys + {key}
    ensures forall k :: k in r.entries && k != key ==> r.entries[k] == c.entries[k]
    ensures r.list == c.list || (|c.list| > 0 && r.list == c.list[1..])
    ensures key in c.entries ==> r == c
    ensures key !in c.entries && |c.entries| < capacity ==> r == Contents(c.entries[key := value], c.list)
    ensures key !in c.entries && |c.entries| >= capacity ==>
              r.entries.Keys == c.entries.Keys - {c.list[0]} + {key} && r.list == c.list[1..]
  {
    if key in c.entries then c
    else if |c.entries| >= capacity then
      Contents((c.entries - {c.list[0]})[key := value], c.list[1..])
    else
      Contents(c.entries[key := value], c.list)
  }

  /** The first value written for a key stays. */
  lemma FirstWriteWins<K, V>(c: Contents<K, V>, capacity: int, key: K, v1: V, v2: V)
    requires CanAdd(c, capacity, key)
    ensures CanAdd(Added(c, capacity, key, v1), capacity, key)
    ensures Added(Added(c, capacity, key, v1), capacity, key, v2) == Added(c, capacity, key, v1)
  {
  }

  /** A lookup of a key never written does not make room for it: the list
      head is a key the map lacks, so the map grows past its capacity. */
  lemma AsWrittenGrowsPastCapacity(v: int)
    ensures var c := Contents(map[1 := v], [5]);
            CanAdd(c, 1, 2) && |Added(c, 1, 2, v).entries| == 2
  {
    var c := Contents(map[1 := v], [5]);
    assert (c.entries - {5})[2 := v] == map[1 := v, 2 := v];
    assert map[1 := v, 2 := v].Keys == {1, 2};
  }

  /** Without a Get in between, the second distinct Add to a cache of
      capacity 1 indexes an empty list. */
  lemma AsWrittenSecondAddPanics<K, V>(k1: K, k2: K, v: V)
    requires k1 != k2
    ensures CanAdd<K, V>(Contents(map[], []), 1, k1)
    ensures !CanAdd(Added(Contents(map[], []), 1, k1, v), 1, k2)
  {
    assert Added(Contents(map[], []), 1, k1, v).entries == map[k1 := v];
  }

  /** The eviction scenario of cache_test.go:18-33 (capacity 2, then Add of
      three distinct keys): as written, the third Add indexes an empty
      list. */
  lemma AsWrittenEvictionScenarioPanics<K, V>(a: K, b: K, c: K, va: V, vb: V)
    requires a != b && b != c && a != c
    ensures var empty: Contents<K, V> := Contents(map[], []);
            CanAdd(empty, 2, a) && CanAdd(Added(empty, 2, a, va), 2, b) &&
            !CanAdd(Added(Added(empty, 2, a, va), 2, b, vb), 2, c)
  {
    var two := Added(Added(Contents(map[], []), 2, a, va), 2, b, vb);
    assert two.entries.Keys == {a, b};
  }

  /** The same scenario with the corrected cache: the third Add evicts the
      first key, as the test expects. */
  lemma EvictionScenarioAsIntended<K, V>(a: K, b: K, c: K, va: V, vb: V, vc: V)
    requires a != b && b != c && a != c
    ensures var one := Inserted(Contents(map[], []), 2, a, va);
            Bounded(one, 2) && Bounded(Inserted(one, 2, b, vb), 2) &&
            Inserted(Inserted(one, 2, b, vb), 2, c, vc) == Contents(map[b := vb, c := vc], [b, c])
  {
    var one := Inserted(Contents(map[], []), 2, a, va);
    var both := Inserted(one, 2, b, vb);
    assert both == Contents(map[a := va, b := vb], [a, b]);
    assert both.entries.Keys == {a, b};
    assert (both.entries - {a})[c := vc] == map[b := vb, c := vc];
  }

  class Cache<K(==), V> {
    var entries: map<K, V>
    var list: seq<K>
    const capacity: int

    function Snapshot(): Contents<K, V>
      reads this
    {
      Contents(entries, list)
    }

    constructor New(capacity: int)
      ensures Snapshot() == Contents(map[], []) && this.capacity == capacity
    {
      entries := map[];
      list := [];
      this.capacity := capacity;
    }

    method Add(key: K, value: V)
      requires CanAdd(Snapshot(), capacity, key)
      modifies this
      ensures Snapshot() == Added(old(Snapshot()), capacity, key, value)
    {
      if key in entries {
        return;
      }
      if |entries| >= capacity {
        entries := entries - {list[0]};
        list := list[1..];
      }
      entries := entries[key := value];
    }

    /** Get records every lookup, hit or miss, at the end of the list. */
    method Get(key: K) returns (r: Option<V>)
      modifies this
      ensures r == if key in old(entries) then Some(old(entries)[key]) else None
      ensures entries == old(entries) && list == old(list) + [key]
    {
      r := if key in entries then Some(entries[key]) else None;
      list := list + [key];
    }

    method Clear()
      modifies this
      ensures Snapshot() == Contents(map[], [])
    {
      entries := map[];
      list := [];
    }
  }

  // ---------------------------------------------------------------------
  // As intended: a bounded first-in first-out cache. Add records each new
  // key; eviction drops the oldest one; lookups change nothing.

  predicate Distinct<K(==)>(s: seq<K>)
  {
    forall i, j :: 0 <= i < j < |s| ==> s[i] != s[j]
  }

  /** The list holds exactly the cached keys, once each, oldest first, and the
      map stays within the capacity. */
  predicate Bounded<K(==), V>(c: Contents<K, V>, capacity: int)
  {
    1 <= capacity && |c.entries| <= capacity && Distinct(c.list) &&
    (forall k :: k in c.list ==> k in c.entries) && (forall k :: k in c.entries ==> k in c.list)
  }

  /** The contents after Add, as intended. */
  function Inserted<K(==), V>(c: Contents<K, V>, capacity: int, key: K, value: V): Contents<K, V>
    requires Bounded(c, capacity)
  {
    if key in c.entries then c
    else if |c.entries| >= capacity then
      Contents((c.entries - {c.list[0]})[key := value], c.list[1..] + [key])
    else
      Contents(c.entries[key := value], c.list + [key])
  }

  /** Eviction: a new key on a full cache replaces the oldest key. */
  lemma {:induction false} EvictKeepsBounded<K, V>(c: Contents<K, V>, capacity: int, key: K, value: V)
    requires Bounded(c, capacity) && key !in c.entries && |c.entries| >= capacity
    ensures var r := Inserted(c, capacity, key, value);
            Bounded(r, capacity) && r.entries.Keys == c.entries.Keys - {c.list[0]} + {key}
  {
    var r := Inserted(c, capacity, key, value);
    var head := c.list[0];
    assert head in c.entries by {
      var k :| k in c.entries;
      assert k in c.list;
    }
    var m := c.entries - {head};
    assert m.Keys == c.entries.Keys - {head};
    assert |m.Keys| == |c.entries.Keys| - 1;
    assert r.entries == m[key := value];
    assert r.entries.Keys == m.Keys + {key};
    assert |r.entries.Keys| == |m.Keys| + 1;
    forall k | k in r.list
      ensures k in r.entries
    {
      if k != key {
        var i :| 0 <= i < |r.list| && r.list[i] == k;
        assert c.list[i + 1] == k;
        assert k != head;
      }
    }
    forall k | k in r.entries
      ensures k in r.list
    {
      if k != key {
        assert k in c.list && k != head;
        var i :| 0 <= i < |c.list| && c.list[i] == k;
        assert r.list[i - 1] == k;
      }
    }
    forall i, j | 0 <= i < j < |r.list|
      ensures r.list[i] != r.list[j]
    {
      if j == |r.list| - 1 {
        assert r.list[i] == c.list[i + 1];
      } else {
        assert r.list[i] == c.list[i + 1] && r.list[j] == c.list[j + 1];
      }
    }
  }

  /** Below capacity, a new key joins the end of the list. */
  lemma {:induction false} AppendKeepsBounded<K, V>(c: Contents<K, V>, capacity: int, key: K, value: V)
    requires Bounded(c, capacity) && key !in c.entries && |c.entries| < capacity
    ensures var r := Inserted(c, capacity, key, value);
            Bounded(r, capacity) && r.entries.Keys == c.entries.Keys + {key}
  {
    var r := Inserted(c, capacity, key, value);
    assert r.entries.Keys == c.entries.Keys + {key};
    assert |r.entries.Keys| == |c.entries.Keys| + 1;
    forall i, j | 0 <= i < j < |r.list|
      ensures r.list[i] != r.list[j]
    {
      if j == |r.list| - 1 {
        assert r.list[i] == c.list[i];
      } else {
        assert r.list[i] == c.list[i] && r.list[j] == c.list[j];
      }
    }
  }

  /** Add keeps the cache bounded, stores a new key's value, keeps the first
      value of a cached key, and evicts at most the oldest key. */
  lemma {:induction false} InsertedBounded<K, V>(c: Contents<K, V>, capacity: int, key: K, value: V)
    requires Bounded(c, capacity)
    ensures var r := Inserted(c, capacity, key, value);
            Bounded(r, capacity) &&
            key in r.entries &&
            r.entries[key] == (if key in c.entries then c.entries[key] else value) &&
            (key !in c.entries && |c.entries| >= capacity ==>
               r.entries.Keys == c.entries.Keys - {c.list[0]} + {key}) &&
            (key in c.entries || |c.entries| < capacity ==>
               r.entries.Keys == c.entries.Keys + {key})
  {
    if key !in c.entries {
      if |c.entries| >= capacity {
        EvictKeepsBounded(c, capacity, key, value);
      } else {
        AppendKeepsBounded(c, capacity, key, value);
      }
    }
  }

  /** A bounded cache can always take a key: Add as intended never panics. */
  lemma BoundedCanAdd<K, V>(c: Contents<K, V>, capacity: int, key: K)
    requires Bounded(c, capacity)
    ensures CanAdd(c, capacity, key)
  {
    if key !in c.entries && |c.entries| >= capacity {
      var k :| k in c.entries;
      assert k in c.list;
    }
  }

  class BoundedCache<K(==), V> {
    var entries: map<K, V>
    var list: seq<K>
    const capacity: int

    function Snapshot(): Contents<K, V>
      reads this
    {
      Contents(entries, list)
    }

    predicate Valid()
      reads this
    {
      Bounded(Snapshot(), capacity)
    }

    constructor New(capacity: int)
      requires capacity >= 1
      ensures Valid() && Snapshot() == Contents(map[], []) && this.capacity == capacity
    {
      entries := map[];
      list := [];
      this.capacity := capacity;
    }

    method Add(key: K, value: V)
      requires Valid()
      modifies this
      ensures Valid()
      ensures Snapshot() == Inserted(old(Snapshot()), capacity, key, value)
    {
      InsertedBounded(Snapshot(), capacity, key, value);
      if key in entries {
        return;
      }
      if |entries| >= capacity {
        entries := entries - {list[0]};
        list := list[1..];
      }
      entries := entries[key := value];
      list := list + [key];
    }

    function Get(key: K): (r: Option<V>)
      reads this
      ensures r.Some? <==> key in entries
      ensures r.Some? ==> r.value == entries[key]
    {
      if key in entries then Some(entries[key]) else None
    }

    method Clear()
      requires Valid()
      modifies this
      ensures Valid() && Snapshot() == Contents(map[], [])
    {
      entries := map[];
      list := [];
    }
  }
}
