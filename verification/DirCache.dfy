/** The cache of directory listings (pkg/suggestion/filewalk.go): a map and a list of its keys, most recently used
    first. Times are instants passed in. */
module DirCache {
  import opened Basics
  import opened Wrappers
  import opened Slices

  type Key = string

  const MAX_ENTRIES: nat := 20
  const TTL: nat := 60

  datatype Entry<V> = Entry(value: V, expiration: int)

  datatype Set<V> = Set(value: V, time: int)

  /** Keys earlier in the list were used later. */
  ghost predicate ByLastUse(lru: seq<Key>, lastUse: map<Key, nat>, clock: nat) {
    && (forall k :: k in lru ==> k in lastUse && lastUse[k] < clock)
    && (forall i, j :: 0 <= i < j < |lru| ==> lastUse[lru[i]] > lastUse[lru[j]])
  }

  class Cache<V(==)> {
    var entries: map<Key, Entry<V>>
    var lru: seq<Key>
    ghost var lastSet: map<Key, Set<V>> // the latest value set for every key there ever was
    ghost var lastUse: map<Key, nat>    // when a key was last set or found, counting uses
    ghost var clock: nat

    constructor ()
      ensures Valid() && entries == map[]
    {
      entries, lru := map[], [];
      lastSet, lastUse, clock := map[], map[], 0;
    }

    /** The list is a permutation of the keys in order of use, is never too long, and every entry is the last one
        set for its key. */
    ghost predicate Valid()
      reads this
    {
      && NoDups(lru) && (forall k :: k in lru <==> k in entries) && |lru| <= MAX_ENTRIES
      && ByLastUse(lru, lastUse, clock)
      && (forall k :: k in entries ==>
            k in lastSet && entries[k] == Entry(lastSet[k].value, lastSet[k].time + TTL))
    }

    /** An entry leaves the map and the list. */
    method Drop(key: Key)
      requires Valid() && key in entries
      modifies `entries, `lru
      ensures Valid() && entries == old(entries) - {key} && lru == Remove(old(lru), key) && |lru| == |old(lru)| - 1
    {
      hide NoDups, ByLastUse;
      RemoveFromSet(lru, key);
      RemoveKeepsOrder(lru, key, lastUse, clock);
      lru := Remove(lru, key);
      entries := entries - {key};
    }

    /** MoveToFront, or PushFront of a new key */
    method Use(key: Key)
      requires NoDups(lru) && ByLastUse(lru, lastUse, clock)
      modifies `lru, `lastUse, `clock
      ensures NoDups(lru) && (forall k :: k in lru <==> k in old(lru) || k == key)
      ensures |lru| == if key in old(lru) then |old(lru)| else |old(lru)| + 1
      ensures ByLastUse(lru, lastUse, clock) && lru != [] && lru[0] == key
      ensures lastUse == old(lastUse)[key := old(clock)] && clock == old(clock) + 1
    {
      RemoveFromSet(lru, key);
      RemoveKeepsOrder(lru, key, lastUse, clock);
      RemoveMissing(lru, key);
      hide Remove;
      lru := [key] + Remove(lru, key);
      lastUse, clock := lastUse[key := clock], clock + 1;
    }

    /** getCache: a hit is the last value set for the key, within its lifetime, and a miss means there is no entry or
        it has expired. */
    method GetCache(key: Key, now: int) returns (r: Option<V>)
      requires Valid()
      modifies this
      ensures Valid() && lastSet == old(lastSet)
      ensures r.Some? <==> key in old(entries) && now <= old(lastSet[key]).time + 60
      ensures r.Some? ==> key in lastSet && r.value == lastSet[key].value && now <= lastSet[key].time + 60
      ensures r.Some? ==>
        entries == old(entries) && lru != [] && lru[0] == key && lastUse == old(lastUse)[key := old(clock)]
      ensures r.None? ==> entries == old(entries) - {key} && lastUse == old(lastUse)
    {
      hide ByLastUse, NoDups;
      if key !in entries {
        return None;
      }
      var entry := entries[key];
      if now > entry.expiration {
        Drop(key);
        return None;
      }
      Use(key);
      return Some(entry.value);
    }

    /** setCache: the new entry is there with a full lifetime, and the only other change is that a full cache loses
        the key that was used longest ago. */
    method SetCache(key: Key, value: V, now: int)
      requires Valid()
      modifies this
      ensures Valid() && lastSet == old(lastSet)[key := Set(value, now)]
      ensures lru != [] && lru[0] == key && lastUse == old(lastUse)[key := old(clock)]
      ensures key in entries && entries[key] == Entry(value, now + 60)
      ensures key in old(entries) || |old(lru)| < 20 ==> entries == old(entries)[key := Entry(value, now + 60)]
      ensures key !in old(entries) && |old(lru)| == 20 ==>
                var oldest := old(lru)[19];
                && entries == (old(entries) - {oldest})[key := Entry(value, now + 60)]
                && forall k :: k in old(entries) && k != oldest ==> old(lastUse)[k] > old(lastUse)[oldest]
    {
      hide ByLastUse, NoDups;
      if key in entries {
        entries := entries[key := Entry(value, now + TTL)];
        lastSet := lastSet[key := Set(value, now)];
        Use(key);
        return;
      }
      EvictIfFull();
      Use(key);
      entries := entries[key := Entry(value, now + TTL)];
      lastSet := lastSet[key := Set(value, now)];
    }

    /** Eviction in setCache */
    method EvictIfFull()
      requires Valid()
      modifies `entries, `lru
      ensures Valid() && |lru| < MAX_ENTRIES
      ensures |old(lru)| < MAX_ENTRIES ==> entries == old(entries) && lru == old(lru)
      ensures |old(lru)| == MAX_ENTRIES ==>
                var oldest := old(lru)[MAX_ENTRIES - 1];
                entries == old(entries) - {oldest} && forall k :: k in old(entries) && k != oldest ==>
                  lastUse[k] > lastUse[oldest]
    {
      hide NoDups;
      if |lru| >= MAX_ENTRIES {
        var oldestKey := lru[|lru| - 1];
        OldestIsLast(lru, lastUse, clock);
        if oldestKey in entries {
          Drop(oldestKey);
        }
      }
    }

    /** cleanCache: exactly the expired entries are dropped. */
    method CleanCache(now: int)
      requires Valid()
      modifies `entries, `lru
      ensures Valid() && entries == map k | k in old(entries) && now <= old(entries)[k].expiration :: old(entries)[k]
    {
      hide ByLastUse, NoDups;
      var todo := entries.Keys;
      while todo != {}
        invariant Valid() && todo <= entries.Keys && entries.Keys <= old(entries).Keys
        invariant forall k :: k in entries ==> entries[k] == old(entries)[k]
        invariant forall k :: k in old(entries) && k !in todo ==> (k in entries <==> now <= old(entries)[k].expiration)
        decreases todo
      {
        var key :| key in todo;
        if now > entries[key].expiration {
          Drop(key);
        }
        todo := todo - {key};
      }
    }

    /** cacheDispose: exactly the entries of a widget are dropped. */
    method CacheDispose(widgetId: string)
      requires Valid()
      modifies `entries, `lru
      ensures Valid()
      ensures forall k :: k in entries <==>
        k in old(entries) && !(|k| > |widgetId| && k[..|widgetId|] == widgetId && k[|widgetId|] == '|')
      ensures forall k :: k in entries ==> entries[k] == old(entries)[k]
    {
      hide ByLastUse, NoDups, HasPrefix;
      var prefix := widgetId + "|";
      var todo := entries.Keys;
      while todo != {}
        invariant Valid() && todo <= entries.Keys && entries.Keys <= old(entries).Keys
        invariant forall k :: k in entries ==> entries[k] == old(entries)[k]
        invariant forall k :: k in old(entries) && k !in todo ==> (k in entries <==> !HasPrefix(k, prefix))
        decreases todo
      {
        var key :| key in todo;
        if HasPrefix(key, prefix) {
          Drop(key);
        }
        todo := todo - {key};
      }
      forall k
        ensures HasPrefix(k, prefix) <==> |k| > |widgetId| && k[..|widgetId|] == widgetId && k[|widgetId|] == '|'
      {
        WidgetPrefix(k, widgetId);
      }
    }
  }

  lemma WidgetPrefix(k: string, widgetId: string)
    ensures HasPrefix(k, widgetId + "|") <==>
      |k| > |widgetId| && k[..|widgetId|] == widgetId && k[|widgetId|] == '|'
  {
    var n := |widgetId|;
    if HasPrefix(k, widgetId + "|") {
      assert k[..n + 1] == widgetId + "|" && k[..n + 1][..n] == k[..n];
      assert k[n] == (widgetId + "|")[n];
    }
    if |k| > n && k[..n] == widgetId && k[n] == '|' {
      assert k[..n + 1] == k[..n] + [k[n]];
    }
  }

  lemma {:induction false} RemoveKeepsOrder(lru: seq<Key>, key: Key, lastUse: map<Key, nat>, clock: nat)
    requires ByLastUse(lru, lastUse, clock)
    ensures ByLastUse(Remove(lru, key), lastUse, clock)
    ensures |Remove(lru, key)| == if key in lru then |lru| - 1 else |lru|
    ensures forall k :: k in Remove(lru, key) ==> k in lru
  {
    if lru != [] {
      hide ByLastUse;
      assert lru == [lru[0]] + lru[1..];
      ByLastUseCons(lru[0], lru[1..], lastUse, clock);
      RemoveKeepsOrder(lru[1..], key, lastUse, clock);
      if lru[0] != key {
        ByLastUseCons(lru[0], Remove(lru[1..], key), lastUse, clock);
      }
    }
  }

  /** A list is in order of use if its rest is and its first key was used after all others. */
  lemma ByLastUseCons(first: Key, rest: seq<Key>, lastUse: map<Key, nat>, clock: nat)
    ensures ByLastUse([first] + rest, lastUse, clock) <==>
      && ByLastUse(rest, lastUse, clock) && first in lastUse && lastUse[first] < clock
      && forall k :: k in rest ==> k in lastUse && lastUse[first] > lastUse[k]
  {
    var lru := [first] + rest;
    assert forall k :: k in lru <==> k == first || k in rest;
    if ByLastUse(lru, lastUse, clock) {
      forall i, j | 0 <= i < j < |rest|
        ensures lastUse[rest[i]] > lastUse[rest[j]]
      {
        assert lastUse[lru[i + 1]] > lastUse[lru[j + 1]];
      }
      forall j | 0 <= j < |rest|
        ensures lastUse[first] > lastUse[rest[j]]
      {
        assert lastUse[lru[0]] > lastUse[lru[j + 1]];
      }
    }
  }

  lemma {:induction false} RemoveMissing(lru: seq<Key>, key: Key)
    ensures key !in lru ==> Remove(lru, key) == lru
  {
    if lru != [] {
      RemoveMissing(lru[1..], key);
    }
  }

  lemma OldestIsLast(lru: seq<Key>, lastUse: map<Key, nat>, clock: nat)
    requires ByLastUse(lru, lastUse, clock) && lru != []
    ensures lru[|lru| - 1] in lastUse
    ensures forall k :: k in lru && k != lru[|lru| - 1] ==> k in lastUse && lastUse[k] > lastUse[lru[|lru| - 1]]
  {
  }
}
