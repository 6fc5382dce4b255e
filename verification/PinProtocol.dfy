/** The protocol by which threads reach a cache entry (blockstore_cache.go: withLock, getEntryAndPin,
    unpinEntryAndTryDelete), as a state machine. Each step is one critical section of the code: pinning and
    unpinning hold the store lock, working holds the lock of the entry. */
module PinProtocol {
  import opened Wrappers
  import opened FileLayout
  import opened FileParts

  type Thread = nat
  type EntryId = nat

  datatype Key = Key(zoneId: string, name: string)

  /** The unflushed state of an entry, and the database rows of a key. */
  datatype Content = Content(file: StarFile, parts: map<nat, Row>)
  datatype Rows = Rows(header: Option<StarFile>, parts: map<nat, seq<byte>>)

  /** A nil File is content None. */
  datatype Entry = Entry(pinCount: int, lockedBy: Option<Thread>, content: Option<Content>)

  /** Where a thread is in withLock. */
  datatype Pc = Idle | Pinned(key: Key, id: EntryId) | Working(key: Key, id: EntryId) | Released(key: Key, id: EntryId)

  /** `cache` is the map of the store, `heap` every entry ever made, `db` the stored rows of each key. */
  datatype Store = Store(cache: map<Key, EntryId>, heap: map<EntryId, Entry>, db: map<Key, Rows>,
                         threads: map<Thread, Pc>)

  datatype Event =
    | Pin(t: Thread, key: Key, newId: EntryId)
    | Lock(t: Thread)
    | Work(t: Thread, content: Option<Content>, rows: Rows)
    | Unlock(t: Thread)
    | Unpin(t: Thread)

  predicate Holds(pc: Pc, key: Key) {
    !pc.Idle? && pc.key == key
  }

  function Holders(s: Store, key: Key): set<Thread> {
    set t | t in s.threads && Holds(s.threads[t], key)
  }

  /** A step that a thread can take now; the map and the threads only point at entries that exist. */
  predicate Enabled(s: Store, e: Event) {
    && e.t in s.threads
    && match e
       case Pin(t, key, newId) => s.threads[t].Idle? && newId !in s.heap && (key in s.cache ==> s.cache[key] in s.heap)
       case Lock(t) => s.threads[t].Pinned? && s.threads[t].id in s.heap && s.heap[s.threads[t].id].lockedBy.None?
       case Work(t, _, _) => s.threads[t].Working? && s.threads[t].id in s.heap
       case Unlock(t) => s.threads[t].Working? && s.threads[t].id in s.heap
       case Unpin(t) => s.threads[t].Released? && (s.threads[t].key in s.cache ==> s.cache[s.threads[t].key] in s.heap)
  }

  function PinNext(s: Store, t: Thread, key: Key, newId: EntryId): Store
    requires key in s.cache ==> s.cache[key] in s.heap
  {
    if key in s.cache then
      var id := s.cache[key];
      s.(heap := s.heap[id := s.heap[id].(pinCount := s.heap[id].pinCount + 1)],
        threads := s.threads[t := Pinned(key, id)])
    else
      s.(cache := s.cache[key := newId], heap := s.heap[newId := Entry(1, None, None)],
        threads := s.threads[t := Pinned(key, newId)])
  }

  /** unpinEntryAndTryDelete looks the entry up again by its key. */
  function UnpinNext(s: Store, t: Thread): Store
    requires t in s.threads && s.threads[t].Released?
    requires s.threads[t].key in s.cache ==> s.cache[s.threads[t].key] in s.heap
  {
    var key := s.threads[t].key;
    var s1 := s.(threads := s.threads[t := Idle]);
    if key !in s.cache then s1
    else
      var id := s.cache[key];
      var entry := s.heap[id].(pinCount := s.heap[id].pinCount - 1);
      s1.(heap := s.heap[id := entry],
        cache := if entry.pinCount <= 0 && entry.content.None? then s.cache - {key} else s.cache)
  }

  function Next(s: Store, e: Event): Store
    requires Enabled(s, e)
  {
    match e
    case Pin(t, key, newId) => PinNext(s, t, key, newId)
    case Lock(t) =>
      var id := s.threads[t].id;
      s.(heap := s.heap[id := s.heap[id].(lockedBy := Some(t))],
        threads := s.threads[t := Working(s.threads[t].key, id)])
    case Work(t, content, rows) =>
      var id := s.threads[t].id;
      s.(heap := s.heap[id := s.heap[id].(content := content)], db := s.db[s.threads[t].key := rows])
    case Unlock(t) =>
      var id := s.threads[t].id;
      s.(heap := s.heap[id := s.heap[id].(lockedBy := None)], threads := s.threads[t := Released(s.threads[t].key, id)])
    case Unpin(t) => UnpinNext(s, t)
  }

  // ---------------------------------------------------------------- the invariant

  /** Every held entry is the one in the map for its key. */
  ghost predicate HeldIsCached(s: Store) {
    && (forall t :: t in s.threads && !s.threads[t].Idle? ==>
        s.threads[t].key in s.cache && s.cache[s.threads[t].key] == s.threads[t].id)
    && (forall k :: k in s.cache ==> s.cache[k] in s.heap)
    && (forall k, k' :: k in s.cache && k' in s.cache && s.cache[k] == s.cache[k'] ==> k == k')
  }

  /** The pin count is the number of threads that hold the entry. */
  ghost predicate PinsCounted(s: Store)
    requires HeldIsCached(s)
  {
    forall k :: k in s.cache ==> s.heap[s.cache[k]].pinCount == |Holders(s, k)|
  }

  /** An entry is locked by the thread that works on it. */
  ghost predicate LocksMatch(s: Store)
    requires HeldIsCached(s)
  {
    && (forall t :: t in s.threads && s.threads[t].Working? ==> s.heap[s.threads[t].id].lockedBy == Some(t))
    && (forall id :: id in s.heap && s.heap[id].lockedBy.Some? ==>
          s.heap[id].lockedBy.value in s.threads && s.threads[s.heap[id].lockedBy.value].Working?
          && s.threads[s.heap[id].lockedBy.value].id == id)
  }

  /** An entry with unflushed state is in the map; an entry in the map is pinned or has unflushed state. */
  ghost predicate DirtyIsCached(s: Store)
    requires HeldIsCached(s)
  {
    && (forall id :: id in s.heap && s.heap[id].content.Some? ==> exists k :: k in s.cache && s.cache[k] == id)
    && (forall k :: k in s.cache ==> Needed(s, k))
  }

  /** The entry of a key is pinned or has unflushed state. */
  predicate Needed(s: Store, k: Key)
    requires k in s.cache && s.cache[k] in s.heap
  {
    s.heap[s.cache[k]].pinCount > 0 || s.heap[s.cache[k]].content.Some?
  }

  ghost predicate Inv(s: Store) {
    HeldIsCached(s) && PinsCounted(s) && LocksMatch(s) && DirtyIsCached(s)
  }

  lemma {:induction false} HeldIsCachedNext(s: Store, e: Event)
    requires Inv(s) && Enabled(s, e)
    ensures HeldIsCached(Next(s, e))
  {
    hide PinsCounted, LocksMatch, DirtyIsCached;
    var s' := Next(s, e);
    if e.Unpin? && s.threads[e.t].key in s.cache && s.threads[e.t].key !in s'.cache {
      OnlyHolder(s, e.t);
      forall t | t in s'.threads && !s'.threads[t].Idle?
        ensures s.threads[t].key != s.threads[e.t].key
      {
        assert t !in Holders(s, s.threads[e.t].key);
      }
    }
  }

  /** A thread that takes the pin count to zero was the only holder. */
  lemma {:induction false} OnlyHolder(s: Store, t: Thread)
    requires HeldIsCached(s) && PinsCounted(s)
    requires t in s.threads && !s.threads[t].Idle?
    requires s.heap[s.threads[t].id].pinCount <= 1
    ensures Holders(s, s.threads[t].key) == {t}
  {
    var key := s.threads[t].key;
    assert t in Holders(s, key);
    if t' :| t' in Holders(s, key) && t' != t {
      SubsetSize({t, t'}, Holders(s, key));
      assert false;
    }
  }

  lemma {:induction false} SubsetSize(a: set<Thread>, b: set<Thread>)
    requires a <= b
    ensures |a| <= |b|
  {
    assert |b| == |a| + |b - a| by {
      assert b == a + (b - a);
    }
  }

  /** How the holders of a key change in one step. */
  lemma {:induction false} HoldersNext(s: Store, e: Event, k: Key)
    requires Inv(s) && Enabled(s, e)
    ensures
      if e.Pin? && e.key == k then e.t !in Holders(s, k) && Holders(Next(s, e), k) == Holders(s, k) + {e.t}
      else if e.Unpin? && s.threads[e.t].key == k then
        e.t in Holders(s, k) && Holders(Next(s, e), k) == Holders(s, k) - {e.t}
      else Holders(Next(s, e), k) == Holders(s, k)
  {
    hide PinsCounted, LocksMatch, DirtyIsCached;
    var s' := Next(s, e);
    forall t
      ensures t in Holders(s', k) <==>
        if t == e.t && e.Pin? then e.key == k
        else if t == e.t && e.Unpin? then false
        else t in Holders(s, k)
    {
    }
  }

  lemma {:induction false} PinsCountedNext(s: Store, e: Event)
    requires Inv(s) && Enabled(s, e) && HeldIsCached(Next(s, e))
    ensures PinsCounted(Next(s, e))
  {
    hide LocksMatch, DirtyIsCached, Holders;
    var s' := Next(s, e);
    forall k | k in s'.cache
      ensures s'.heap[s'.cache[k]].pinCount == |Holders(s', k)|
    {
      HoldersNext(s, e, k);
      if k !in s.cache {
        NobodyHolds(s, k);
      }
    }
  }

  lemma NobodyHolds(s: Store, k: Key)
    requires HeldIsCached(s) && k !in s.cache
    ensures Holders(s, k) == {}
  {
  }

  lemma {:induction false} LocksMatchNext(s: Store, e: Event)
    requires Inv(s) && Enabled(s, e) && HeldIsCached(Next(s, e))
    ensures LocksMatch(Next(s, e))
  {
    hide LocksMatch, HeldIsCached, PinsCounted, DirtyIsCached, Next, Enabled;
    if e.Pin? {
      LocksMatchPin(s, e);
    } else if e.Unpin? {
      LocksMatchUnpin(s, e);
    } else {
      LocksMatchHeld(s, e);
    }
  }

  lemma LocksMatchPin(s: Store, e: Event)
    requires HeldIsCached(s) && LocksMatch(s) && Enabled(s, e) && e.Pin? && HeldIsCached(Next(s, e))
    ensures LocksMatch(Next(s, e))
  {
  }

  lemma LocksMatchUnpin(s: Store, e: Event)
    requires HeldIsCached(s) && LocksMatch(s) && Enabled(s, e) && e.Unpin? && HeldIsCached(Next(s, e))
    ensures LocksMatch(Next(s, e))
  {
  }

  lemma LocksMatchHeld(s: Store, e: Event)
    requires HeldIsCached(s) && LocksMatch(s) && Enabled(s, e) && !e.Pin? && !e.Unpin? && HeldIsCached(Next(s, e))
    ensures LocksMatch(Next(s, e))
  {
  }

  lemma {:induction false} UnflushedListedNext(s: Store, e: Event, id: EntryId)
    requires Inv(s) && Enabled(s, e)
    requires id in Next(s, e).heap && Next(s, e).heap[id].content.Some?
    ensures exists k :: k in Next(s, e).cache && Next(s, e).cache[k] == id
  {
    hide LocksMatch, Holders, PinsCounted;
    var s' := Next(s, e);
    if e.Work? && id == s.threads[e.t].id {
      assert s'.cache[s.threads[e.t].key] == id;
    } else {
      var k :| k in s.cache && s.cache[k] == id;
      assert s'.cache[k] == id;
    }
  }

  lemma {:induction false} ListedNeededNext(s: Store, e: Event, k: Key)
    requires Inv(s) && Enabled(s, e) && HeldIsCached(Next(s, e)) && PinsCounted(Next(s, e))
    requires k in Next(s, e).cache
    ensures Needed(Next(s, e), k)
  {
    hide LocksMatch, HeldIsCached, PinsCounted, Next, Enabled, Holders;
    if e.Work? {
      NeededAfterWork(s, e, k);
    } else if e.Unpin? {
      NeededAfterUnpin(s, e, k);
    } else {
      NeededAsBefore(s, e, k);
    }
  }

  lemma NeededAfterWork(s: Store, e: Event, k: Key)
    requires HeldIsCached(s) && (k in s.cache ==> Needed(s, k)) && Enabled(s, e) && e.Work? &&
      HeldIsCached(Next(s, e)) && PinsCounted(Next(s, e))
    requires k in Next(s, e).cache
    ensures Needed(Next(s, e), k)
  {
    var s' := Next(s, e);
    if e.t in Holders(s', k) {
      assert Holders(s', k) != {};
    }
  }

  lemma NeededAfterUnpin(s: Store, e: Event, k: Key)
    requires HeldIsCached(s) && (k in s.cache ==> Needed(s, k)) && Enabled(s, e) && e.Unpin? && HeldIsCached(Next(s, e))
    requires k in Next(s, e).cache
    ensures Needed(Next(s, e), k)
  {
    var s' := Next(s, e);
    assert k in s.cache && s'.cache[k] == s.cache[k];
    if k != s.threads[e.t].key {
      assert s'.heap[s.cache[k]] == s.heap[s.cache[k]];
    }
  }

  lemma NeededAsBefore(s: Store, e: Event, k: Key)
    requires HeldIsCached(s) && (k in s.cache ==> Needed(s, k)) && Enabled(s, e) && !e.Work? && !e.Unpin? &&
      HeldIsCached(Next(s, e))
    requires k in Next(s, e).cache
    ensures Needed(Next(s, e), k)
  {
    var s' := Next(s, e);
    if k in s.cache {
      var id := s.cache[k];
      assert s'.cache[k] == id && s'.heap[id].content == s.heap[id].content &&
        s'.heap[id].pinCount >= s.heap[id].pinCount;
    }
  }

  lemma {:induction false} DirtyIsCachedNext(s: Store, e: Event)
    requires Inv(s) && Enabled(s, e) && HeldIsCached(Next(s, e)) && PinsCounted(Next(s, e))
    ensures DirtyIsCached(Next(s, e))
  {
    hide LocksMatch, Holders, PinsCounted, Next, Inv;
    forall id | id in Next(s, e).heap && Next(s, e).heap[id].content.Some?
      ensures exists k :: k in Next(s, e).cache && Next(s, e).cache[k] == id
    {
      UnflushedListedNext(s, e, id);
    }
    forall k | k in Next(s, e).cache
      ensures Needed(Next(s, e), k)
    {
      ListedNeededNext(s, e, k);
    }
  }

  lemma {:induction false} InvNext(s: Store, e: Event)
    requires Inv(s) && Enabled(s, e)
    ensures Inv(Next(s, e))
  {
    hide HeldIsCached, PinsCounted, LocksMatch, DirtyIsCached;
    HeldIsCachedNext(s, e);
    PinsCountedNext(s, e);
    LocksMatchNext(s, e);
    DirtyIsCachedNext(s, e);
  }

  // ---------------------------------------------------------------- runs

  predicate Init(s: Store) {
    s.cache == map[] && s.heap == map[] && forall t :: t in s.threads ==> s.threads[t].Idle?
  }

  /** Any interleaving of the threads. */
  ghost predicate Run(states: seq<Store>, events: seq<Event>) {
    && |states| == |events| + 1 && Init(states[0])
    && forall n :: 0 <= n < |events| ==> Enabled(states[n], events[n]) && states[n + 1] == Next(states[n], events[n])
  }

  lemma {:induction false} RunInv(states: seq<Store>, events: seq<Event>, n: nat)
    requires Run(states, events) && n < |states|
    ensures Inv(states[n])
  {
    hide Inv, Next, Enabled;
    if n == 0 {
      InitInv(states[0]);
    } else {
      RunInv(states, events, n - 1);
      InvNext(states[n - 1], events[n - 1]);
    }
  }

  lemma InitInv(s: Store)
    requires Init(s)
    ensures Inv(s)
  {
  }

  /** The pin count is exact, and every held entry is the one in the map for its key. */
  lemma {:induction false} PinCountExact(states: seq<Store>, events: seq<Event>, n: nat, t: Thread)
    requires Run(states, events) && n < |states| && t in states[n].threads && !states[n].threads[t].Idle?
    ensures var s := states[n]; var pc := s.threads[t];
      && pc.key in s.cache && s.cache[pc.key] == pc.id && pc.id in s.heap
      && s.heap[pc.id].pinCount == |Holders(s, pc.key)| && t in Holders(s, pc.key)
  {
    RunInv(states, events, n);
  }

  /** Two threads never work on the same key at once. */
  lemma {:induction false} OneWorker(states: seq<Store>, events: seq<Event>, n: nat, t: Thread, t': Thread)
    requires Run(states, events) && n < |states|
    requires t in states[n].threads && t' in states[n].threads
    requires states[n].threads[t].Working? && states[n].threads[t'].Working? &&
      states[n].threads[t].key == states[n].threads[t'].key
    ensures t == t'
  {
    RunInv(states, events, n);
    var s := states[n];
    assert s.heap[s.threads[t].id].lockedBy == Some(t) && s.heap[s.threads[t'].id].lockedBy == Some(t');
  }

  /** What an operation on a key can see: its unflushed state and its rows. */
  function View(s: Store, key: Key): (Option<Content>, Option<Rows>) {
    (if key in s.cache && s.cache[key] in s.heap then s.heap[s.cache[key]].content else None,
     if key in s.db then Some(s.db[key]) else None)
  }

  /** Only working changes what operations see, and only for the key worked on; in particular unpinning never
      drops unflushed state. */
  lemma {:induction false} OnlyWorkChangesView(s: Store, e: Event, key: Key)
    requires Inv(s) && Enabled(s, e)
    ensures View(Next(s, e), key) ==
      if e.Work? && s.threads[e.t].key == key then (e.content, Some(e.rows)) else View(s, key)
  {
    hide PinsCounted, LocksMatch, Holders;
  }

  /** An entry with unflushed state is never dropped from the map. */
  lemma {:induction false} UnflushedNeverDropped(s: Store, e: Event, key: Key)
    requires Inv(s) && Enabled(s, e)
    requires View(s, key).0.Some?
    ensures key in Next(s, e).cache && Next(s, e).cache[key] == s.cache[key]
  {
    hide PinsCounted, LocksMatch, Holders;
  }

  /** While a thread works on a key, whatever the other threads do leaves its view of the key alone: its critical
      section runs as if it were the only thread. */
  lemma {:induction false} CriticalSectionIsAlone(states: seq<Store>, events: seq<Event>, i: nat, j: nat, t: Thread,
          key: Key)
    requires Run(states, events) && i <= j < |states|
    requires forall n :: i <= n <= j ==>
      t in states[n].threads && states[n].threads[t].Working? && states[n].threads[t].key == key
    requires forall n :: i <= n < j ==> events[n].t != t
    ensures View(states[j], key) == View(states[i], key)
    decreases j
  {
    hide Inv, View;
    if i < j {
      RunInv(states, events, j - 1);
      OnlyWorkChangesView(states[j - 1], events[j - 1], key);
      if events[j - 1].Work? && states[j - 1].threads[events[j - 1].t].key == key {
        OneWorker(states, events, j - 1, t, events[j - 1].t);
      }
      CriticalSectionIsAlone(states, events, i, j - 1, t, key);
    }
  }

  /** No deadlock: as long as some thread is inside withLock, some thread can take its next step. */
  lemma {:induction false} SomeThreadCanStep(states: seq<Store>, events: seq<Event>, n: nat, t: Thread)
      returns (e: Event)
    requires Run(states, events) && n < |states| && t in states[n].threads && !states[n].threads[t].Idle?
    ensures Enabled(states[n], e) && !e.Pin?
  {
    RunInv(states, events, n);
    var s := states[n];
    match s.threads[t]
    case Pinned(key, id) =>
      if s.heap[id].lockedBy.None? {
        e := Lock(t);
      } else {
        e := Unlock(s.heap[id].lockedBy.value);
      }
    case Working(key, id) => e := Unlock(t);
    case Released(key, id) => e := Unpin(t);
  }
}
