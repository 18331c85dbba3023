/** Clients of the two classes. The first four replay the LRU dictionary's unit tests
    (tests/test_lru.py) and check their expected `items()` from the contracts alone; the others
    replay the session scenarios of the store and its store-then-fetch round trip. */
module Scenarios {
  import opened Results
  import opened LruDict
  import opened MemorySessions

  /** The entry lists test_no_eviction expects. */
  lemma NoEvictionSteps()
    ensures Put([], 'a', 1, 3) == [('a', 1)]
    ensures Put([('a', 1)], 'b', 2, 3) == [('a', 1), ('b', 2)]
    ensures Put([('a', 1), ('b', 2)], 'c', 3, 3) == [('a', 1), ('b', 2), ('c', 3)]
  {
  }

  /** Writes without overflow keep insertion order. */
  method NoEviction() {
    NoEvictionSteps();
    var cache := new LRUDict<char, int>(3);
    cache.Set('a', 1);
    var items := cache.Items();
    assert items == [('a', 1)];
    cache.Set('b', 2);
    items := cache.Items();
    assert items == [('a', 1), ('b', 2)];
    cache.Set('c', 3);
    items := cache.Items();
    assert items == [('a', 1), ('b', 2), ('c', 3)];
  }

  /** The entry lists test_key_read expects. */
  lemma KeyReadSteps()
    ensures Find([('a', 1), ('b', 2), ('c', 3)], 'a') == Some(1)
    ensures Promote([('a', 1), ('b', 2), ('c', 3)], 'a', 1) == [('b', 2), ('c', 3), ('a', 1)]
    ensures Find([('b', 2), ('c', 3), ('a', 1)], 'c') == Some(3)
    ensures Promote([('b', 2), ('c', 3), ('a', 1)], 'c', 3) == [('b', 2), ('a', 1), ('c', 3)]
  {
  }

  /** A read moves the key to the most-recently-used end. */
  method KeyRead() {
    NoEvictionSteps();
    KeyReadSteps();
    var cache := new LRUDict<char, int>(3);
    cache.Set('a', 1);
    cache.Set('b', 2);
    cache.Set('c', 3);
    var v := cache.Get('a');
    assert v == Ok(1);
    var items := cache.Items();
    assert items == [('b', 2), ('c', 3), ('a', 1)];
    v := cache.Get('c');
    assert v == Ok(3);
    items := cache.Items();
    assert items == [('b', 2), ('a', 1), ('c', 3)];
  }

  /** The entry lists test_key_change expects. */
  lemma KeyChangeSteps()
    ensures Put([('a', 1), ('b', 2), ('c', 3)], 'a', 4, 3) == [('b', 2), ('c', 3), ('a', 4)]
    ensures Put([('b', 2), ('c', 3), ('a', 4)], 'c', 5, 3) == [('b', 2), ('a', 4), ('c', 5)]
  {
  }

  /** A write to a present key replaces its value and moves it like a read. */
  method KeyChange() {
    NoEvictionSteps();
    KeyChangeSteps();
    var cache := new LRUDict<char, int>(3);
    cache.Set('a', 1);
    cache.Set('b', 2);
    cache.Set('c', 3);
    cache.Set('a', 4);
    var items := cache.Items();
    assert items == [('b', 2), ('c', 3), ('a', 4)];
    cache.Set('c', 5);
    items := cache.Items();
    assert items == [('b', 2), ('a', 4), ('c', 5)];
  }

  /** The entry list test_evictions expects after its first eviction. */
  lemma EvictionSteps()
    ensures Put([('a', 1), ('b', 2), ('c', 3)], 'd', 4, 3) == [('b', 2), ('c', 3), ('d', 4)]
  {
  }

  /** The entry lists test_evictions expects once 'b' is rewritten and 'e' evicts 'c'. */
  lemma TouchThenEvictionSteps()
    ensures Put([('b', 2), ('c', 3), ('d', 4)], 'b', 2, 3) == [('c', 3), ('d', 4), ('b', 2)]
    ensures Put([('c', 3), ('d', 4), ('b', 2)], 'e', 5, 3) == [('d', 4), ('b', 2), ('e', 5)]
  {
  }

  /** A new key in a full dict evicts the least recently used one. */
  method Evictions() {
    NoEvictionSteps();
    EvictionSteps();
    TouchThenEvictionSteps();
    var cache := new LRUDict<char, int>(3);
    cache.Set('a', 1);
    cache.Set('b', 2);
    cache.Set('c', 3);
    cache.Set('d', 4);
    var items := cache.Items();
    assert items == [('b', 2), ('c', 3), ('d', 4)];
    cache.Set('b', 2);
    cache.Set('e', 5);
    items := cache.Items();
    assert items == [('d', 4), ('b', 2), ('e', 5)];
  }

  /** With room for two sessions, creating a third evicts the first: its lock is then Expired,
      its id is no longer live, and deleting it is the dictionary's NotFound. */
  method SessionEviction() {
    var store := new Sessions<int, int, int, int>(2, 2);
    var created, r1 := store.Create(1, 100, 10);
    PutFresh([], 1, r1, 2);
    var created2, r2 := store.Create(2, 200, 20);
    PutFresh([(1, r1)], 2, r2, 2);
    assert store.sessions.entries == [(1, r1), (2, r2)];
    var created3, r3 := store.Create(3, 300, 30);
    PutEvictsHead([(1, r1), (2, r2)], 3, r3, 2);
    assert store.sessions.entries == [(2, r2), (3, r3)];
    var lock := store.GetLock(1);
    assert lock == Err(Expired);
    var live := store.CheckSessionId(1);
    assert !live;
    var deleted := store.Delete(1);
    assert deleted == Fail(NotFound);
  }

  /** A store of two sessions of two states each, holding the one just created session 1. */
  method OneSession() returns (store: Sessions<int, int, int, int>, ghost rec: SessionRecord<int, int, int>)
    ensures fresh(store) && fresh(store.sessions) && fresh(rec) && fresh(rec.states)
    ensures store.Valid() && store.nbStates == 2 && store.sessions.entries == [(1, rec)]
    ensures rec.lastStateId == 0 && rec.states.entries == []
  {
    store := new Sessions<int, int, int, int>(2, 2);
    var created;
    created, rec := store.Create(1, 100, 10);
    PutFresh([], 1, rec, 2);
  }

  /** A fetch of a state that was never stored is Expired, though the session is live. */
  method UnknownState() {
    var store, rec := OneSession();
    var fetched := store.Fetch(1, 0);
    assert fetched == Err(Expired);
  }

  /** A store that reuses the state leaves the state counter alone, one that does not advances
      it by exactly one; each store overwrites the token, the data and the state. */
  method StateCounter() {
    var store, rec := OneSession();
    RemoveAt(store.sessions.entries, 0);
    var stored := store.Store(1, 0, 101, false, 7, 70);
    assert stored == Pass && rec.lastStateId == 1;
    assert store.sessions.entries == [(1, rec)];
    PutFresh([], 0, 70, 2);
    assert rec.states.entries == [(0, 70)];
    RemoveAt([(0, 70)], 0);
    RemoveAt(store.sessions.entries, 0);
    stored := store.Store(1, 0, 102, true, 8, 80);
    assert stored == Pass && rec.lastStateId == 1;
    assert rec.secureToken == 102 && rec.sessionData == Some(8);
    assert rec.states.entries == [(0, 80)];
  }

  /** Storing then fetching the same state gives back what was stored, with the state counter
      advanced by one unless `useSameState`; on a missing session both fail. */
  method StoreThenFetch<Id(==), Lock, Token, Data>(store: Sessions<Id, Lock, Token, Data>, id: Id,
      stateId: int, secureToken: Token, useSameState: bool, sessionData: Data, stateData: Data)
    returns (stored: Outcome, r: Result<(int, Token, Option<Data>, Data)>)
    requires store.Valid() && store.nbStates >= 1
    modifies store.sessions, store.Records(), store.StateCaches()
    ensures store.Valid()
    ensures id in old(Keys(store.sessions.entries)) ==>
              var rec := Find(old(store.sessions.entries), id).value;
              && stored == Pass
              && r == Ok((old(rec.lastStateId) + (if useSameState then 0 else 1),
                          secureToken, Some(sessionData), stateData))
    ensures id !in old(Keys(store.sessions.entries)) ==> stored == Fail(NotFound) && r == Err(Expired)
  {
    ghost var rec := if id in Keys(store.sessions.entries) then Find(store.sessions.entries, id).value else null;
    stored := store.Store(id, stateId, secureToken, useSameState, sessionData, stateData);
    if stored.Pass? {
      ghost var es := store.sessions.entries;
      assert es[|es| - 1] == (id, rec);
      FindAt(es, |es| - 1);
      PutLast(old(rec.states.entries), stateId, stateData, store.nbStates);
    }
    r := store.Fetch(id, stateId);
  }
}
