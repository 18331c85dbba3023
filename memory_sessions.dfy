/** Sessions kept in memory: a two-level LRU.

    The outer LRU dictionary, of maximum size `nb_sessions`, maps session ids to session records;
    each record owns an inner LRU dictionary, of maximum size `nb_states`, mapping state ids to
    state data. Records are objects held by reference: `_store` looks a record up (promoting it)
    and then updates that same record in place. */
module MemorySessions {
  import opened Results
  import opened LruDict

  /** Default maximum number of sessions kept. */
  const DefaultNbSessions := 10000
  /** Default maximum number of states kept per session. */
  const DefaultNbStates := 20

  /** The record of one session, the list `[last_state_id, lock, secure_token, session_data, states]`.
      The lock and the state dictionary are set at creation and never replaced. */
  class SessionRecord<Lock, Token, Data> {
    var lastStateId: int
    const lock: Lock
    var secureToken: Token
    /** `None` until the first store. */
    var sessionData: Option<Data>
    const states: LRUDict<int, Data>

    /** The record `_create` builds: `[0, lock, secure_token, None, LRUDict(nb_states)]`. */
    constructor (lock: Lock, secureToken: Token, nbStates: int)
      ensures lastStateId == 0 && this.lock == lock && this.secureToken == secureToken
      ensures sessionData == None
      ensures fresh(states) && states.Valid() && states.size == nbStates && states.entries == []
    {
      lastStateId := 0;
      this.lock := lock;
      this.secureToken := secureToken;
      sessionData := None;
      states := new LRUDict(nbStates);
    }

    /** The in-place update `_store` makes to a record it has looked up: the state counter goes
        up by one unless `useSameState`, the token and the session data are overwritten, and
        `stateData` is written under `stateId` in the state dictionary (which may evict its least
        recently used state). The lock is a constant and cannot change. */
    method Update(useSameState: bool, secureToken: Token, sessionData: Data, stateId: int, stateData: Data)
      requires states.Valid()
      modifies this, states
      ensures states.Valid()
      ensures lastStateId == old(lastStateId) + (if useSameState then 0 else 1)
      ensures this.secureToken == secureToken && this.sessionData == Some(sessionData)
      ensures states.entries == Put(old(states.entries), stateId, stateData, states.size)
    {
      if !useSameState {
        lastStateId := lastStateId + 1;
      }
      this.secureToken := secureToken;
      this.sessionData := Some(sessionData);
      states.Set(stateId, stateData);
    }
  }

  /** The memory sessions manager. */
  class Sessions<Id(==), Lock, Token, Data> {
    /** Maximum number of states kept per session. */
    const nbStates: int
    /** The outer dictionary; its `size` is `nb_sessions`. */
    const sessions: LRUDict<Id, SessionRecord<Lock, Token, Data>>

    /** The records of the live sessions. */
    ghost function Records(): set<SessionRecord<Lock, Token, Data>>
      reads sessions
    {
      set e | e in sessions.entries :: e.1
    }

    /** The state dictionaries of the live sessions. */
    ghost function StateCaches(): set<LRUDict<int, Data>>
      reads sessions
    {
      set e | e in sessions.entries :: e.1.states
    }

    /** The store's invariant: both levels are valid LRU dictionaries of the configured sizes,
        no two sessions share a record or a state dictionary (and none is the outer one), state ids count up from 0, and a
        session holding states has had its data stored. */
    ghost predicate Valid()
      reads this, sessions, Records(), StateCaches()
    {
      && sessions.Valid()
      && (forall e | e in sessions.entries ::
            && e.1.states as object != sessions
            && e.1.states.Valid() && e.1.states.size == nbStates
            && e.1.lastStateId >= 0
            && (e.1.states.entries != [] ==> e.1.sessionData.Some?))
      && (forall e1, e2 | e1 in sessions.entries && e2 in sessions.entries ::
            e1.1.states == e2.1.states ==> e1.0 == e2.0)
    }

    /** A store of at most `nbSessions` sessions of at most `nbStates` states each, empty. */
    constructor (nbSessions: int, nbStates: int)
      ensures Valid() && fresh(sessions)
      ensures this.nbStates == nbStates && sessions.size == nbSessions && sessions.entries == []
    {
      this.nbStates := nbStates;
      sessions := new LRUDict(nbSessions);
    }

    /** `check_concurrence`: this manager refuses a multi-process configuration; whether the
        application is multi-threaded does not matter. */
    function CheckConcurrence(multiProcesses: bool, multiThreads: bool): (o: Outcome)
      ensures o.Fail? <==> multiProcesses
      ensures o.Fail? ==> o.error == Unsupported
    {
      if multiProcesses then Fail(Unsupported) else Pass
    }

    /** `check_session_id`: whether the session is live; nothing is reordered. */
    method CheckSessionId(id: Id) returns (b: bool)
      ensures b <==> id in Keys(sessions.entries)
    {
      b := sessions.Contains(id);
    }

    /** `get_lock`: the session's lock; the session becomes the most recently used one.
        ExpirationError (Expired) when the session is gone. */
    method GetLock(id: Id) returns (r: Result<Lock>)
      requires Valid()
      modifies sessions
      ensures Valid()
      ensures id in old(Keys(sessions.entries)) ==>
                var rec := Find(old(sessions.entries), id).value;
                && r == Ok(rec.lock)
                && sessions.entries == Promote(old(sessions.entries), id, rec)
      ensures id !in old(Keys(sessions.entries)) ==>
                r == Err(Expired) && sessions.entries == old(sessions.entries)
    {
      var found := sessions.Get(id);
      if found.Err? {
        return Err(Expired);
      }
      r := Ok(found.value.lock);
    }

    /** `_create`: a fresh record (state counter 0, no session data, no states) is written under
        `id`, replacing any record `id` had; the least recently used session may be evicted.
        `lock` is the lock the worker creates for the session. */
    method Create(id: Id, secureToken: Token, lock: Lock)
      returns (r: (Id, int, Token, Lock), ghost rec: SessionRecord<Lock, Token, Data>)
      requires Valid()
      modifies sessions
      ensures Valid()
      ensures r == (id, 0, secureToken, lock)
      ensures sessions.entries == Put(old(sessions.entries), id, rec, sessions.size)
      ensures fresh(rec) && fresh(rec.states)
      ensures rec.lastStateId == 0 && rec.lock == lock && rec.secureToken == secureToken
      ensures rec.sessionData == None && rec.states.entries == [] && rec.states.size == nbStates
    {
      var record := new SessionRecord(lock, secureToken, nbStates);
      rec := record;
      sessions.Set(id, record);
      r := (id, 0, secureToken, lock);
    }

    /** `delete`: the session is dropped. A missing session is the dictionary's KeyError
        (NotFound), not an ExpirationError. */
    method Delete(id: Id) returns (o: Outcome)
      requires Valid()
      modifies sessions
      ensures Valid()
      ensures id in old(Keys(sessions.entries)) ==>
                o == Pass && sessions.entries == Remove(old(sessions.entries), id)
      ensures id !in old(Keys(sessions.entries)) ==>
                o == Fail(NotFound) && sessions.entries == old(sessions.entries)
    {
      o := sessions.Delete(id);
    }

    /** `_fetch`: `(last_state_id, secure_token, session_data, state_data)`. The session is
        promoted in the outer dictionary, then the state in the session's own dictionary.
        ExpirationError (Expired) when the session is gone, and also when the state is gone,
        in which case the session has already been promoted. */
    method Fetch(id: Id, stateId: int) returns (r: Result<(int, Token, Option<Data>, Data)>)
      requires Valid()
      modifies sessions, StateCaches()
      ensures Valid()
      ensures id !in old(Keys(sessions.entries)) ==>
                r == Err(Expired) && sessions.entries == old(sessions.entries)
      ensures id in old(Keys(sessions.entries)) ==>
                var rec := Find(old(sessions.entries), id).value;
                var found := Find(old(rec.states.entries), stateId);
                && sessions.entries == Promote(old(sessions.entries), id, rec)
                && (found.Some? ==>
                      && r == Ok((rec.lastStateId, rec.secureToken, rec.sessionData, found.value))
                      && rec.sessionData.Some?
                      && rec.states.entries == Promote(old(rec.states.entries), stateId, found.value))
                && (found.None? ==>
                      r == Err(Expired) && rec.states.entries == old(rec.states.entries))
      ensures forall e | e in old(sessions.entries) && e.0 != id :: unchanged(e.1.states)
    {
      var found := sessions.Get(id);
      if found.Err? {
        return Err(Expired);
      }
      var record := found.value;
      ghost var i := KeyIndex(old(sessions.entries), id);
      FindAt(old(sessions.entries), i);
      var state := record.states.Get(stateId);
      if state.Err? {
        return Err(Expired);
      }
      r := Ok((record.lastStateId, record.secureToken, record.sessionData, state.value));
    }

    /** `_store`: the session is looked up (and so promoted); unless `useSameState`, its state
        counter goes up by one; its token and data are overwritten; `stateData` is written under
        `stateId` in its state dictionary, which may evict its least recently used state. The
        lock and every other session are untouched. A missing session is the dictionary's
        KeyError (NotFound), raised before anything changes. */
    method Store(id: Id, stateId: int, secureToken: Token, useSameState: bool,
                 sessionData: Data, stateData: Data) returns (o: Outcome)
      requires Valid()
      modifies sessions, Records(), StateCaches()
      ensures Valid()
      ensures id !in old(Keys(sessions.entries)) ==>
                o == Fail(NotFound) && sessions.entries == old(sessions.entries)
      ensures id in old(Keys(sessions.entries)) ==>
                var rec := Find(old(sessions.entries), id).value;
                && o == Pass
                && sessions.entries == Promote(old(sessions.entries), id, rec)
                && rec.lastStateId == old(rec.lastStateId) + (if useSameState then 0 else 1)
                && rec.secureToken == secureToken
                && rec.sessionData == Some(sessionData)
                && rec.states.entries == Put(old(rec.states.entries), stateId, stateData, nbStates)
      ensures forall e | e in old(sessions.entries) && e.0 != id :: unchanged(e.1, e.1.states)
    {
      var found := sessions.Get(id);
      if found.Err? {
        return Fail(NotFound);
      }
      var record := found.value;
      ghost var i := KeyIndex(old(sessions.entries), id);
      FindAt(old(sessions.entries), i);
      assert forall e :: e in sessions.entries <==> e in old(sessions.entries);
      record.Update(useSameState, secureToken, sessionData, stateId, stateData);
      o := Pass;
      forall e | e in sessions.entries
        ensures e.1.states as object != sessions
        ensures e.1.states.Valid() && e.1.states.size == nbStates
        ensures e.1.lastStateId >= 0
        ensures e.1.states.entries != [] ==> e.1.sessionData.Some?
      {
        assert e in old(sessions.entries);
        if e.1.states != record.states {
          assert e.1 != record;
        }
      }
    }
  }
}
