# Memory sessions of Nagare, in Dafny

This project models the in-memory sessions manager of the Nagare web framework
(`nagare.sessions.memory_sessions`) and the LRU dictionary it is built on
(`nagare.sessions.lru_dict`), and proves what the two promise.

- `results.dfy` — module `Results`: the exceptions of the source as values. `NotFound` is the
  `KeyError` of a dictionary lookup, `Expired` is `ExpirationError`, `Unsupported` is the
  `TypeError` of `check_concurrence`.
- `lru_dict.dfy` — module `LruDict`. The class `LRUDict` holds `size` and `entries`, a sequence
  of key/value pairs ordered from least to most recently used (the `OrderedDict` of the source).
  Each method's effect on `entries` is one of three functions: `Remove` (`pop`),
  `Promote` (`pop` then re-insert at the end) and `Put` (`Promote`, then `popitem(last=False)`
  when the length exceeds `size`). The lemmas prove, for all inputs, what these do: keys stay
  distinct, the length stays within `size`, the touched key ends up last with its value, the
  other keys keep their relative order, and an overflowing write evicts exactly the head.
- `memory_sessions.dfy` — module `MemorySessions`. `SessionRecord` is the mutable five-slot
  list `[last_state_id, lock, secure_token, session_data, states]`; `states` is an inner
  `LRUDict` of size `nb_states`. `Sessions` holds the outer `LRUDict` of size `nb_sessions`
  that maps session ids to records, held by reference. The records are looked up (and so
  promoted), then updated in place. Its invariant `Valid` says that both levels are valid
  dictionaries of the configured sizes, that no two sessions share a state dictionary (so no
  two share a record), that state counters are non-negative, and that a session holding
  states has session data.
- `scenarios.dfy` — module `Scenarios`: the four tests of `tests/test_lru.py` replayed on the
  class, the eviction and state-counter scenarios of the session store, and the
  store-then-fetch round trip.

The session ids, locks, tokens and payloads are type parameters: the store never looks
inside them. The source never checks that `nb_sessions` and `nb_states` are positive, so the
model accepts any integer. A dictionary whose size is 0 or negative holds nothing: a write to
it evicts the entry it has just written.

## Model

| member | source | states |
|---|---|---|
| `LruDict.Find` | src/nagare/sessions/lru_dict.py:41 | a key has a value exactly when it is a key of the entries, and that value is the one stored with it |
| `LruDict.Remove` | src/nagare/sessions/lru_dict.py:54 | popping `k` keeps exactly the entries whose key is not `k`, never lengthens the list, and changes nothing when `k` is absent |
| `LruDict.FindAt` | src/nagare/sessions/lru_dict.py:54-57 | with distinct keys the value read for an entry's key is that entry's value |
| `LruDict.RemoveAt` | src/nagare/sessions/lru_dict.py:54 | with distinct keys, popping `k` cuts out its single entry; the entries before and after it stay in order |
| `LruDict.RemoveDistinct` | src/nagare/sessions/lru_dict.py:72-78 | a removal keeps the keys distinct and leaves `k` absent; the length drops by one exactly when `k` was present |
| `LruDict.CutKeepsOrder` | src/nagare/sessions/lru_dict.py:54 | cutting one entry out leaves the relative order of every other pair of keys unchanged, in both directions |
| `LruDict.RemoveKeepsOrder` | src/nagare/sessions/lru_dict.py:72-78 | after `del d[k]` any two other keys are in the same order as before, and only then |
| `LruDict.PromotePresent` | src/nagare/sessions/lru_dict.py:43-57 | a read of a present key moves its entry, with its value unchanged, from its position to the end; the result is a permutation of the entries with distinct keys |
| `LruDict.PromoteOrder` | src/nagare/sessions/lru_dict.py:43-57 | after a read `k` is more recent than every other key, and the other keys keep their relative order (both directions) |
| `LruDict.PutInvariant` | src/nagare/sessions/lru_dict.py:59-70 | a write keeps the keys distinct and the length within `size` (within 0 for a non-positive size) |
| `LruDict.PutLast` | src/nagare/sessions/lru_dict.py:66-67 | with `size >= 1`, after `d[k] = v` the last entry is `(k, v)` and reading `k` gives `v` |
| `LruDict.PutExisting` | src/nagare/sessions/lru_dict.py:66-70 | writing a present key replaces its entry, so its only value is `v`, and evicts nothing: the length is unchanged |
| `LruDict.PutFresh` | src/nagare/sessions/lru_dict.py:66-70 | writing a new key while there is room appends it after all the others |
| `LruDict.PutEvictsHead` | src/nagare/sessions/lru_dict.py:69-70 | writing a new key into a full dict drops exactly the first entry, keeps the others in order and appends the new one; the length stays the same and the evicted key is gone |
| `LruDict.PutAllInOrder` | tests/test_lru.py:13-22 | writes of new distinct keys that never overflow leave the entries in insertion order |
| `LruDict.LRUDict.constructor` | src/nagare/sessions/lru_dict.py:23-30 | a new dict has the given size and no entries |
| `LruDict.LRUDict.Contains` | src/nagare/sessions/lru_dict.py:32-41 | `k in d` is true exactly when `k` is a key, and changes nothing |
| `LruDict.LRUDict.Get` | src/nagare/sessions/lru_dict.py:43-57 | a present key yields its value and becomes the last entry, the entries being permuted as `Promote` says; an absent key yields NotFound and changes nothing |
| `LruDict.LRUDict.Set` | src/nagare/sessions/lru_dict.py:59-70 | the entries become `Put` of the old ones, the invariant holds, `(k, v)` is last when `size >= 1`, and rewriting a present key keeps the length |
| `LruDict.LRUDict.Delete` | src/nagare/sessions/lru_dict.py:72-78 | a present key's entry is removed and the length drops by one; an absent key yields NotFound and changes nothing |
| `LruDict.LRUDict.Items` | src/nagare/sessions/lru_dict.py:80-81 | returns the entries, least recently used first, without changing the dict |
| `MemorySessions.SessionRecord.constructor` | src/nagare/sessions/memory_sessions.py:91 | the new record is `[0, lock, token, None, LRUDict(nb_states)]` with a fresh, empty state dictionary |
| `MemorySessions.SessionRecord.Update` | src/nagare/sessions/memory_sessions.py:137-142 | the counter goes up by exactly 1 unless `use_same_state`, token and session data are overwritten, and the state dictionary becomes `Put` of its old entries |
| `MemorySessions.Sessions.constructor` | src/nagare/sessions/memory_sessions.py:50-52 | a new manager holds no session and has the given sizes at both levels |
| `MemorySessions.Sessions.CheckConcurrence` | src/nagare/sessions/memory_sessions.py:54-56 | fails, with Unsupported, exactly when `multi_processes` holds, whatever `multi_threads` is |
| `MemorySessions.Sessions.CheckSessionId` | src/nagare/sessions/memory_sessions.py:58-67 | true exactly when the id is a live session; changes nothing |
| `MemorySessions.Sessions.GetLock` | src/nagare/sessions/memory_sessions.py:69-81 | a live session yields its record's lock and is promoted; a missing one yields Expired and nothing moves |
| `MemorySessions.Sessions.Create` | src/nagare/sessions/memory_sessions.py:83-93 | returns `(id, 0, token, lock)`; the outer entries become `Put` of a fresh record (counter 0, no data, empty states of size `nb_states`), which replaces an older record for `id` and may evict the least recently used session |
| `MemorySessions.Sessions.Delete` | src/nagare/sessions/memory_sessions.py:95-101 | a live session is removed; a missing one yields NotFound, not Expired, and nothing changes |
| `MemorySessions.Sessions.Fetch` | src/nagare/sessions/memory_sessions.py:103-122 | returns `(last_state_id, token, session data, state data)` with the session and the state both promoted; Expired when the session is gone (nothing moves) or when the state is gone (the session has been promoted, the states have not moved); other sessions' states are untouched |
| `MemorySessions.Sessions.Store` | src/nagare/sessions/memory_sessions.py:124-142 | the session is promoted and its own record updated in place as `Update` says, with the state dictionary staying within `nb_states`; every other session's record and states are untouched; a missing session yields NotFound before anything changes |
| `Scenarios.NoEvictionSteps` | tests/test_lru.py:13-22 | the entry lists `test_no_eviction` expects after each write |
| `Scenarios.KeyReadSteps` | tests/test_lru.py:25-35 | the values read and the entry lists `test_key_read` expects after each read |
| `Scenarios.KeyChangeSteps` | tests/test_lru.py:38-48 | the entry lists `test_key_change` expects after each rewrite |
| `Scenarios.EvictionSteps` | tests/test_lru.py:51-58 | writing `d` into the full dict `[a, b, c]` evicts `a` |
| `Scenarios.TouchThenEvictionSteps` | tests/test_lru.py:60-62 | rewriting `b` moves it last, and writing `e` then evicts `c` |
| `Scenarios.StoreThenFetch` | src/nagare/sessions/memory_sessions.py:116-142 | with `nb_states >= 1`, fetching the state just stored returns the advanced counter, the stored token, the stored session data and the stored state data; on a missing session the store yields NotFound and the fetch Expired |

`nagare/sessions/memory_sessions.py` is an older copy of the same manager. Its methods are
the same code line for line and only the error messages differ, so the members above model
it too: `check_concurrence` is at lines 52-54, `check_session_id` at 56-65, `get_lock` at
67-79, `_create` at 81-91, `delete` at 93-99, `_fetch` at 101-120 and `_store` at 122-140
(the in-place record update at 135-140).

## Left out

- `ThreadSafeLRUDict` (src/nagare/sessions/lru_dict.py:87-116) only wraps each operation in a reentrant lock; it is modelled as `LRUDict`, since the model is sequential.
- The lock that `_create` obtains from `self.local.worker.create_lock()` is a parameter of `Create`; the lock is never acquired by the store.
- The service wiring of `__init__`, `CONFIG_SPEC`, the parent `common.Sessions` class and `SessionsWithPickledStates` are configuration only and are not part of this model.
- `__repr__` is not modelled.
- The constant cost of the `OrderedDict` operations is not modelled: the entries are a sequence, and the model states behaviour, not complexity.
- The texts of the `ExpirationError` and `TypeError` messages are not modelled; only which error is raised.
- MemorySessions.Sessions.Store: the session data it writes is wrapped as `Some(data)`, so a store of Python's `None` as session data is not told apart from a stored value; `None` only marks a record that was never stored to.
