/** A dictionary with a fixed maximum number of keys, ordered from least to most recently used.

    The Python class keeps its entries in an OrderedDict. Here the entries are a sequence of
    key/value pairs, least recently used first, and each operation's effect on that sequence is
    given by one of the functions Remove, Promote and Put below. The lemmas state what those
    functions guarantee: no duplicate key, the capacity bound, the touched key last, the other
    entries in their old relative order, and eviction of exactly the head. */
module LruDict {
  import opened Results

  /** The keys of an entry list. */
  ghost function Keys<K, V>(s: seq<(K, V)>): set<K>
  {
    set e | e in s :: e.0
  }

  /** No key occurs twice: the entry lists a dict can hold. */
  ghost predicate DistinctKeys<K, V>(s: seq<(K, V)>)
  {
    forall i, j :: 0 <= i < j < |s| ==> s[i].0 != s[j].0
  }

  /** The number of keys a dict of maximum size `size` can hold: a non-positive size holds none. */
  function Bound(size: int): nat
  {
    if size < 0 then 0 else size
  }

  /** Key `a` is less recently used than key `b` in `s`. */
  ghost predicate Precedes<K, V>(s: seq<(K, V)>, a: K, b: K)
  {
    exists i, j :: 0 <= i < j < |s| && s[i].0 == a && s[j].0 == b
  }

  /** The value stored for `k`, if any. */
  function Find<K(==), V>(s: seq<(K, V)>, k: K): (r: Option<V>)
    ensures r.Some? <==> k in Keys(s)
    ensures r.Some? ==> (k, r.value) in s
  {
    if s == [] then None
    else if s[0].0 == k then Some(s[0].1)
    else Find(s[1..], k)
  }

  /** The entries left once the entry for `k` is popped (OrderedDict.pop). */
  function Remove<K(==), V>(s: seq<(K, V)>, k: K): (r: seq<(K, V)>)
    ensures forall i :: 0 <= i < |r| ==> r[i] in s && r[i].0 != k
    ensures forall i :: 0 <= i < |s| && s[i].0 != k ==> s[i] in r
    ensures |r| <= |s|
    ensures k !in Keys(s) ==> r == s
  {
    if s == [] then []
    else if s[0].0 == k then Remove(s[1..], k)
    else [s[0]] + Remove(s[1..], k)
  }

  /** The entries once `k` is popped and re-inserted with value `v`: `k` becomes the most
      recently used key. This is the effect of a read (`d[k]`) and, before eviction, of a write. */
  function Promote<K(==), V>(s: seq<(K, V)>, k: K, v: V): seq<(K, V)>
  {
    Remove(s, k) + [(k, v)]
  }

  /** The entries after `d[k] = v` on a dict of maximum size `size`: any old entry for `k` is
      dropped, `(k, v)` is appended, and when the length then exceeds `size` the first entry
      is dropped. */
  function Put<K(==), V>(s: seq<(K, V)>, k: K, v: V, size: int): seq<(K, V)>
  {
    var t := Promote(s, k, v);
    if |t| > size then t[1..] else t
  }

  /** The entries after the writes `d[k] = v` for each `(k, v)` of `kvs`, in order. */
  function PutAll<K(==), V>(s: seq<(K, V)>, kvs: seq<(K, V)>, size: int): seq<(K, V)>
    decreases |kvs|
  {
    if kvs == [] then s else PutAll(Put(s, kvs[0].0, kvs[0].1, size), kvs[1..], size)
  }

  /** A position at which key `k` occurs. */
  lemma KeyIndex<K, V>(s: seq<(K, V)>, k: K) returns (i: nat)
    requires k in Keys(s)
    ensures i < |s| && s[i].0 == k
  {
    var e :| e in s && e.0 == k;
    i :| i < |s| && s[i] == e;
  }

  /** A key that no entry carries is not a key of the list. */
  lemma NotInKeys<K, V>(s: seq<(K, V)>, k: K)
    requires forall i :: 0 <= i < |s| ==> s[i].0 != k
    ensures k !in Keys(s)
  {
    forall e | e in s ensures e.0 != k {
      var i :| 0 <= i < |s| && s[i] == e;
    }
  }

  /** Two positions in order witness that their keys are in that order. */
  lemma PrecedesAt<K, V>(s: seq<(K, V)>, i: nat, j: nat)
    requires i < j < |s|
    ensures Precedes(s, s[i].0, s[j].0)
  {
  }

  /** With distinct keys, an entry is the only one with its key, and Find returns its value. */
  lemma {:induction false} FindAt<K, V>(s: seq<(K, V)>, i: nat)
    requires DistinctKeys(s) && i < |s|
    ensures Find(s, s[i].0) == Some(s[i].1)
  {
    if i > 0 {
      assert s[0].0 != s[i].0;
      assert DistinctKeys(s[1..]);
      FindAt(s[1..], i - 1);
    }
  }

  /** On distinct keys, popping `k` removes exactly the one entry for `k` and nothing else:
      the entries before it and after it stay, in their order. */
  lemma {:induction false} RemoveAt<K, V>(s: seq<(K, V)>, i: nat)
    requires DistinctKeys(s) && i < |s|
    ensures Remove(s, s[i].0) == s[..i] + s[i + 1..]
  {
    if i == 0 {
      forall j | 0 <= j < |s| - 1 ensures s[1..][j].0 != s[0].0 {
        assert s[1..][j] == s[j + 1];
      }
      NotInKeys(s[1..], s[0].0);
    } else {
      assert DistinctKeys(s[1..]);
      RemoveAt(s[1..], i - 1);
      assert s[0].0 != s[i].0;
      assert [s[0]] + (s[1..][..i - 1] + s[1..][i..]) == s[..i] + s[i + 1..];
    }
  }

  /** Popping `k` keeps the keys distinct and leaves `k` absent; it shortens the list by one
      exactly when `k` was present. */
  lemma RemoveDistinct<K, V>(s: seq<(K, V)>, k: K)
    requires DistinctKeys(s)
    ensures DistinctKeys(Remove(s, k))
    ensures k !in Keys(Remove(s, k))
    ensures |Remove(s, k)| == if k in Keys(s) then |s| - 1 else |s|
  {
    if k in Keys(s) {
      var i := KeyIndex(s, k);
      RemoveAt(s, i);
      var r := s[..i] + s[i + 1..];
      forall p, q | 0 <= p < q < |r| ensures r[p].0 != r[q].0 {
        var p', q' := if p < i then p else p + 1, if q < i then q else q + 1;
        assert r[p] == s[p'] && r[q] == s[q'];
      }
    }
  }

  /** Cutting out the entry at position `m` leaves the order of the other keys as it was. */
  lemma CutKeepsOrder<K, V>(s: seq<(K, V)>, m: nat, a: K, b: K)
    requires m < |s| && a != s[m].0 && b != s[m].0
    ensures Precedes(s[..m] + s[m + 1..], a, b) <==> Precedes(s, a, b)
  {
    var r := s[..m] + s[m + 1..];
    if Precedes(r, a, b) {
      var i, j :| 0 <= i < j < |r| && r[i].0 == a && r[j].0 == b;
      var i', j' := if i < m then i else i + 1, if j < m then j else j + 1;
      assert r[i] == s[i'];
      assert r[j] == s[j'];
      PrecedesAt(s, i', j');
    }
    if Precedes(s, a, b) {
      var i, j :| 0 <= i < j < |s| && s[i].0 == a && s[j].0 == b;
      assert i != m && j != m;
      var i', j' := if i < m then i else i - 1, if j < m then j else j - 1;
      assert r[i'] == s[i];
      assert r[j'] == s[j];
      PrecedesAt(r, i', j');
    }
  }

  /** Popping `k` leaves the relative order of all other keys as it was. */
  lemma RemoveKeepsOrder<K, V>(s: seq<(K, V)>, k: K, a: K, b: K)
    requires DistinctKeys(s) && a != k && b != k
    ensures Precedes(Remove(s, k), a, b) <==> Precedes(s, a, b)
  {
    if k in Keys(s) {
      var m := KeyIndex(s, k);
      RemoveAt(s, m);
      CutKeepsOrder(s, m, a, b);
    }
  }

  /** Promoting a present key (a read, `d[k]`): the same entries in a new order (a permutation),
      with `k` and its unchanged value moved from its position to the most-recently-used end. */
  lemma PromotePresent<K, V>(s: seq<(K, V)>, i: nat)
    requires DistinctKeys(s) && i < |s|
    ensures Promote(s, s[i].0, s[i].1) == s[..i] + s[i + 1..] + [s[i]]
    ensures multiset(Promote(s, s[i].0, s[i].1)) == multiset(s)
    ensures DistinctKeys(Promote(s, s[i].0, s[i].1))
  {
    RemoveAt(s, i);
    RemoveDistinct(s, s[i].0);
    assert s == s[..i] + [s[i]] + s[i + 1..];
    calc {
      multiset(s);
      multiset(s[..i] + [s[i]] + s[i + 1..]);
      multiset(s[..i]) + multiset([s[i]]) + multiset(s[i + 1..]);
      multiset(s[..i] + s[i + 1..] + [s[i]]);
    }
  }

  /** After a promotion `k` is more recent than every other key, and the other keys keep
      their relative order. */
  lemma PromoteOrder<K, V>(s: seq<(K, V)>, k: K, v: V, a: K, b: K)
    requires DistinctKeys(s) && a != k && b != k
    ensures a in Keys(s) ==> Precedes(Promote(s, k, v), a, k)
    ensures Precedes(Promote(s, k, v), a, b) <==> Precedes(s, a, b)
  {
    var r := Remove(s, k);
    var t := r + [(k, v)];
    RemoveKeepsOrder(s, k, a, b);
    if a in Keys(s) {
      assert a in Keys(r);
      var i := KeyIndex(r, a);
      assert t[i].0 == a && t[|r|].0 == k;
    }
    if Precedes(t, a, b) {
      var i, j :| 0 <= i < j < |t| && t[i].0 == a && t[j].0 == b;
      assert j < |r|;
      assert r[i] == t[i] && r[j] == t[j];
    }
    if Precedes(r, a, b) {
      var i, j :| 0 <= i < j < |r| && r[i].0 == a && r[j].0 == b;
      assert t[i] == r[i] && t[j] == r[j];
    }
  }

  /** A write keeps the dict's invariant: distinct keys and at most `size` of them. */
  lemma PutInvariant<K, V>(s: seq<(K, V)>, k: K, v: V, size: int)
    requires DistinctKeys(s) && |s| <= Bound(size)
    ensures DistinctKeys(Put(s, k, v, size))
    ensures |Put(s, k, v, size)| <= Bound(size)
  {
    RemoveDistinct(s, k);
    var t := Promote(s, k, v);
    assert DistinctKeys(t) by {
      forall i, j | 0 <= i < j < |t| ensures t[i].0 != t[j].0 {
        if j == |t| - 1 {
          assert t[i] in Remove(s, k);
        }
      }
    }
  }

  /** On a dict that can hold a key (`size >= 1`), the written key ends up most recently used,
      with exactly the written value. */
  lemma PutLast<K, V>(s: seq<(K, V)>, k: K, v: V, size: int)
    requires DistinctKeys(s) && |s| <= size && size >= 1
    ensures var r := Put(s, k, v, size); |r| > 0 && r[|r| - 1] == (k, v)
    ensures Find(Put(s, k, v, size), k) == Some(v)
  {
    PutInvariant(s, k, v, size);
    var r := Put(s, k, v, size);
    assert |r| > 0 && r[|r| - 1] == (k, v);
    FindAt(r, |r| - 1);
  }

  /** Writing a key that is already present replaces its entry (no merge) and evicts nothing:
      the length is unchanged. */
  lemma PutExisting<K, V>(s: seq<(K, V)>, k: K, v: V, size: int)
    requires DistinctKeys(s) && |s| <= Bound(size) && k in Keys(s)
    ensures Put(s, k, v, size) == Promote(s, k, v)
    ensures |Put(s, k, v, size)| == |s|
    ensures (k, v) in Put(s, k, v, size)
    ensures forall e :: e in Put(s, k, v, size) && e.0 == k ==> e.1 == v
  {
    RemoveDistinct(s, k);
  }

  /** Writing a new key while there is room appends it: insertion order. */
  lemma PutFresh<K, V>(s: seq<(K, V)>, k: K, v: V, size: int)
    requires k !in Keys(s) && |s| < size
    ensures Put(s, k, v, size) == s + [(k, v)]
  {
  }

  /** Writing a new key into a full dict evicts exactly one entry, the least recently used one
      (the head); the rest keep their order and the new entry comes last. */
  lemma PutEvictsHead<K, V>(s: seq<(K, V)>, k: K, v: V, size: int)
    requires DistinctKeys(s) && k !in Keys(s) && |s| == size >= 1
    ensures Put(s, k, v, size) == s[1..] + [(k, v)]
    ensures |Put(s, k, v, size)| == |s|
    ensures s[0].0 !in Keys(Put(s, k, v, size))
  {
    var r := s[1..] + [(k, v)];
    assert s[0] in s;
    forall j | 0 <= j < |r| ensures r[j].0 != s[0].0 {
      if j < |s| - 1 {
        assert r[j] == s[j + 1];
      }
    }
    NotInKeys(r, s[0].0);
  }

  /** Writes of new, distinct keys that never overflow leave the entries in insertion order. */
  lemma {:induction false} PutAllInOrder<K, V>(s: seq<(K, V)>, kvs: seq<(K, V)>, size: int)
    requires DistinctKeys(s + kvs)
    requires |s| + |kvs| <= size
    ensures PutAll(s, kvs, size) == s + kvs
    decreases |kvs|
  {
    if kvs != [] {
      var k := kvs[0].0;
      forall i | 0 <= i < |s| ensures s[i].0 != k {
        assert (s + kvs)[i] == s[i] && (s + kvs)[|s|] == kvs[0];
      }
      NotInKeys(s, k);
      PutFresh(s, k, kvs[0].1, size);
      assert s + [kvs[0]] + kvs[1..] == s + kvs;
      PutAllInOrder(s + [kvs[0]], kvs[1..], size);
    }
  }

  /** The dictionary itself. `entries` plays the part of the OrderedDict `self.dict`. */
  class LRUDict<K(==), V> {
    /** Maximum number of keys. */
    const size: int
    /** The entries, least recently used first. */
    var entries: seq<(K, V)>

    ghost predicate Valid()
      reads this
    {
      DistinctKeys(entries) && |entries| <= Bound(size)
    }

    constructor (size: int)
      ensures Valid() && this.size == size && entries == []
    {
      this.size := size;
      entries := [];
    }

    /** `k in d`: a pure membership test. */
    method Contains(k: K) returns (b: bool)
      ensures b <==> k in Keys(entries)
    {
      b := Find(entries, k).Some?;
    }

    /** `d[k]`: the value of `k`, which becomes the most recently used key; KeyError (NotFound)
        and no change when `k` is absent. */
    method Get(k: K) returns (r: Result<V>)
      requires Valid()
      modifies this
      ensures Valid()
      ensures k in old(Keys(entries)) ==>
                && r.Ok? && Find(old(entries), k) == Some(r.value)
                && entries == Promote(old(entries), k, r.value)
                && multiset(entries) == multiset(old(entries))
                && entries[|entries| - 1] == (k, r.value)
      ensures k !in old(Keys(entries)) ==> r == Err(NotFound) && entries == old(entries)
    {
      var found := Find(entries, k);
      if found.None? {
        return Err(NotFound);
      }
      ghost var i := KeyIndex(entries, k);
      FindAt(entries, i);
      PromotePresent(entries, i);
      entries := Remove(entries, k);
      entries := entries + [(k, found.value)];
      r := Ok(found.value);
    }

    /** `d[k] = v`: any old entry for `k` is replaced by `(k, v)` at the most-recently-used end;
        if the dict then holds more than `size` keys, its least recently used entry is dropped. */
    method Set(k: K, v: V)
      requires Valid()
      modifies this
      ensures Valid()
      ensures entries == Put(old(entries), k, v, size)
      ensures size >= 1 ==> entries[|entries| - 1] == (k, v) && Find(entries, k) == Some(v)
      ensures k in old(Keys(entries)) ==> |entries| == |old(entries)|
    {
      PutInvariant(entries, k, v, size);
      if size >= 1 {
        PutLast(entries, k, v, size);
      }
      if k in Keys(entries) {
        PutExisting(entries, k, v, size);
      }
      entries := Remove(entries, k);
      entries := entries + [(k, v)];
      if |entries| > size {
        entries := entries[1..];
      }
    }

    /** `del d[k]`: removes exactly the entry for `k`; KeyError (NotFound) when absent. */
    method Delete(k: K) returns (o: Outcome)
      requires Valid()
      modifies this
      ensures Valid()
      ensures k in old(Keys(entries)) ==>
                o == Pass && entries == Remove(old(entries), k) && |entries| == |old(entries)| - 1
      ensures k !in old(Keys(entries)) ==> o == Fail(NotFound) && entries == old(entries)
    {
      if Find(entries, k).None? {
        return Fail(NotFound);
      }
      RemoveDistinct(entries, k);
      entries := Remove(entries, k);
      o := Pass;
    }

    /** `d.items()`: the entries, least recently used first, without changing anything. */
    method Items() returns (r: seq<(K, V)>)
      ensures r == entries
    {
      r := entries;
    }
  }
}
