/**
 * The bounded memo table that `functools.lru_cache(maxsize=n)` puts in front
 * of a function. The table is a sequence of entries ordered from least to
 * most recently used; a hit moves its entry to the end, a miss calls the
 * function and appends what it returned, evicting the first entry when the
 * table is full. A call that raises stores nothing.
 */
module LruCache {
  import opened Wrappers

  datatype Entry<K, V> = Entry(key: K, value: V)

  /** No key is stored twice. */
  ghost predicate DistinctKeys<K, V>(entries: seq<Entry<K, V>>) {
    forall i, j :: 0 <= i < j < |entries| ==> entries[i].key != entries[j].key
  }

  /** Position of the first entry for `key`, or -1 when the key is not stored. */
  function Find<K(==), V>(entries: seq<Entry<K, V>>, key: K): (i: int)
    ensures -1 <= i < |entries|
    ensures 0 <= i ==> entries[i].key == key
    ensures 0 <= i ==> forall j :: 0 <= j < i ==> entries[j].key != key
    ensures i < 0 <==> forall j :: 0 <= j < |entries| ==> entries[j].key != key
  {
    if |entries| == 0 then -1
    else if entries[0].key == key then 0
    else
      var i := Find(entries[1..], key);
      if i < 0 then -1 else i + 1
  }

  /** The value stored for `key`, if any. */
  function Lookup<K(==), V>(entries: seq<Entry<K, V>>, key: K): (r: Option<V>)
    ensures r.None? <==> forall j :: 0 <= j < |entries| ==> entries[j].key != key
    ensures r.Some? ==> Entry(key, r.value) in entries
  {
    var i := Find(entries, key);
    if i < 0 then None else Some(entries[i].value)
  }

  /** A hit: entry `i` becomes the most recently used, the others keep their order. */
  function Touch<K, V>(entries: seq<Entry<K, V>>, i: nat): (r: seq<Entry<K, V>>)
    requires i < |entries|
    ensures |r| == |entries| && r[|r| - 1] == entries[i]
    ensures r[..|r| - 1] == entries[..i] + entries[i + 1..]
    ensures multiset(r) == multiset(entries)
  {
    assert entries == entries[..i] + [entries[i]] + entries[i + 1..];
    entries[..i] + entries[i + 1..] + [entries[i]]
  }

  /**
   * A miss whose call returned: the new entry becomes the most recently used;
   * when the table already holds `maxSize` entries the least recently used
   * one is dropped.
   */
  function Insert<K, V>(entries: seq<Entry<K, V>>, e: Entry<K, V>, maxSize: nat): (r: seq<Entry<K, V>>)
    requires 0 < maxSize
    ensures 0 < |r| && r[|r| - 1] == e
    ensures |entries| <= maxSize ==> |r| <= maxSize
    ensures |entries| < maxSize ==> r[..|r| - 1] == entries
    ensures maxSize <= |entries| ==> r[..|r| - 1] == entries[1..]
  {
    if |entries| < maxSize then entries + [e] else entries[1..] + [e]
  }

  /** What a call answers: the stored value on a hit, otherwise what `compute` gives. */
  function Served<K(==), V, E>(entries: seq<Entry<K, V>>, key: K, compute: K -> Result<V, E>): (r: Result<V, E>)
    ensures Lookup(entries, key).Some? ==> r == Success(Lookup(entries, key).value)
    ensures Lookup(entries, key).None? ==> r == compute(key)
  {
    match Lookup(entries, key)
    case Some(v) => Success(v)
    case None => compute(key)
  }

  /** The table after a call for `key` that answered `r`. */
  function Accessed<K(==), V, E>(entries: seq<Entry<K, V>>, key: K, r: Result<V, E>, maxSize: nat): (after: seq<Entry<K, V>>)
    requires 0 < maxSize
    ensures |entries| <= maxSize ==> |after| <= maxSize
    ensures Find(entries, key) < 0 && r.Failure? ==> after == entries
    ensures 0 <= Find(entries, key) || r.Success? ==> 0 < |after| && after[|after| - 1].key == key
  {
    var i := Find(entries, key);
    if 0 <= i then
      var t := Touch(entries, i);
      assert |t| == |entries| && t[|t| - 1].key == key;
      t
    else if r.Success? then
      var n := Insert(entries, Entry(key, r.value), maxSize);
      assert n[|n| - 1].key == key;
      n
    else entries
  }

  /** With distinct keys, the entry at any position is the one `Lookup` finds. */
  lemma LookupAt<K, V>(entries: seq<Entry<K, V>>, j: nat)
    requires DistinctKeys(entries) && j < |entries|
    ensures Lookup(entries, entries[j].key) == Some(entries[j].value)
  {
  }

  /** Where the entries of `entries` sit after a hit on position `i`. */
  lemma TouchPositions<K, V>(entries: seq<Entry<K, V>>, i: nat)
    requires i < |entries|
    ensures forall j :: 0 <= j < i ==> Touch(entries, i)[j] == entries[j]
    ensures forall j :: i < j < |entries| ==> Touch(entries, i)[j - 1] == entries[j]
  {
    var r := Touch(entries, i);
    assert r[..|r| - 1] == entries[..i] + entries[i + 1..];
  }

  /** A hit keeps the keys distinct. */
  lemma TouchKeepsDistinct<K, V>(entries: seq<Entry<K, V>>, i: nat)
    requires DistinctKeys(entries) && i < |entries|
    ensures DistinctKeys(Touch(entries, i))
  {
    var r := Touch(entries, i);
    var n := |entries|;
    TouchPositions(entries, i);
    forall p, q | 0 <= p < q < n
      ensures r[p].key != r[q].key
    {
      var p' := if p < i then p else p + 1;
      var q' := if q == n - 1 then i else if q < i then q else q + 1;
      assert r[p] == entries[p'] && r[q] == entries[q'] && p' != q';
    }
  }

  /** A hit keeps the keys distinct and every key's stored value. */
  lemma {:induction false} TouchKeepsTable<K, V>(entries: seq<Entry<K, V>>, i: nat, k: K)
    requires DistinctKeys(entries) && i < |entries|
    ensures DistinctKeys(Touch(entries, i))
    ensures Lookup(Touch(entries, i), k) == Lookup(entries, k)
  {
    var r := Touch(entries, i);
    var n := |entries|;
    TouchKeepsDistinct(entries, i);
    TouchPositions(entries, i);
    var j := Find(entries, k);
    if 0 <= j {
      var j' := if j < i then j else if j == i then n - 1 else j - 1;
      assert r[j'] == entries[j];
      LookupAt(r, j');
    } else {
      forall q | 0 <= q < n
        ensures r[q].key != k
      {
        var q' := if q == n - 1 then i else if q < i then q else q + 1;
        assert r[q] == entries[q'];
      }
    }
  }

  /** Where the old entries sit after a stored miss: shifted by one when the first was evicted. */
  lemma InsertPositions<K, V>(entries: seq<Entry<K, V>>, e: Entry<K, V>, maxSize: nat)
    requires 0 < maxSize && |entries| <= maxSize
    ensures var shift := if |entries| == maxSize then 1 else 0;
            && |Insert(entries, e, maxSize)| == |entries| + 1 - shift
            && forall q :: shift <= q < |entries| ==> Insert(entries, e, maxSize)[q - shift] == entries[q]
  {
  }

  /** A stored miss of a new key keeps the keys distinct. */
  lemma InsertKeepsDistinct<K, V>(entries: seq<Entry<K, V>>, e: Entry<K, V>, maxSize: nat)
    requires 0 < maxSize && |entries| <= maxSize
    requires DistinctKeys(entries) && Lookup(entries, e.key) == None
    ensures DistinctKeys(Insert(entries, e, maxSize))
  {
    var r := Insert(entries, e, maxSize);
    var shift := if |entries| == maxSize then 1 else 0;
    InsertPositions(entries, e, maxSize);
    forall p, q | 0 <= p < q < |r|
      ensures r[p].key != r[q].key
    {
      assert r[p] == entries[p + shift];
      if q < |r| - 1 {
        assert r[q] == entries[q + shift];
      }
    }
  }

  /** On a full table a stored miss evicts the first key. */
  lemma InsertEvictsFirst<K, V>(entries: seq<Entry<K, V>>, e: Entry<K, V>, maxSize: nat)
    requires 0 < maxSize && |entries| == maxSize
    requires DistinctKeys(entries) && entries[0].key != e.key
    ensures Lookup(Insert(entries, e, maxSize), entries[0].key) == None
  {
    var r := Insert(entries, e, maxSize);
    InsertPositions(entries, e, maxSize);
    forall q | 0 <= q < |r|
      ensures r[q].key != entries[0].key
    {
      if q < |r| - 1 {
        assert r[q] == entries[q + 1];
        assert entries[0].key != entries[q + 1].key;
      }
    }
  }

  /** A stored key that a stored miss does not evict keeps its value. */
  lemma InsertKeepsStored<K, V>(entries: seq<Entry<K, V>>, e: Entry<K, V>, maxSize: nat, j: nat)
    requires 0 < maxSize && |entries| <= maxSize && j < |entries|
    requires DistinctKeys(Insert(entries, e, maxSize))
    requires |entries| == maxSize ==> 0 < j
    ensures Lookup(Insert(entries, e, maxSize), entries[j].key) == Some(entries[j].value)
  {
    var r := Insert(entries, e, maxSize);
    InsertPositions(entries, e, maxSize);
    var j' := if |entries| == maxSize then j - 1 else j;
    assert r[j'] == entries[j];
    LookupAt(r, j');
  }

  /** A key absent before a stored miss of another key stays absent. */
  lemma InsertKeepsAbsent<K, V>(entries: seq<Entry<K, V>>, e: Entry<K, V>, maxSize: nat, k: K)
    requires 0 < maxSize && |entries| <= maxSize && k != e.key
    requires Lookup(entries, k) == None
    ensures Lookup(Insert(entries, e, maxSize), k) == None
  {
    var r := Insert(entries, e, maxSize);
    var shift := if |entries| == maxSize then 1 else 0;
    InsertPositions(entries, e, maxSize);
    forall q | 0 <= q < |r|
      ensures r[q].key != k
    {
      if q < |r| - 1 {
        assert r[q] == entries[q + shift];
      }
    }
  }

  /** After a stored miss, a key other than the new one keeps its value unless it was evicted. */
  lemma InsertKeepsOthers<K, V>(entries: seq<Entry<K, V>>, e: Entry<K, V>, maxSize: nat, k: K)
    requires 0 < maxSize && |entries| <= maxSize
    requires DistinctKeys(entries) && k != e.key && Lookup(entries, e.key) == None
    ensures Lookup(Insert(entries, e, maxSize), k)
            == if |entries| == maxSize && entries[0].key == k then None else Lookup(entries, k)
  {
    var j := Find(entries, k);
    if |entries| == maxSize && entries[0].key == k {
      InsertEvictsFirst(entries, e, maxSize);
    } else if 0 <= j {
      InsertKeepsDistinct(entries, e, maxSize);
      LookupAt(entries, j);
      InsertKeepsStored(entries, e, maxSize, j);
    } else {
      InsertKeepsAbsent(entries, e, maxSize, k);
    }
  }

  /**
   * A stored miss keeps the keys distinct and the table within `maxSize`;
   * afterwards the new key maps to its value, the evicted least recently used
   * key (if the table was full) maps to nothing, and every other key keeps
   * its value.
   */
  lemma {:induction false} InsertKeepsTable<K, V>(entries: seq<Entry<K, V>>, e: Entry<K, V>, maxSize: nat, k: K)
    requires 0 < maxSize && |entries| <= maxSize
    requires DistinctKeys(entries) && Lookup(entries, e.key) == None
    ensures DistinctKeys(Insert(entries, e, maxSize)) && |Insert(entries, e, maxSize)| <= maxSize
    ensures Lookup(Insert(entries, e, maxSize), e.key) == Some(e.value)
    ensures k != e.key ==>
              Lookup(Insert(entries, e, maxSize), k)
              == if |entries| == maxSize && entries[0].key == k then None else Lookup(entries, k)
  {
    var r := Insert(entries, e, maxSize);
    InsertKeepsDistinct(entries, e, maxSize);
    LookupAt(r, |r| - 1);
    if k != e.key {
      InsertKeepsOthers(entries, e, maxSize, k);
    }
  }

  /**
   * One call keeps the table valid: at most `maxSize` entries, distinct keys.
   * If the call answered a value, that value is now stored for the key, so
   * the next call for it is a hit that answers the same.
   */
  lemma AccessedKeepsTable<K, V, E>(entries: seq<Entry<K, V>>, key: K, compute: K -> Result<V, E>, maxSize: nat)
    requires 0 < maxSize && |entries| <= maxSize && DistinctKeys(entries)
    ensures var after := Accessed(entries, key, Served(entries, key, compute), maxSize);
            && |after| <= maxSize && DistinctKeys(after)
            && (Served(entries, key, compute).Success? ==>
                  Lookup(after, key) == Some(Served(entries, key, compute).value))
  {
    var i := Find(entries, key);
    var r := Served(entries, key, compute);
    if 0 <= i {
      TouchKeepsTable(entries, i, key);
    } else if r.Success? {
      InsertKeepsTable(entries, Entry(key, r.value), maxSize, key);
    }
  }

  /**
   * A hit answers the stored value whatever the wrapped function would
   * answer now.
   */
  lemma ServedOnHit<K, V, E>(entries: seq<Entry<K, V>>, key: K, v: V, c1: K -> Result<V, E>, c2: K -> Result<V, E>)
    requires Lookup(entries, key) == Some(v)
    ensures Served(entries, key, c1) == Served(entries, key, c2) == Success(v)
  {
  }

  /**
   * A call for `key` leaves every other key's stored value alone, except that
   * a stored miss on a full table evicts the least recently used entry.
   */
  lemma AccessedKeepsOthers<K, V, E>(entries: seq<Entry<K, V>>, key: K, r: Result<V, E>, maxSize: nat, k: K)
    requires 0 < maxSize && |entries| <= maxSize && DistinctKeys(entries)
    requires k != key
    ensures Lookup(Accessed(entries, key, r, maxSize), k)
            == if Lookup(entries, key).None? && r.Success? && |entries| == maxSize && entries[0].key == k
               then None
               else Lookup(entries, k)
  {
    var i := Find(entries, key);
    if 0 <= i {
      TouchKeepsTable(entries, i, k);
    } else if r.Success? {
      InsertKeepsTable(entries, Entry(key, r.value), maxSize, k);
    }
  }

  /** The entries whose key is not `key`, in their order in the table. */
  function Without<K(==), V>(entries: seq<Entry<K, V>>, key: K): (r: seq<Entry<K, V>>)
    ensures |r| <= |entries|
    ensures forall e :: e in r ==> e in entries && e.key != key
    ensures (forall j :: 0 <= j < |entries| ==> entries[j].key != key) ==> r == entries
  {
    if |entries| == 0 then []
    else if entries[0].key == key then Without(entries[1..], key)
    else [entries[0]] + Without(entries[1..], key)
  }

  lemma {:induction false} WithoutAppend<K, V>(a: seq<Entry<K, V>>, b: seq<Entry<K, V>>, key: K)
    ensures Without(a + b, key) == Without(a, key) + Without(b, key)
    decreases |a|
  {
    if |a| == 0 {
      assert a + b == b;
    } else {
      assert (a + b)[1..] == a[1..] + b;
      WithoutAppend(a[1..], b, key);
    }
  }

  /** A table is what lies before position `i`, the entry at `i`, and what lies after. */
  lemma SplitAt<K, V>(entries: seq<Entry<K, V>>, i: nat)
    requires i < |entries|
    ensures entries == entries[..i] + [entries[i]] + entries[i + 1..]
  {
  }

  /** An entry for `key` itself vanishes from `Without`. */
  lemma WithoutOwnKey<K, V>(e: Entry<K, V>, key: K)
    ensures Without([e], key) == if e.key == key then [] else [e]
  {
    assert [e][1..] == [];
  }

  /** `Without` taken around one entry in the middle of a table. */
  lemma WithoutAround<K, V>(pre: seq<Entry<K, V>>, e: Entry<K, V>, post: seq<Entry<K, V>>, key: K)
    ensures Without(pre + [e] + post, key) == Without(pre, key) + Without([e], key) + Without(post, key)
  {
    WithoutAppend(pre + [e], post, key);
    WithoutAppend(pre, [e], key);
  }

  /** Moving the entry for `key` to the end does not change the order of the others. */
  lemma MoveToEndKeepsOrder<K, V>(pre: seq<Entry<K, V>>, e: Entry<K, V>, post: seq<Entry<K, V>>)
    ensures Without(pre + post + [e], e.key) == Without(pre + [e] + post, e.key)
  {
    WithoutAround(pre, e, post, e.key);
    WithoutAppend(pre + post, [e], e.key);
    WithoutAppend(pre, post, e.key);
    WithoutOwnKey(e, e.key);
  }

  /** A hit keeps the relative order of the other keys. */
  lemma TouchKeepsOrder<K, V>(entries: seq<Entry<K, V>>, i: nat)
    requires i < |entries|
    ensures Without(Touch(entries, i), entries[i].key) == Without(entries, entries[i].key)
  {
    SplitAt(entries, i);
    MoveToEndKeepsOrder(entries[..i], entries[i], entries[i + 1..]);
  }

  /** A stored miss keeps the order of the old entries, minus the evicted first one. */
  lemma InsertKeepsOrder<K, V>(entries: seq<Entry<K, V>>, e: Entry<K, V>, maxSize: nat)
    requires 0 < maxSize
    requires forall j :: 0 <= j < |entries| ==> entries[j].key != e.key
    ensures Without(Insert(entries, e, maxSize), e.key)
            == if |entries| < maxSize then entries else entries[1..]
  {
    var after := Insert(entries, e, maxSize);
    var kept := after[..|after| - 1];
    assert after == kept + [e];
    WithoutAppend(kept, [e], e.key);
    WithoutOwnKey(e, e.key);
    assert forall j :: 0 <= j < |kept| ==> kept[j].key != e.key;
  }

  /**
   * The recency order after a call for `key`: the other keys keep their
   * relative order, losing only the first (least recently used) entry when a
   * stored miss finds the table full; a hit or a stored miss leaves `key` as
   * the most recently used entry; a raised miss changes nothing. So the
   * entry a later eviction drops is always the one used longest ago.
   */
  lemma AccessedKeepsOrder<K, V, E>(entries: seq<Entry<K, V>>, key: K, r: Result<V, E>, maxSize: nat)
    requires 0 < maxSize && |entries| <= maxSize
    ensures var after := Accessed(entries, key, r, maxSize);
            && Without(after, key)
               == (if Lookup(entries, key).None? && r.Success? && |entries| == maxSize
                   then entries[1..] else Without(entries, key))
            && (Lookup(entries, key).Some? || r.Success? ==> 0 < |after| && after[|after| - 1].key == key)
            && (Lookup(entries, key).None? && r.Failure? ==> after == entries)
  {
    var i := Find(entries, key);
    if 0 <= i {
      TouchKeepsOrder(entries, i);
    } else if r.Success? {
      InsertKeepsOrder(entries, Entry(key, r.value), maxSize);
    }
  }

  /** `lru_cache(maxsize)` state: the entry table and the `cache_info()` counters. */
  class Cache<K(==), V> {
    const maxSize: nat
    var entries: seq<Entry<K, V>>
    var hits: nat
    /** Counts the calls that reached the wrapped function. */
    var misses: nat

    ghost predicate Valid()
      reads this
    {
      0 < maxSize && |entries| <= maxSize && DistinctKeys(entries)
    }

    constructor (maxSize: nat)
      requires 0 < maxSize
      ensures Valid() && this.maxSize == maxSize
      ensures entries == [] && hits == 0 && misses == 0
    {
      this.maxSize := maxSize;
      entries := [];
      hits, misses := 0, 0;
    }

    /**
     * Call the cached function on `key`. A hit answers the stored value and
     * does not call `compute`; a miss calls it once and stores what it
     * returns, `None`-like values included, but not a raised error.
     */
    method Get<E>(key: K, compute: K -> Result<V, E>) returns (r: Result<V, E>)
      requires Valid()
      modifies this
      ensures Valid()
      ensures r == Served(old(entries), key, compute)
      ensures entries == Accessed(old(entries), key, r, maxSize)
      ensures old(Lookup(entries, key)).Some? ==> hits == old(hits) + 1 && misses == old(misses)
      ensures old(Lookup(entries, key)).None? ==> hits == old(hits) && misses == old(misses) + 1
    {
      ghost var before := entries;
      AccessedKeepsTable(before, key, compute, maxSize);
      var i := Find(entries, key);
      if 0 <= i {
        r := Success(entries[i].value);
        entries := Touch(entries, i);
        hits := hits + 1;
      } else {
        misses := misses + 1;
        r := compute(key);
        if r.Success? {
          entries := Insert(entries, Entry(key, r.value), maxSize);
        }
      }
      assert r == Served(before, key, compute);
      assert entries == Accessed(before, key, r, maxSize);
    }
  }
}
