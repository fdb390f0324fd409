/**
 * The abstract content of a TitanCache: its keys from most to least recently
 * used, and the value stored under each. The operations here are the meaning
 * of the cache's `get`, `put` and `clear`; the linked implementation in
 * module TitanCacheImpl is proved to follow them.
 */
module LruModel {
  import opened Wrappers
  import Text

  /** `order[0]` is the most recently used key, `order[|order| - 1]` the least. */
  datatype Lru = Lru(order: seq<string>, values: map<string, string>)

  /** Positions `i` and `j` of `s` hold different elements. */
  predicate Differ<T(==)>(s: seq<T>, i: int, j: int) {
    0 <= i < |s| && 0 <= j < |s| && s[i] != s[j]
  }

  /**
   * No element occurs twice in `s`. The quantifier is triggered only by
   * `Differ` terms, so each proof names the pairs of positions it needs.
   */
  predicate Distinct<T(==)>(s: seq<T>) {
    forall i, j | 0 <= i < j < |s| :: Differ(s, i, j)
  }

  /** The cache invariant: each key once, exactly the mapped keys, and no more keys than the capacity. */
  predicate Valid(c: Lru, capacity: int) {
    && Distinct(c.order)
    && (forall k | k in c.values :: k in c.order)
    && (forall k | k in c.order :: k in c.values)
    && (capacity >= 0 ==> |c.order| <= capacity)
  }

  function Empty(): Lru {
    Lru([], map[])
  }

  /** `s` without `k`, the other keys in their old relative order. */
  function Remove(s: seq<string>, k: string): (r: seq<string>)
    ensures forall x :: x in r <==> x in s && x != k
    ensures |r| <= |s|
  {
    if s == [] then []
    else if s[0] == k then Remove(s[1..], k)
    else [s[0]] + Remove(s[1..], k)
  }

  /** `k` moved (or added) to the front: the most recently used position. */
  function Touch(s: seq<string>, k: string): seq<string> {
    [k] + Remove(s, k)
  }

  datatype GetResult = GetResult(value: Option<string>, cache: Lru)

  /** `get`: a hit returns the value and moves the key to the front; a miss returns null and changes nothing. */
  function Get(c: Lru, k: string): GetResult {
    if k in c.values then GetResult(Some(c.values[k]), Lru(Touch(c.order, k), c.values))
    else GetResult(None, c)
  }

  /** The cache without its least recently used key. */
  function EvictLast(c: Lru): (r: Lru)
    requires c.order != []
    ensures |r.order| == |c.order| - 1
  {
    var lru := c.order[|c.order| - 1];
    Lru(c.order[..|c.order| - 1], c.values - {lru})
  }

  /** A new key stored in front, the most recently used position. */
  function Insert(c: Lru, k: string, v: string): Lru {
    Lru([k] + c.order, c.values[k := v])
  }

  /**
   * `put`. The result is None when the call ends in a NullPointerException:
   * with capacity 0 and an empty cache, `tail.prev` is the head sentinel, and
   * unlinking it dereferences its null `prev` before anything is changed.
   */
  function Put(c: Lru, capacity: int, maxEntrySize: int, k: string, v: string): Option<Lru> {
    if Text.JavaLength(v) > maxEntrySize then Some(c)
    else if k in c.values then Some(Lru(Touch(c.order, k), c.values[k := v]))
    else if |c.values| == capacity then
      if c.order == [] then None
      else Some(Insert(EvictLast(c), k, v))
    else Some(Insert(c, k, v))
  }

  // ---------------------------------------------------------------------------
  // Facts about Remove

  lemma {:induction false} RemoveAbsent(s: seq<string>, k: string)
    requires k !in s
    ensures Remove(s, k) == s
  {
    if s != [] {
      RemoveAbsent(s[1..], k);
    }
  }

  /** Two different positions of a list without duplicates hold different elements. */
  lemma DistinctAt<T>(s: seq<T>, i: nat, j: nat)
    requires Distinct(s) && i < |s| && j < |s| && i != j
    ensures s[i] != s[j]
  {
    if i < j {
      assert Differ(s, i, j);
    } else {
      assert Differ(s, j, i);
    }
  }

  /** The tail of a list without duplicates has none, and does not hold the head. */
  lemma DistinctTail<T>(s: seq<T>)
    requires Distinct(s) && s != []
    ensures Distinct(s[1..]) && s[0] !in s[1..]
  {
    forall i, j | 0 <= i < j < |s| - 1
      ensures Differ(s[1..], i, j)
    {
      assert Differ(s, i + 1, j + 1);
    }
    forall k | 0 <= k < |s| - 1
      ensures s[1..][k] != s[0]
    {
      assert Differ(s, 0, k + 1);
    }
  }

  /** A prefix of a list without duplicates has none. */
  lemma DistinctPrefix<T>(s: seq<T>, n: nat)
    requires Distinct(s) && n <= |s|
    ensures Distinct(s[..n])
  {
    forall i, j | 0 <= i < j < n
      ensures Differ(s[..n], i, j)
    {
      assert Differ(s, i, j);
    }
  }

  /** An element that is not in a list without duplicates can be put in front of it. */
  lemma DistinctCons<T>(x: T, s: seq<T>)
    requires Distinct(s) && x !in s
    ensures Distinct([x] + s)
  {
    var t := [x] + s;
    forall i, j | 0 <= i < j < |t|
      ensures Differ(t, i, j)
    {
      if i == 0 {
        assert t[j] == s[j - 1];
      } else {
        assert Differ(s, i - 1, j - 1);
      }
    }
  }

  lemma {:induction false} RemoveDistinct(s: seq<string>, k: string)
    requires Distinct(s)
    ensures Distinct(Remove(s, k))
  {
    if s != [] {
      DistinctTail(s);
      RemoveDistinct(s[1..], k);
      var r := Remove(s[1..], k);
      if s[0] != k {
        assert s[0] !in r;
        DistinctCons(s[0], r);
      }
    }
  }

  /** In a list without duplicates, removing a key deletes exactly the position that holds it. */
  lemma {:induction false} RemoveAt(s: seq<string>, i: nat)
    requires Distinct(s) && i < |s|
    ensures Remove(s, s[i]) == s[..i] + s[i + 1..]
  {
    DistinctTail(s);
    if i == 0 {
      RemoveAbsent(s[1..], s[0]);
    } else {
      RemoveAt(s[1..], i - 1);
      assert s[1..][i - 1] == s[i];
      DistinctAt(s, 0, i);
      assert s[1..][..i - 1] + s[1..][i..] == s[1..i] + s[i + 1..];
      assert [s[0]] + (s[1..i] + s[i + 1..]) == s[..i] + s[i + 1..];
    }
  }

  /** A list without duplicates has as many elements as the set of its elements. */
  lemma {:induction false} DistinctCard(s: seq<string>)
    requires Distinct(s)
    ensures |set x | x in s| == |s|
  {
    if s != [] {
      DistinctTail(s);
      DistinctCard(s[1..]);
      var t := set x | x in s[1..];
      assert (set x | x in s) == t + {s[0]};
      assert s[0] !in t;
    }
  }

  /** Under the invariant the map size, which `put` compares with the capacity, is the list length. */
  lemma ValidSize(c: Lru, capacity: int)
    requires Valid(c, capacity)
    ensures |c.values| == |c.order|
  {
    DistinctCard(c.order);
    assert c.values.Keys == set x | x in c.order;
  }

  // ---------------------------------------------------------------------------
  // Properties of the operations

  /** A new or cleared cache satisfies the invariant for every capacity that is not negative. */
  lemma EmptyValid(capacity: int)
    requires capacity >= 0
    ensures Valid(Empty(), capacity)
  {
  }

  lemma GetPreservesValid(c: Lru, capacity: int, k: string)
    requires Valid(c, capacity)
    ensures Valid(Get(c, k).cache, capacity)
  {
    if k in c.values {
      RemoveDistinct(c.order, k);
      DistinctCons(k, Remove(c.order, k));
      var i :| 0 <= i < |c.order| && c.order[i] == k;
      RemoveAt(c.order, i);
    }
  }

  /**
   * A hit returns the stored value, puts the key in front, keeps the relative
   * order of every other key and changes no value; a miss changes nothing.
   */
  lemma {:induction false} GetSpec(c: Lru, capacity: int, k: string)
    requires Valid(c, capacity)
    ensures var r := Get(c, k);
      if k in c.order then
        && r.value == Some(c.values[k])
        && r.cache.order[0] == k
        && Remove(r.cache.order, k) == Remove(c.order, k)
        && |r.cache.order| == |c.order|
        && r.cache.values == c.values
      else r.value == None && r.cache == c
  {
    if k in c.order {
      var i :| 0 <= i < |c.order| && c.order[i] == k;
      RemoveAt(c.order, i);
      var rest := Remove(c.order, k);
      RemoveAbsent(rest, k);
      assert Get(c, k).cache.order == [k] + rest;
      assert ([k] + rest)[1..] == rest;
    }
  }

  /** Dropping the least recently used key keeps the invariant. */
  lemma EvictLastValid(c: Lru, capacity: int)
    requires Valid(c, capacity) && c.order != []
    ensures Valid(EvictLast(c), capacity)
  {
    var n := |c.order|;
    var lru := c.order[n - 1];
    var kept := c.order[..n - 1];
    DistinctPrefix(c.order, n - 1);
    assert forall x :: x in kept <==> x in c.order && x != lru by {
      forall x ensures x in kept <==> x in c.order && x != lru {
        if x in c.order && x != lru {
          var j :| 0 <= j < n && c.order[j] == x;
          assert j < n - 1;
          assert kept[j] == x;
        }
        if x in kept {
          var j :| 0 <= j < n - 1 && kept[j] == x;
          DistinctAt(c.order, j, n - 1);
        }
      }
    }
  }

  /** Storing a new key in front keeps the invariant while there is room for it. */
  lemma InsertValid(c: Lru, capacity: int, k: string, v: string)
    requires Valid(c, capacity) && k !in c.values
    requires capacity < 0 || |c.order| < capacity
    ensures Valid(Insert(c, k, v), capacity)
  {
    DistinctCons(k, c.order);
  }

  lemma PutPreservesValid(c: Lru, capacity: int, maxEntrySize: int, k: string, v: string)
    requires Valid(c, capacity)
    ensures var r := Put(c, capacity, maxEntrySize, k, v);
      r.Some? ==> Valid(r.value, capacity)
  {
    ValidSize(c, capacity);
    if Text.JavaLength(v) > maxEntrySize {
    } else if k in c.values {
      GetPreservesValid(c, capacity, k);
    } else if |c.values| == capacity {
      if c.order != [] {
        EvictLastValid(c, capacity);
        InsertValid(EvictLast(c), capacity, k, v);
      }
    } else {
      InsertValid(c, capacity, k, v);
    }
  }

  /** An oversize value changes nothing: an existing key keeps its old value. */
  lemma PutOversize(c: Lru, capacity: int, maxEntrySize: int, k: string, v: string)
    requires Text.JavaLength(v) > maxEntrySize
    ensures Put(c, capacity, maxEntrySize, k, v) == Some(c)
  {
  }

  /** Updating a present key replaces its value and moves it to the front; the size is unchanged and nothing is evicted. */
  lemma {:induction false} PutExisting(c: Lru, capacity: int, maxEntrySize: int, k: string, v: string)
    requires Valid(c, capacity) && k in c.values && Text.JavaLength(v) <= maxEntrySize
    ensures var r := Put(c, capacity, maxEntrySize, k, v);
      && r.Some?
      && r.value.order[0] == k
      && Remove(r.value.order, k) == Remove(c.order, k)
      && r.value.values == c.values[k := v]
      && |r.value.order| == |c.order|
      && r.value.values.Keys == c.values.Keys
  {
    var i :| 0 <= i < |c.order| && c.order[i] == k;
    RemoveAt(c.order, i);
    var rest := Remove(c.order, k);
    RemoveAbsent(rest, k);
    assert ([k] + rest)[1..] == rest;
  }

  /** A new key in a full cache evicts exactly the least recently used key and goes in front. */
  lemma PutEvicts(c: Lru, capacity: int, maxEntrySize: int, k: string, v: string)
    requires Valid(c, capacity) && capacity >= 1 && k !in c.values && Text.JavaLength(v) <= maxEntrySize
    requires |c.order| == capacity
    ensures var r := Put(c, capacity, maxEntrySize, k, v);
      var lru := c.order[|c.order| - 1];
      && r.Some?
      && r.value.order == [k] + c.order[..|c.order| - 1]
      && lru !in r.value.values
      && r.value.values == (c.values - {lru})[k := v]
      && |r.value.order| == capacity
  {
    ValidSize(c, capacity);
  }

  /** A new key in a cache that is not full goes in front and nothing is evicted. */
  lemma PutGrows(c: Lru, capacity: int, maxEntrySize: int, k: string, v: string)
    requires Valid(c, capacity) && k !in c.values && Text.JavaLength(v) <= maxEntrySize
    requires |c.order| != capacity
    ensures var r := Put(c, capacity, maxEntrySize, k, v);
      && r == Some(Lru([k] + c.order, c.values[k := v]))
      && |r.value.order| == |c.order| + 1
  {
    ValidSize(c, capacity);
  }

  /** `put` throws exactly when a new, small enough key meets a cache of capacity 0. */
  lemma PutThrowsIff(c: Lru, capacity: int, maxEntrySize: int, k: string, v: string)
    requires Valid(c, capacity)
    ensures Put(c, capacity, maxEntrySize, k, v).None? <==>
      Text.JavaLength(v) <= maxEntrySize && k !in c.values && capacity == 0
  {
    ValidSize(c, capacity);
  }

  /** After a successful `put` of a value that fits, a `get` of the same key returns it. */
  lemma PutThenGet(c: Lru, capacity: int, maxEntrySize: int, k: string, v: string)
    requires Valid(c, capacity)
    requires Text.JavaLength(v) <= maxEntrySize && Put(c, capacity, maxEntrySize, k, v).Some?
    ensures Get(Put(c, capacity, maxEntrySize, k, v).value, k).value == Some(v)
  {
  }

  /** A `put` of another key never turns a miss into a hit: it can only add its own key. */
  lemma PutOtherKeepsMiss(c: Lru, capacity: int, maxEntrySize: int, k: string, v: string, other: string)
    requires other != k && other !in c.values
    requires Put(c, capacity, maxEntrySize, k, v).Some?
    ensures other !in Put(c, capacity, maxEntrySize, k, v).value.values
  {
  }
}
