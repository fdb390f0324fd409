/**
 * TitanCache: a capacity-bounded least-recently-used cache built from a hash
 * map that points into a doubly linked list with sentinel head and tail
 * nodes. The front of the list (just after `head`) is the most recently used
 * entry; the node just before `tail` is the one `put` evicts.
 *
 * Keys and values are strings, as in the cache the line-protocol server uses.
 * A node's key and value are Options: `None` is Java's `null`, which only the
 * two sentinels hold.
 */
module TitanCacheImpl {
  import opened Wrappers
  import LruModel
  import Text

  /** A list node; TitanCache rewrites its `next`, `prev` and `value` in place. */
  class CacheNode {
    var key: Option<string>
    var value: Option<string>
    var next: CacheNode?
    var prev: CacheNode?

    /** Stores exactly the given key and value; the node starts unlinked. */
    constructor (key: Option<string>, value: Option<string>)
      ensures this.key == key && this.value == value
      ensures next == null && prev == null
    {
      this.key := key;
      this.value := value;
      next := null;
      prev := null;
    }
  }

  // ---------------------------------------------------------------------------
  // The shapes of the node list before and after one operation

  /** `L[p]` unlinked and relinked right after `L[0]`. */
  function MoveFront<T>(L: seq<T>, p: nat): (r: seq<T>)
    requires 0 < p < |L|
    ensures |r| == |L| && r[0] == L[0] && r[1] == L[p]
    ensures forall j | 2 <= j <= p :: r[j] == L[j - 1]
    ensures forall j | p < j < |L| :: r[j] == L[j]
  {
    [L[0], L[p]] + (L[1..p] + L[p + 1..])
  }

  /** `s[i]` put in front of the others, which keep their order. */
  function ToFront<T>(s: seq<T>, i: nat): (r: seq<T>)
    requires i < |s|
    ensures |r| == |s| && r[0] == s[i]
    ensures forall j | 1 <= j <= i :: r[j] == s[j - 1]
    ensures forall j | i < j < |s| :: r[j] == s[j]
  {
    [s[i]] + (s[..i] + s[i + 1..])
  }

  /** Moving one element to the front keeps the same elements. */
  lemma MoveFrontMembers<T>(L: seq<T>, p: nat)
    requires 0 < p < |L| - 1
    ensures forall n :: n in MoveFront(L, p) <==> n in L
  {
    var L' := MoveFront(L, p);
    forall n ensures n in L' <==> n in L {
      if n in L {
        var k :| 0 <= k < |L| && L[k] == n;
        if k == 0 {
          assert L'[0] == n;
        } else if k == p {
          assert L'[1] == n;
        } else if k < p {
          assert L'[k + 1] == n;
        } else {
          assert L'[k] == n;
        }
      }
      if n in L' {
        var k :| 0 <= k < |L'| && L'[k] == n;
        if k == 0 {
        } else if k == 1 {
        } else if k <= p {
          assert L[k - 1] == n;
        } else {
          assert L[k] == n;
        }
      }
    }
  }

  // ---------------------------------------------------------------------------
  // What the nodes stand for

  /** The node `list[i + 1]` holds key `order[i]` and its value, and `index` sends that key to it. */
  ghost predicate StoredAt(list: seq<CacheNode>, order: seq<string>, values: map<string, string>,
                           index: map<string, CacheNode>, i: int)
    reads list`key, list`value
  {
    && 0 <= i < |order| && |list| == |order| + 2
    && order[i] in values
    && list[i + 1].key == Some(order[i])
    && list[i + 1].value == Some(values[order[i]])
    && order[i] in index && index[order[i]] == list[i + 1]
  }

  /**
   * The nodes after `list[0]` hold the keys of `order` in that order, with
   * their values, and `index` sends each of those keys to its node. The
   * quantifier is triggered only by `StoredAt` terms.
   */
  ghost predicate Stores(list: seq<CacheNode>, order: seq<string>, values: map<string, string>,
                         index: map<string, CacheNode>)
    reads list`key, list`value
  {
    && |list| == |order| + 2
    && forall i | 0 <= i < |order| :: StoredAt(list, order, values, index, i)
  }

  /**
   * What the list (sentinels included) and the map stand for: the abstract
   * cache `c`, which keeps the LRU invariant, with the map's keys exactly
   * the cached keys.
   */
  ghost predicate Abs(list: seq<CacheNode>, c: LruModel.Lru, index: map<string, CacheNode>, capacity: int)
    reads list`key, list`value
  {
    && LruModel.Valid(c, capacity)
    && index.Keys == c.values.Keys
    && Stores(list, c.order, c.values, index)
  }

  lemma StoresMoveFront(L: seq<CacheNode>, order: seq<string>, values: map<string, string>,
                        index: map<string, CacheNode>, p: nat)
    requires Stores(L, order, values, index) && 0 < p < |L| - 1
    ensures Stores(MoveFront(L, p), ToFront(order, p - 1), values, index)
  {
    var L' := MoveFront(L, p);
    var o := ToFront(order, p - 1);
    forall j | 0 <= j < |o|
      ensures StoredAt(L', o, values, index, j)
    {
      if j == 0 {
        assert StoredAt(L, order, values, index, p - 1);
      } else if j <= p - 1 {
        assert StoredAt(L, order, values, index, j - 1);
        assert o[j] == order[j - 1] && L'[j + 1] == L[j];
      } else {
        assert StoredAt(L, order, values, index, j);
        assert o[j] == order[j] && L'[j + 1] == L[j + 1];
      }
    }
  }

  /** Moving the node of a present key to the front is what `get` does to the abstract cache. */
  lemma AbsTouch(L: seq<CacheNode>, c: LruModel.Lru, index: map<string, CacheNode>, capacity: int, p: nat)
    requires Abs(L, c, index, capacity) && 0 < p < |L| - 1
    ensures Abs(MoveFront(L, p), LruModel.Get(c, c.order[p - 1]).cache, index, capacity)
  {
    var k := c.order[p - 1];
    LruModel.RemoveAt(c.order, p - 1);
    LruModel.GetPreservesValid(c, capacity, k);
    StoresMoveFront(L, c.order, c.values, index, p);
    assert LruModel.Touch(c.order, k) == ToFront(c.order, p - 1);
  }

  /** Unlinking the node before the tail sentinel is what evicting the least recently used key does. */
  lemma AbsEvict(L: seq<CacheNode>, c: LruModel.Lru, index: map<string, CacheNode>, capacity: int)
    requires Abs(L, c, index, capacity) && |L| >= 3
    ensures c.order != [] && L[|L| - 2].key == Some(c.order[|c.order| - 1])
    ensures Abs(L[..|L| - 2] + L[|L| - 1..], LruModel.EvictLast(c), index - {c.order[|c.order| - 1]}, capacity)
  {
    var n := |c.order|;
    var gone := c.order[n - 1];
    var L' := L[..|L| - 2] + L[|L| - 1..];
    var c' := LruModel.EvictLast(c);
    LruModel.EvictLastValid(c, capacity);
    assert StoredAt(L, c.order, c.values, index, n - 1);
    forall j | 0 <= j < n - 1
      ensures StoredAt(L', c'.order, c'.values, index - {gone}, j)
    {
      assert StoredAt(L, c.order, c.values, index, j) && LruModel.Differ(c.order, j, n - 1);
      assert c'.order[j] == c.order[j] && L'[j + 1] == L[j + 1];
    }
  }

  lemma StoresInsert(L: seq<CacheNode>, L': seq<CacheNode>, order: seq<string>, values: map<string, string>,
                     index: map<string, CacheNode>, node: CacheNode, k: string, v: string)
    requires Stores(L, order, values, index) && L' == [L[0], node] + L[1..]
    requires node.key == Some(k) && node.value == Some(v) && k !in order
    ensures Stores(L', [k] + order, values[k := v], index[k := node])
  {
    var o, values', index' := [k] + order, values[k := v], index[k := node];
    forall j | 0 <= j < |o|
      ensures StoredAt(L', o, values', index', j)
    {
      if j > 0 {
        assert StoredAt(L, order, values, index, j - 1);
        assert o[j] == order[j - 1] && L'[j + 1] == L[j] && o[j] != k;
      }
    }
  }

  /** Linking a fresh node for a new key right after the head is what storing that key in front does. */
  lemma AbsInsert(L: seq<CacheNode>, L': seq<CacheNode>, c: LruModel.Lru, index: map<string, CacheNode>, capacity: int,
                  node: CacheNode, k: string, v: string)
    requires Abs(L, c, index, capacity) && L' == [L[0], node] + L[1..]
    requires node.key == Some(k) && node.value == Some(v) && k !in c.values
    requires capacity < 0 || |c.order| < capacity
    ensures Abs(L', LruModel.Insert(c, k, v), index[k := node], capacity)
  {
    LruModel.InsertValid(c, capacity, k, v);
    StoresInsert(L, L', c.order, c.values, index, node, k, v);
  }

  /** `node.value = v` on the node in list position `p`: the abstract cache maps that node's key to `v`. */
  method StoreValue(node: CacheNode, v: string, ghost L: seq<CacheNode>, ghost c: LruModel.Lru,
                    ghost index: map<string, CacheNode>, ghost capacity: int, ghost p: nat)
    requires Abs(L, c, index, capacity) && 0 < p < |L| - 1 && L[p] == node
    modifies node`value
    ensures Abs(L, LruModel.Lru(c.order, c.values[c.order[p - 1] := v]), index, capacity)
    ensures node.value == Some(v)
  {
    ghost var i := p - 1;
    ghost var values' := c.values[c.order[i] := v];
    node.value := Some(v);
    forall j | 0 <= j < |c.order|
      ensures StoredAt(L, c.order, values', index, j)
    {
      assert old(StoredAt(L, c.order, c.values, index, j)) && old(StoredAt(L, c.order, c.values, index, i));
      if j != i {
        LruModel.DistinctAt(c.order, j, i);
      }
    }
  }

  /** `list[i]` and `list[i + 1]` are linked to each other through `next` and `prev`. */
  ghost predicate LinkedAt(list: seq<CacheNode>, i: int)
    reads list`next, list`prev
  {
    0 <= i < |list| - 1 && list[i].next == list[i + 1] && list[i + 1].prev == list[i]
  }

  class TitanCache {
    const capacity: int
    const maxEntrySizeBytes: int
    var index: map<string, CacheNode>
    const head: CacheNode
    const tail: CacheNode

    /** The list as it is linked: `head`, the entries most recent first, `tail`. */
    ghost var list: seq<CacheNode>
    /** The abstract content the cache stands for. */
    ghost var Contents: LruModel.Lru
    ghost var Repr: set<object>

    /**
     * `head` to `tail` through `next` is `list`, and `prev` walks it
     * backwards; no node twice. The quantifier is triggered only by
     * `LinkedAt` terms.
     */
    ghost predicate Linked()
      reads this`list, list`next, list`prev
    {
      && |list| >= 2
      && list[0] == head && list[|list| - 1] == tail
      && head.prev == null && tail.next == null
      && LruModel.Distinct(list)
      && (forall i | 0 <= i < |list| - 1 :: LinkedAt(list, i))
    }

    /** Every node of the list belongs to the cache's footprint. */
    ghost predicate Owned()
      reads this`list, this`Repr
    {
      forall n | n in list :: n in Repr
    }

    /**
     * The structure invariant: a well-formed list between the sentinels whose
     * nodes hold exactly the map's keys, each once, with `index[k]` the node
     * holding k, and no more entries than the capacity.
     */
    ghost predicate Valid()
      reads this, Repr
      ensures Valid() ==> this in Repr
    {
      && this in Repr
      && Owned()
      && Linked()
      && head.key == None && head.value == None
      && tail.key == None && tail.value == None
      && Abs(list, Contents, index, capacity)
    }

    /** A new cache is empty: no entries, `head.next == tail` and `tail.prev == head`. */
    constructor (capacity: int, maxEntrySizeBytes: int)
      ensures Valid() && fresh(Repr)
      ensures Contents == LruModel.Empty()
      ensures this.capacity == capacity && this.maxEntrySizeBytes == maxEntrySizeBytes
      ensures index == map[] && head.next == tail && tail.prev == head
    {
      this.capacity := capacity;
      this.maxEntrySizeBytes := maxEntrySizeBytes;
      index := map[];
      var h := new CacheNode(None, None);
      var t := new CacheNode(None, None);
      head := h;
      tail := t;
      new;
      head.next := tail;
      tail.prev := head;
      list := [head, tail];
      Contents := LruModel.Empty();
      Repr := {this, head, tail};
    }

    /** Empties the cache: the map is cleared and the sentinels are linked to each other again. */
    method Clear()
      requires Valid()
      modifies Repr
      ensures Valid() && Repr <= old(Repr)
      ensures Contents == LruModel.Empty()
      ensures index == map[] && head.next == tail && tail.prev == head
    {
      assert LruModel.Differ(list, 0, |list| - 1);
      index := map[];
      head.next := tail;
      tail.prev := head;
      list := [head, tail];
      Contents := LruModel.Empty();
      Repr := {this, head, tail};
    }

    /** Unlinks `list[p]` by making its neighbours point at each other; the node keeps its own links. */
    method RemoveNode(node: CacheNode, ghost p: nat) returns (r: CacheNode)
      requires Linked() && 0 < p < |list| - 1 && list[p] == node
      modifies this`list, (list[p - 1] as CacheNode)`next, (list[p + 1] as CacheNode)`prev
      ensures list == old(list[..p] + list[p + 1..])
      ensures Linked() && r == node
    {
      ghost var L := list;
      assert LinkedAt(L, p - 1) && LinkedAt(L, p);
      assert LruModel.Differ(L, 0, p + 1) && LruModel.Differ(L, p - 1, |L| - 1);
      node.prev.next := node.next;
      node.next.prev := node.prev;
      list := list[..p] + list[p + 1..];
      r := node;
      forall i | 0 <= i < |list| - 1
        ensures LinkedAt(list, i)
      {
        if i < p - 1 {
          assert old(LinkedAt(L, i)) && LruModel.Differ(L, i, p - 1) && LruModel.Differ(L, i + 1, p + 1);
        } else if i >= p {
          assert old(LinkedAt(L, i + 1)) && LruModel.Differ(L, p - 1, i + 1) && LruModel.Differ(L, p + 1, i + 2);
        }
      }
      forall i, j | 0 <= i < j < |list|
        ensures LruModel.Differ(list, i, j)
      {
        var i', j' := if i < p then i else i + 1, if j < p then j else j + 1;
        assert LruModel.Differ(L, i', j');
      }
    }

    /** Links `node` in right after `head`: the most recently used position. */
    method AddNode(node: CacheNode)
      requires Linked() && node !in list
      modifies this`list, node`prev, node`next, head`next, (list[1] as CacheNode)`prev
      ensures list == [old(list[0]), node] + old(list[1..])
      ensures Linked()
    {
      ghost var L := list;
      assert LinkedAt(L, 0) && LruModel.Differ(L, 0, 1) && LruModel.Differ(L, 0, |L| - 1);
      var oldNext := head.next;
      node.prev := head;
      node.next := oldNext;
      head.next := node;
      oldNext.prev := node;
      list := [head, node] + list[1..];
      forall i | 0 <= i < |list| - 1
        ensures LinkedAt(list, i)
      {
        if i >= 2 {
          assert old(LinkedAt(L, i - 1)) && LruModel.Differ(L, 0, i - 1) && LruModel.Differ(L, 1, i);
          assert L[i - 1] != node && L[i] != node;
        }
      }
      forall i, j | 0 <= i < j < |list|
        ensures LruModel.Differ(list, i, j)
      {
        if i >= 2 {
          assert LruModel.Differ(L, i - 1, j - 1);
        } else if i == 0 && j >= 2 {
          assert LruModel.Differ(L, 0, j - 1);
        } else if j >= 2 {
          assert L[j - 1] != node;
        }
      }
    }

    /** `removeNode` followed by `addNode` of the node in list position `p`: it moves to the front. */
    method MoveToFront(node: CacheNode, ghost p: nat, ghost c: LruModel.Lru, ghost ix: map<string, CacheNode>)
      requires Linked() && 0 < p < |list| - 1 && list[p] == node
      requires Abs(MoveFront(list, p), c, ix, capacity)
      modifies this`list, list`next, list`prev
      ensures Linked() && list == MoveFront(old(list), p)
      ensures Abs(list, c, ix, capacity)
      ensures old(Owned()) ==> Owned()
    {
      ghost var L := list;
      var temp := RemoveNode(node, p);
      ghost var L1 := list;
      assert L1[0] == L[0] && L1[1..] == L[1..p] + L[p + 1..];
      forall k | 0 <= k < |L1|
        ensures L1[k] != node
      {
        if k < p {
          assert LruModel.Differ(L, k, p);
        } else {
          assert LruModel.Differ(L, p, k + 1);
        }
      }
      AddNode(temp);
      MoveFrontMembers(L, p);
      assert list == MoveFront(L, p);
      ghost var M := list;
      forall i | 0 <= i < |c.order|
        ensures StoredAt(M, c.order, c.values, ix, i)
      {
        assert old(StoredAt(M, c.order, c.values, ix, i));
        assert M[i + 1] in M;
      }
    }

    /** `removeNode(tail.prev)` on a list with entries: its least recently used key leaves the abstract cache. */
    method UnlinkLast(lru: CacheNode, ghost c: LruModel.Lru, ghost index: map<string, CacheNode>)
      requires Linked() && Abs(list, c, index, capacity) && |list| >= 3 && lru == list[|list| - 2]
      modifies this`list, list`next, list`prev
      ensures c.order != [] && lru.key == Some(c.order[|c.order| - 1])
      ensures Linked() && Abs(list, LruModel.EvictLast(c), index - {c.order[|c.order| - 1]}, capacity)
      ensures old(Owned()) ==> Owned()
    {
      ghost var L := list;
      AbsEvict(L, c, index, capacity);
      var _ := RemoveNode(lru, |list| - 2);
      assert list == L[..|L| - 2] + L[|L| - 1..];
      forall n | n in list ensures n in L {
        var k :| 0 <= k < |list| && list[k] == n;
        assert k < |L| - 2 ==> L[k] == n;
        assert k >= |L| - 2 ==> L[k + 1] == n;
      }
    }

    /** `addNode` of a fresh node for a new key: the key enters the abstract cache in front. */
    method LinkNew(node: CacheNode, ghost c: LruModel.Lru, ghost index: map<string, CacheNode>, ghost k: string, ghost v: string)
      requires Linked() && Abs(list, c, index, capacity) && node !in list
      requires node.key == Some(k) && node.value == Some(v) && k !in c.values
      requires capacity < 0 || |c.order| < capacity
      modifies this`list, node`prev, node`next, head`next, (list[1] as CacheNode)`prev
      ensures Linked() && Abs(list, LruModel.Insert(c, k, v), index[k := node], capacity)
      ensures old(Owned()) && node in Repr ==> Owned()
    {
      ghost var L := list;
      AddNode(node);
      AbsInsert(L, list, c, index, capacity, node, k, v);
      forall n | n in list ensures n == node || n in L {
        var j :| 0 <= j < |list| && list[j] == n;
        assert j >= 2 ==> L[j - 1] == n;
      }
    }

    /** The list position of a present key, and the value its node holds. */
    ghost function Position(key: string): (p: nat)
      reads this, Repr
      requires Valid() && key in index
      ensures 0 < p < |list| - 1
      ensures Contents.order[p - 1] == key && list[p] == index[key]
      ensures index[key].value == Some(Contents.values[key]) && index[key] in Repr
    {
      var i :| 0 <= i < |Contents.order| && Contents.order[i] == key;
      assert StoredAt(list, Contents.order, Contents.values, index, i);
      i + 1
    }

    /** A hit returns the value and moves the key to the front; a miss returns null and changes nothing. */
    method Get(key: string) returns (r: Option<string>)
      requires Valid()
      modifies Repr
      ensures Valid() && Repr == old(Repr)
      ensures var g := LruModel.Get(old(Contents), key);
        r == g.value && Contents == g.cache
    {
      if key in index {
        var temp := Promote(key);
        r := temp.value;
      } else {
        r := None;
      }
    }

    /**
     * Stores `value` under `key`. An oversize value is dropped, a present key
     * is updated in its node and moved to the front, and a new key evicts the
     * least recently used entry first when the map holds `capacity` keys. `ok`
     * is false when the call throws a NullPointerException (capacity 0).
     */
    method Put(key: string, value: string) returns (ok: bool)
      requires Valid()
      modifies Repr
      ensures Valid() && fresh(Repr - old(Repr))
      ensures var r := LruModel.Put(old(Contents), capacity, maxEntrySizeBytes, key, value);
        && ok == r.Some?
        && Contents == (if ok then r.value else old(Contents))
    {
      ok := true;
      if Text.JavaLength(value) > maxEntrySizeBytes {
        return;
      }
      if key in index {
        Refresh(key, value);
        return;
      }
      LruModel.ValidSize(Contents, capacity);
      if |index| == capacity {
        assert LinkedAt(list, |list| - 2);
        if |list| > 2 {
          assert LinkedAt(list, |list| - 3);
        }
        var lru := tail.prev;
        if lru.prev == null {
          // removeNode(head) dereferences head.prev, which is null
          ok := false;
          return;
        }
        EvictLeastRecent(lru);
      }
      InsertFront(key, value);
    }

    /** The branch of `put` for a present key: its node gets the new value and moves to the front. */
    method Refresh(key: string, value: string)
      requires Valid() && key in index
      modifies Repr
      ensures Valid() && Repr == old(Repr)
      ensures Contents == LruModel.Lru(LruModel.Touch(old(Contents).order, key), old(Contents).values[key := value])
    {
      ghost var _ := Position(key);
      SetValue(key, value);
      var _ := Promote(key);
    }

    /** `map.get(key)`, `removeNode` and `addNode`: a present key becomes the most recently used. */
    method Promote(key: string) returns (node: CacheNode)
      requires Valid() && key in index
      modifies Repr
      ensures Valid() && Repr == old(Repr) && index == old(index)
      ensures Contents == LruModel.Get(old(Contents), key).cache
      ensures node == index[key] && node.value == Some(old(Contents).values[key])
    {
      ghost var p := Position(key);
      ghost var c := Contents;
      node := index[key];
      AbsTouch(list, c, index, capacity, p);
      Contents := LruModel.Get(c, key).cache;
      MoveToFront(node, p, Contents, index);
    }

    /** `node.value = value` on the node of a present key. */
    method SetValue(key: string, value: string)
      requires Valid() && key in index
      modifies this`Contents, (index[key] as CacheNode)`value
      ensures Valid()
      ensures Contents == LruModel.Lru(old(Contents).order, old(Contents).values[key := value])
    {
      ghost var p := Position(key);
      ghost var c := Contents;
      assert LruModel.Differ(list, 0, p) && LruModel.Differ(list, p, |list| - 1);
      Contents := LruModel.Lru(c.order, c.values[key := value]);
      StoreValue(index[key], value, list, c, index, capacity, p);
    }

    /** `removeNode(lru)` and `map.remove(lru.key)` for `lru == tail.prev`, a data node. */
    method EvictLeastRecent(lru: CacheNode)
      requires Valid() && |list| >= 3 && lru == list[|list| - 2]
      modifies Repr
      ensures Valid() && Repr == old(Repr)
      ensures old(Contents).order != [] && Contents == LruModel.EvictLast(old(Contents))
    {
      ghost var c, ix := Contents, index;
      assert StoredAt(list, c.order, c.values, index, |c.order| - 1);
      index := index - {lru.key.value};
      Contents := LruModel.EvictLast(c);
      UnlinkLast(lru, c, ix);
    }

    /** `new CacheNode<>(key, value)`, `addNode` and `map.put` for a key that is not present. */
    method InsertFront(key: string, value: string)
      requires Valid() && key !in Contents.values
      requires capacity < 0 || |Contents.order| < capacity
      modifies Repr
      ensures Valid() && fresh(Repr - old(Repr))
      ensures Contents == LruModel.Insert(old(Contents), key, value)
    {
      ghost var c, ix := Contents, index;
      var node := new CacheNode(Some(key), Some(value));
      Repr := Repr + {node};
      index := index[key := node];
      Contents := LruModel.Insert(Contents, key, value);
      LinkNew(node, c, ix, key, value);
    }
  }
}
