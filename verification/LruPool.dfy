/** The pool itself: a list of nodes in recency order and an index from each key
    to its node.  A node is what a list iterator stands for: it keeps its identity
    when the list is rearranged around it. */
module LruPool {
  import opened Recency

  class Node<K, V> {
    const key: K
    const value: V

    constructor (key: K, value: V)
      ensures this.key == key && this.value == value
    {
      this.key, this.value := key, value;
    }
  }

  function KeysOf<K, V>(nodes: seq<Node<K, V>>): (s: seq<K>)
    ensures |s| == |nodes| && forall i :: 0 <= i < |s| ==> s[i] == nodes[i].key
  {
    seq(|nodes|, i requires 0 <= i < |nodes| => nodes[i].key)
  }

  /** List and index describe the same entries: every node is the index entry of
      its key, every index entry is a node of the list, no key occurs twice. */
  ghost predicate Consistent<K, V>(order: seq<Node<K, V>>, index: map<K, Node<K, V>>) {
    && Distinct(KeysOf(order))
    && (forall i :: 0 <= i < |order| ==> order[i].key in index && index[order[i].key] == order[i])
    && (forall k :: k in index ==> k in KeysOf(order))
  }

  lemma MoveToFront<K, V>(order: seq<Node<K, V>>, index: map<K, Node<K, V>>, i: nat)
    requires Consistent(order, index) && i < |order|
    ensures var moved := [order[i]] + (order[..i] + order[i + 1..]);
            && KeysOf(moved) == [order[i].key] + Without(KeysOf(order), order[i].key)
            && Consistent(moved, index)
  {
    hide Distinct, Without;
    var keys, key := KeysOf(order), order[i].key;
    var moved := [order[i]] + (order[..i] + order[i + 1..]);
    assert key == keys[i];
    WithoutAt(keys, i);
    FrontDistinct(keys, key);
    assert KeysOf(moved) == [key] + (keys[..i] + keys[i + 1..]);
    forall k | k in index && k != key
      ensures k in KeysOf(moved)
    {
      WithoutKeepsOthers(keys, key, k);
    }
  }

  lemma DropLast<K, V>(order: seq<Node<K, V>>, index: map<K, Node<K, V>>)
    requires Consistent(order, index) && order != []
    ensures var n := |order| - 1;
            && KeysOf(order[..n]) == KeysOf(order)[..n]
            && Consistent(order[..n], index - {order[n].key})
  {
    var n := |order| - 1;
    var keys := KeysOf(order);
    assert KeysOf(order[..n]) == keys[..n];
    forall k | k in index && k != order[n].key
      ensures k in keys[..n]
    {
      var i :| 0 <= i < |keys| && keys[i] == k;
      assert keys[..n][i] == k;
    }
  }

  lemma PushFront<K, V>(order: seq<Node<K, V>>, index: map<K, Node<K, V>>, node: Node<K, V>)
    requires Consistent(order, index) && node.key !in index
    ensures KeysOf([node] + order) == [node.key] + KeysOf(order)
    ensures Consistent([node] + order, index[node.key := node])
  {
    assert KeysOf([node] + order) == [node.key] + KeysOf(order);
    assert forall i :: 0 <= i < |order| ==> order[i].key == KeysOf(order)[i];
  }

  lemma IndexedKeys<K, V>(order: seq<Node<K, V>>, index: map<K, Node<K, V>>, k: K)
    requires Consistent(order, index)
    ensures k in index <==> k in KeysOf(order)
  {
  }

  /** There are as many index entries as nodes. */
  lemma {:induction false} IndexSize<K, V>(order: seq<Node<K, V>>, index: map<K, Node<K, V>>)
    requires Consistent(order, index)
    ensures |index| == |order|
  {
    if order == [] {
      assert index == map[];
    } else {
      var n := |order| - 1;
      DropLast(order, index);
      IndexSize(order[..n], index - {order[n].key});
      assert index.Keys == (index - {order[n].key}).Keys + {order[n].key};
    }
  }

  class LRUPool<K(==), V> {
    const maxSize: nat
    var order: seq<Node<K, V>>
    var index: map<K, Node<K, V>>

    // Every access so far.
    ghost var trace: seq<Access<K>>

    /** The list is the recency order of the accesses made so far, within the
        size, and the index agrees with it. */
    ghost predicate Valid()
      reads this
    {
      1 <= maxSize && |order| <= maxSize && Consistent(order, index) && Keys() == Order(maxSize, trace)
    }

    ghost function Keys(): seq<K>
      reads this
    {
      KeysOf(order)
    }

    constructor (maxSize: nat)
      requires maxSize >= 1
      ensures Valid() && Keys() == [] && this.maxSize == maxSize && trace == []
    {
      this.maxSize, order, index, trace := maxSize, [], map[], [];
    }

    /** The entry of a key, made by the factory if there is none yet.  Entries
        that stay keep their node, and so their value. */
    method GetOrCreate(key: K, factory: () -> V) returns (value: V)
      requires Valid()
      modifies this
      ensures Valid()
      ensures trace == old(trace) + [Access.GetOrCreate(key)]
      ensures Keys() == Create(maxSize, old(Keys()), key)
      ensures key in index && value == index[key].value
      ensures key in old(index) ==> index == old(index)
      ensures key !in old(index) ==> fresh(index[key]) && value == factory()
      ensures forall k :: k in index && k != key ==> k in old(index) && index[k] == old(index)[k]
    {
      hide Consistent, Distinct, Without, Order;
      IndexedKeys(order, index, key);
      OrderAppend(maxSize, trace, Access.GetOrCreate(key));
      trace := trace + [Access.GetOrCreate(key)];
      if key in index {
        Splice(key);
        return index[key].value;
      }
      if |order| >= maxSize {
        var last := order[|order| - 1];
        DropLast(order, index);
        index := index - {last.key};
        order := order[..|order| - 1];
      }
      var node := new Node(key, factory());
      PushFront(order, index, node);
      order := [node] + order;
      index := index[key := node];
      value := node.value;
    }

    /** The entry of a key, or none. */
    method Get(key: K) returns (found: bool, value: seq<V>)
      requires Valid()
      modifies this`order, this`trace
      ensures Valid()
      ensures trace == old(trace) + [Access.Get(key)]
      ensures Keys() == Lookup(old(Keys()), key)
      ensures found == (key in index)
      ensures value == if found then [index[key].value] else []
    {
      hide Consistent, Distinct, Without, Order;
      IndexedKeys(order, index, key);
      OrderAppend(maxSize, trace, Access.Get(key));
      trace := trace + [Access.Get(key)];
      if key !in index {
        return false, [];
      }
      Splice(key);
      return true, [index[key].value];
    }

    /** The number of entries: one per key, and no more than the pool may hold. */
    method Size() returns (n: nat)
      requires Valid()
      ensures n == |Keys()| == |index| && n <= maxSize
      ensures var recent := MostRecent(Successes(maxSize, trace)); n == if |recent| <= maxSize then |recent| else maxSize
    {
      OrderIsMostRecent(maxSize, trace);
      IndexSize(order, index);
      n := |order|;
    }

    /** Moves the node of a key to the front of the list. */
    method Splice(key: K)
      requires Consistent(order, index) && key in index
      modifies this`order
      ensures Consistent(order, index) && |order| == old(|order|)
      ensures Keys() == [key] + Without(old(Keys()), key)
    {
      hide Distinct, Without, Order;
      var node := index[key];
      assert exists k :: 0 <= k < |order| && KeysOf(order)[k] == key;
      var i := 0;
      while order[i] != node
        invariant exists k :: i <= k < |order| && order[k] == node
        decreases |order| - i
      {
        i := i + 1;
      }
      MoveToFront(order, index, i);
      order := [node] + (order[..i] + order[i + 1..]);
    }
  }

  /** So, after any run, a pool holds exactly the maxSize most recent distinct
      keys among its successful accesses, each indexed by its own node. */
  lemma PoolIsMostRecent<K, V>(pool: LRUPool<K, V>)
    requires pool.Valid()
    ensures pool.Keys() == Take(MostRecent(Successes(pool.maxSize, pool.trace)), pool.maxSize)
    ensures |pool.order| <= pool.maxSize
    ensures forall k :: k in pool.index <==> k in pool.Keys()
    ensures forall i :: 0 <= i < |pool.order| ==>
              pool.order[i].key in pool.index && pool.index[pool.order[i].key] == pool.order[i]
  {
    OrderIsMostRecent(pool.maxSize, pool.trace);
  }
}
