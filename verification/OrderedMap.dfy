/** The tracker's insertion-ordered map: a hash table whose items are linked in the order they were last inserted. */
module OrderedMaps {
  import opened Basics
  import opened Links

  /** The keys without one of them. */
  ghost function Without<K>(order: seq<K>, key: K): seq<K> {
    if key in order then Cut(order, Position(order, key)) else order
  }

  lemma WithoutAt<K>(order: seq<K>, p: nat)
    requires Distinct(order) && p < |order|
    ensures Without(order, order[p]) == Cut(order, p)
  {
    var q := Position(order, order[p]);
    assert p == q;
  }

  /** The source's sequence of updates for moving a key from position `p` to the back. */
  function MovedNodes<K(==), V>(nodes: map<K, Node<K, V>>, key: K, value: V, last: K): map<K, Node<K, V>>
    requires key in nodes
  {
    var node := nodes[key];
    var moved := nodes[key := Node(value, Some(last), None)];
    SetNext(SetPrev(SetNext(moved, node.prev, node.next), node.next, node.prev), Some(last), Some(key))
  }

  /** Moving a key to the back is taking it out and putting it in at the end. */
  lemma MoveIsCutAndSplice<K, V>(order: seq<K>, nodes: map<K, Node<K, V>>, p: nat, value: V)
    requires Threaded(order, nodes) && p < |order| - 1
    ensures MovedNodes(nodes, order[p], value, order[|order| - 1])
         == SplicedNodes(Cut(order, p), CutNodes(order, nodes, p), |order| - 1, order[p], value)
  {
    var key, last := order[p], order[|order| - 1];
    assert AtPosition(Cut(order, p), |order| - 2) == Some(last);
    assert nodes[key].prev == AtPosition(order, p - 1) && nodes[key].next == AtPosition(order, p + 1);
    assert key != last && (p > 0 ==> order[p - 1] != key) && order[p + 1] != key;
    MoveUpdates(nodes, key, value, last, nodes[key].prev, nodes[key].next);
  }

  lemma MoveUpdates<K, V>(nodes: map<K, Node<K, V>>, key: K, value: V, last: K, prev: Option<K>, next: Option<K>)
    requires key in nodes && last in nodes && key != last && prev != Some(key) && next != Some(key)
    ensures SetNext(SetPrev(SetNext(nodes[key := Node(value, Some(last), None)], prev, next), next, prev),
      Some(last), Some(key))
         == SetPrev(SetNext(SetPrev(SetNext(nodes - {key}, prev, next), next, prev),
      Some(last), Some(key)), None, Some(key))
              [key := Node(value, Some(last), None)]
  {}

  lemma InTable<K, V>(order: seq<K>, nodes: map<K, Node<K, V>>, key: K)
    requires Threaded(order, nodes)
    ensures key in nodes <==> key in order
  {
    if key in order {
      var p := Position(order, key);
      assert order[p] in nodes;
    }
  }

  lemma {:induction false} CountDistinct<K>(order: seq<K>)
    requires Distinct(order)
    ensures |set k | k in order| == |order|
  {
    var keys := set k | k in order;
    if |order| == 0 {
      assert keys == {};
    } else {
      var rest := order[..|order| - 1];
      var last := order[|order| - 1];
      CountDistinct(rest);
      assert order == rest + [last];
      assert keys == (set k | k in rest) + {last};
    }
  }

  lemma TableSize<K, V>(order: seq<K>, nodes: map<K, Node<K, V>>)
    requires Threaded(order, nodes)
    ensures |nodes| == |order|
  {
    CountDistinct(order);
    assert nodes.Keys == set k | k in order;
  }

  /** The source's sequence of updates for a removal. */
  lemma RemoveUpdates<K, V>(order: seq<K>, nodes: map<K, Node<K, V>>, p: nat)
    requires Threaded(order, nodes) && p < |order|
    ensures var key, prev, next := order[p], AtPosition(order, p - 1), AtPosition(order, p + 1);
      SetNext(SetPrev(nodes - {key}, next, prev), prev, next) == CutNodes(order, nodes, p)
    ensures nodes - {order[p]} == map[] <==> |order| == 1
    ensures |order| == 1 ==> CutNodes(order, nodes, p) == map[]
  {
    if |order| > 1 {
      var q := if p == 0 then 1 else 0;
      assert order[q] in nodes && order[q] != order[p];
      assert order[q] in nodes - {order[p]};
    } else {
      assert forall k :: k in nodes ==> k in order;
      assert nodes - {order[p]} == map[];
    }
  }

  lemma CutFacts<K, V>(order: seq<K>, nodes: map<K, Node<K, V>>, p: nat)
    requires Threaded(order, nodes) && p < |order|
    ensures Threaded(Cut(order, p), CutNodes(order, nodes, p)) && Without(order, order[p]) == Cut(order, p)
    ensures Items(CutNodes(order, nodes, p)) == Items(nodes) - {order[p]}
    ensures order[p] in Items(nodes) && Items(nodes)[order[p]] == nodes[order[p]].payload
  {
    WithoutAt(order, p);
    CutThreaded(order, nodes, p);
    CutItems(order, nodes, p);
  }

  lemma MoveFacts<K, V>(order: seq<K>, nodes: map<K, Node<K, V>>, p: nat, value: V)
    requires Threaded(order, nodes) && p < |order| - 1
    ensures var key, moved := order[p], MovedNodes(nodes, order[p], value, order[|order| - 1]);
      && Threaded(Cut(order, p) + [key], moved) && Without(order, key) == Cut(order, p)
      && Items(moved) == Items(nodes)[key := value]
  {
    hide Threaded, Linked, Distinct, Items, Without, SplicedNodes, CutNodes, MovedNodes;
    CutFacts(order, nodes, p);
    MovedSplice(order, nodes, p, value);
    assert Spliced(Cut(order, p), |order| - 1, order[p]) == Cut(order, p) + [order[p]];
  }

  lemma MovedSplice<K, V>(order: seq<K>, nodes: map<K, Node<K, V>>, p: nat, value: V)
    requires Threaded(order, nodes) && p < |order| - 1
    requires Threaded(Cut(order, p), CutNodes(order, nodes, p))
    requires Items(CutNodes(order, nodes, p)) == Items(nodes) - {order[p]}
    ensures var key, moved := order[p], MovedNodes(nodes, order[p], value, order[|order| - 1]);
      && Threaded(Spliced(Cut(order, p), |order| - 1, key), moved)
      && Items(moved) == Items(nodes)[key := value]
  {
    hide Threaded, Linked, Distinct, SplicedNodes, CutNodes, MovedNodes;
    NodeAt(order, nodes, p);
    MoveIsCutAndSplice(order, nodes, p, value);
    SpliceThreaded(Cut(order, p), CutNodes(order, nodes, p), |order| - 1, order[p], value);
    SpliceItems(Cut(order, p), CutNodes(order, nodes, p), |order| - 1, order[p], value);
    assert (Items(nodes) - {order[p]})[order[p] := value] == Items(nodes)[order[p] := value];
  }

  /** A key at the back stays there. */
  lemma AtBack<K, V>(order: seq<K>, nodes: map<K, Node<K, V>>, key: K, value: V)
    requires Threaded(order, nodes) && |order| > 0 && order[|order| - 1] == key
    ensures Without(order, key) + [key] == order && key in nodes
    ensures Threaded(order, nodes[key := nodes[key].(payload := value)])
    ensures Items(nodes[key := nodes[key].(payload := value)]) == Items(nodes)[key := value]
  {
    hide Threaded, Linked, Distinct, CutNodes, Without;
    CutFacts(order, nodes, |order| - 1);
    NodeAt(order, nodes, |order| - 1);
    UpdateThreaded(order, nodes, key, value);
  }

  class OrderedMap<K(==), V> {
    var items: map<K, Node<K, V>>
    var firstAndLast: Option<(K, K)>

    /** The keys, oldest insertion first. */
    ghost var order: seq<K>

    ghost predicate Valid()
      reads this
    {
      Threaded(order, items) && firstAndLast == Ends(order)
    }

    /** The value of every key. */
    ghost function Values(): map<K, V>
      reads this
    {
      Items(items)
    }

    constructor ()
      ensures Valid() && order == [] && Values() == map[]
    {
      items, firstAndLast, order := map[], None, [];
    }

    method Get(key: K) returns (value: Option<V>)
      requires Valid()
      ensures value == if key in order then Some(Values()[key]) else None
    {
      assert key in items <==> key in order by {
        if key in order {
          var p := Position(order, key);
          assert order[p] in items;
        }
      }
      value := if key in items then Some(items[key].payload) else None;
    }

    method FrontKey() returns (key: Option<K>)
      requires Valid()
      ensures key == AtPosition(order, 0)
    {
      key := if firstAndLast.Some? then Some(firstAndLast.value.0) else None;
    }

    method BackKey() returns (key: Option<K>)
      requires Valid()
      ensures key == AtPosition(order, |order| - 1)
    {
      key := if firstAndLast.Some? then Some(firstAndLast.value.1) else None;
    }

    method Len() returns (n: nat)
      requires Valid()
      ensures n == |order|
    {
      TableSize(order, items);
      n := |items|;
    }

    /** Replaces the value of a key where it is. */
    method Set(key: K, value: V)
      requires Valid() && key in order
      modifies this`items
      ensures Valid() && Values() == old(Values())[key := value]
    {
      InTable(order, items, key);
      UpdateThreaded(order, items, key, value);
      items := items[key := items[key].(payload := value)];
    }

    /** Puts a key at the back, moving it there if it is already in the map; yields its old value. */
    method Insert(key: K, value: V) returns (previous: Option<V>)
      requires Valid()
      modifies this
      ensures Valid()
      ensures order == Without(old(order), key) + [key] && Values() == old(Values())[key := value]
      ensures previous == if key in old(order) then Some(old(Values())[key]) else None
    {
      InTable(order, items, key);
      if key in items {
        previous := Some(items[key].payload);
        var (_, last) := firstAndLast.value;
        if key == last {
          AtBack(order, items, key, value);
          items := items[key := items[key].(payload := value)];
        } else {
          MoveToBack(key, value);
        }
      } else {
        previous := None;
        Append(key, value);
      }
    }

    /** Links a new key in at the back. */
    method Append(key: K, value: V)
      requires Valid() && key !in items
      modifies this
      ensures Valid() && order == old(order) + [key] && Values() == old(Values())[key := value]
    {
      InsertFacts(order, items, |order|, key, value);
      if firstAndLast.Some? {
        var (first, last) := firstAndLast.value;
        firstAndLast := Some((first, key));
        LinkingCommutes(items, key, Node(value, Some(last), None), Some(last), None);
        items := items[key := Node(value, Some(last), None)];
        items := SetNext(items, Some(last), Some(key));
      } else {
        firstAndLast := Some((key, key));
        items := items[key := Node(value, None, None)];
      }
      order := Spliced(order, |order|, key);
    }

    /** Moves a key that is not at the back there. */
    method MoveToBack(key: K, value: V)
      requires Valid() && key in items && key in order && firstAndLast.value.1 != key
      modifies this
      ensures Valid() && order == Without(old(order), key) + [key] && Values() == old(Values())[key := value]
    {
      hide Threaded, Linked, Distinct, Items, Without, SplicedNodes, CutNodes, Payloads;
      ghost var p := Position(order, key);
      NodeAt(order, items, p);
      MoveFacts(order, items, p, value);
      CutEnds(order, p);
      var (first, last) := firstAndLast.value;
      var node := items[key];
      items := items[key := Node(value, Some(last), None)];
      if key == first {
        firstAndLast := Some((node.next.value, key));
      } else {
        firstAndLast := Some((first, key));
        items := SetNext(items, node.prev, node.next);
      }
      items := SetPrev(items, node.next, node.prev);
      items := SetNext(items, Some(last), Some(key));
      order := Cut(order, p) + [key];
    }

    /** Takes a key out. */
    method Remove(key: K) returns (value: Option<V>)
      requires Valid()
      modifies this
      ensures Valid() && order == Without(old(order), key) && Values() == old(Values()) - {key}
      ensures value == if key in old(order) then Some(old(Values())[key]) else None
    {
      hide Threaded, Linked, Distinct, Items, CutNodes, Payloads;
      InTable(order, items, key);
      if key !in items {
        return None;
      }
      ghost var p := Position(order, key);
      NodeAt(order, items, p);
      CutFacts(order, items, p);
      RemoveUpdates(order, items, p);
      CutEnds(order, p);
      var item := items[key];
      value := Some(item.payload);
      items := items - {key};
      order := Cut(order, p);
      if items == map[] {
        firstAndLast := None;
        return;
      }
      items := SetPrev(items, item.next, item.prev);
      items := SetNext(items, item.prev, item.next);
      var (first, last) := firstAndLast.value;
      if first == key {
        first := item.next.value;
      }
      if last == key {
        last := item.prev.value;
      }
      firstAndLast := Some((first, last));
    }

    method PopFront() returns (front: Option<(K, V)>)
      requires Valid()
      modifies this
      ensures Valid()
      ensures old(order) == [] ==> front == None && order == [] && Values() == old(Values())
      ensures old(order) != [] ==>
        front == Some((old(order)[0], old(Values())[old(order)[0]])) &&
        order == old(order)[1..] && Values() == old(Values()) - {old(order)[0]}
    {
      var key := FrontKey();
      if key == None {
        return None;
      }
      WithoutAt(order, 0);
      var value := Remove(key.value);
      front := Some((key.value, value.value));
    }
  }
}
