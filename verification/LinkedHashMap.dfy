/**
 The linked hash map under the range map: a hash table of nodes keyed by generated indices,
 with the nodes threaded into a doubly linked list by `prev` and `next`.
 */
module LinkedHashMaps {
  import opened Basics
  import opened Links

  const TWO_64: nat := 0x1_0000_0000_0000_0000
  const MULTIPLIER: nat := 6364136223846793005

  type Index = nat

  /** Bitwise exclusive or of the lowest `bits` bits. */
  function Xor(a: nat, b: nat, bits: nat): (r: nat)
    decreases bits
  {
    if bits == 0 then 0
    else (if a % 2 == b % 2 then 0 else 1) + 2 * Xor(a / 2, b / 2, bits - 1)
  }

  function Pow2(n: nat): (r: nat)
    ensures r > 0
  {
    if n == 0 then 1 else 2 * Pow2(n - 1)
  }

  lemma {:induction false} XorFits(a: nat, b: nat, bits: nat)
    ensures Xor(a, b, bits) < Pow2(bits)
    decreases bits
  {
    if bits > 0 {
      XorFits(a / 2, b / 2, bits - 1);
    }
  }

  lemma Pow2Of64()
    ensures Pow2(64) == TWO_64
  {
    assert Pow2(8) == 0x100;
    assert Pow2(16) == 0x1_0000 by { assert Pow2(12) == 0x1000; }
    assert Pow2(24) == 0x100_0000 by { assert Pow2(20) == 0x10_0000; }
    assert Pow2(32) == 0x1_0000_0000 by { assert Pow2(28) == 0x1000_0000; }
    assert Pow2(40) == 0x100_0000_0000 by { assert Pow2(36) == 0x10_0000_0000; }
    assert Pow2(48) == 0x1_0000_0000_0000 by { assert Pow2(44) == 0x1000_0000_0000; }
    assert Pow2(56) == 0x100_0000_0000_0000 by { assert Pow2(52) == 0x10_0000_0000_0000; }
    assert Pow2(60) == 0x1000_0000_0000_0000;
  }

  /** The 128-bit product of two 64-bit words, its halves combined by exclusive or. */
  method FoldedMultiply(s: nat, factor: nat) returns (r: nat)
    ensures r == Xor(s * factor % TWO_64, s * factor / TWO_64 % TWO_64, 64) < TWO_64
  {
    var product := s * factor;
    r := Xor(product % TWO_64, product / TWO_64 % TWO_64, 64);
    XorFits(product % TWO_64, product / TWO_64 % TWO_64, 64);
    Pow2Of64();
  }

  /**
   The index made from a counter value: the low 32 bits of the counter above the high 32 bits of
   its folded product. The counter can be read back from the upper half, so counters fewer than
   2^32 generations apart never make the same index.
   */
  method MakeIndex(counter: nat) returns (index: Index)
    ensures index / TWO_32 == counter % TWO_32
  {
    var folded := FoldedMultiply(counter, MULTIPLIER);
    var low, high := folded / TWO_32, counter % TWO_32;
    index := low + high * TWO_32;
    UpperHalf(low, high);
  }

  lemma UpperHalf(low: nat, high: nat)
    requires low < TWO_32
    ensures (low + high * TWO_32) / TWO_32 == high
  {}

  datatype Entry<K, V> = Entry(key: K, value: V)

  class LinkedHashMap<K, V> {
    var nodes: map<Index, Node<Index, Entry<K, V>>>
    var counter: nat
    var firstAndLast: Option<(Index, Index)>
    ghost var order: seq<Index>

    /** The table is one finite list, `firstAndLast` its ends, and every node came from an earlier generation. */
    ghost predicate Valid()
      reads this
    {
      && Threaded(order, nodes)
      && firstAndLast == Ends(order)
      && counter < TWO_32
      && forall k :: k in nodes ==> k / TWO_32 <= counter
    }

    /** The entries in list order. */
    ghost function Contents(): (es: seq<Entry<K, V>>)
      reads this
      requires Valid()
      ensures |es| == |order|
    {
      Payloads(order, nodes)
    }

    /** The entry of every live node. */
    ghost function EntryMap(): map<Index, Entry<K, V>>
      reads this
    {
      Items(nodes)
    }

    /** The node at a position. */
    lemma At(p: nat)
      requires Valid() && p < |order|
      ensures order[p] in nodes && order[p] in EntryMap()
      ensures Contents()[p] == nodes[order[p]].payload == EntryMap()[order[p]]
      ensures nodes[order[p]].prev == AtPosition(order, p - 1) && nodes[order[p]].next == AtPosition(order, p + 1)
    {
      NodeAt(order, nodes, p);
    }

    /** The position of a node. */
    lemma Found(x: Index) returns (p: nat)
      requires Valid() && x in EntryMap()
      ensures p < |order| && order[p] == x
    {
      p := Position(order, x);
    }

    constructor ()
      ensures Valid() && order == [] && Contents() == [] && EntryMap() == map[] && counter == 0
    {
      nodes, counter, firstAndLast, order := map[], 0, None, [];
    }

    /** The next index, distinct from all the live ones. */
    method GenerateIndex() returns (index: Index)
      requires Valid() && counter + 1 < TWO_32
      modifies this`counter
      ensures Valid() && counter == old(counter) + 1
      ensures index / TWO_32 == counter && index !in nodes
    {
      counter := counter + 1;
      index := MakeIndex(counter);
    }

    method InsertBack(key: K, value: V) returns (index: Index)
      requires Valid() && counter + 1 < TWO_32
      modifies this
      ensures Valid() && counter == old(counter) + 1
      ensures index !in old(nodes) && order == Spliced(old(order), |old(order)|, index)
      ensures Contents() == Spliced(old(Contents()), |old(order)|, Entry(key, value))
      ensures EntryMap() == old(EntryMap())[index := Entry(key, value)]
    {
      hide Threaded, Payloads, Items, Spliced;
      index := GenerateIndex();
      InsertFacts(order, nodes, |order|, index, Entry(key, value));
      SplicedEnds(order, |order|, index);
      var prev := None;
      match firstAndLast {
        case Some((first, last)) =>
          prev := Some(last);
          nodes := SetNext(nodes, Some(last), Some(index));
          firstAndLast := Some((first, index));
        case None =>
          firstAndLast := Some((index, index));
      }
      nodes := nodes[index := Node(Entry(key, value), prev, None)];
      order := Spliced(order, |order|, index);
    }

    method InsertFront(key: K, value: V) returns (index: Index)
      requires Valid() && counter + 1 < TWO_32
      modifies this
      ensures Valid() && counter == old(counter) + 1
      ensures index !in old(nodes) && order == Spliced(old(order), 0, index)
      ensures Contents() == Spliced(old(Contents()), 0, Entry(key, value))
      ensures EntryMap() == old(EntryMap())[index := Entry(key, value)]
    {
      hide Threaded, Payloads, Items, Spliced;
      index := GenerateIndex();
      InsertFacts(order, nodes, 0, index, Entry(key, value));
      SplicedEnds(order, 0, index);
      var next := None;
      match firstAndLast {
        case Some((first, last)) =>
          next := Some(first);
          nodes := SetPrev(nodes, Some(first), Some(index));
          firstAndLast := Some((index, last));
        case None =>
          firstAndLast := Some((index, index));
      }
      nodes := nodes[index := Node(Entry(key, value), None, next)];
      order := Spliced(order, 0, index);
    }

    /** Links a new node in between the neighbours at positions `p - 1` and `p`. */
    method InsertBetween(prevIndex: Index, nextIndex: Index, key: K, value: V, ghost p: nat) returns (index: Index)
      requires Valid() && counter + 1 < TWO_32
      requires 0 < p < |order| && order[p - 1] == prevIndex && order[p] == nextIndex
      modifies this`nodes, this`counter, this`order
      ensures Valid() && counter == old(counter) + 1
      ensures index !in old(nodes) && order == Spliced(old(order), p, index)
      ensures Contents() == Spliced(old(Contents()), p, Entry(key, value))
      ensures EntryMap() == old(EntryMap())[index := Entry(key, value)]
    {
      hide Threaded, Payloads, Items, Ends, Spliced, SplicedNodes, SetNext, SetPrev;
      index := GenerateIndex();
      InsertFacts(order, nodes, p, index, Entry(key, value));
      EndsOf(order);
      SplicedEnds(order, p, index);
      BetweenKeys(nodes, prevIndex, nextIndex, index, Entry(key, value));
      nodes := InsertedBetween(nodes, prevIndex, nextIndex, index, Entry(key, value));
      order := Spliced(order, p, index);
    }

    /** Inserts before the node at position `p`. */
    method InsertBefore(nextIndex: Index, key: K, value: V, ghost p: nat) returns (index: Index)
      requires Valid() && counter + 1 < TWO_32
      requires p < |order| && order[p] == nextIndex
      modifies this
      ensures Valid() && counter == old(counter) + 1
      ensures index !in old(nodes) && order == Spliced(old(order), p, index)
      ensures Contents() == Spliced(old(Contents()), p, Entry(key, value))
      ensures EntryMap() == old(EntryMap())[index := Entry(key, value)]
    {
      match nodes[nextIndex].prev {
        case Some(prevIndex) =>
          index := InsertBetween(prevIndex, nextIndex, key, value, p);
        case None =>
          assert firstAndLast.value.0 == nextIndex;
          index := InsertFront(key, value);
      }
    }

    /** Inserts after the node at position `p`. */
    method InsertAfter(prevIndex: Index, key: K, value: V, ghost p: nat) returns (index: Index)
      requires Valid() && counter + 1 < TWO_32
      requires p < |order| && order[p] == prevIndex
      modifies this
      ensures Valid() && counter == old(counter) + 1
      ensures index !in old(nodes) && order == Spliced(old(order), p + 1, index)
      ensures Contents() == Spliced(old(Contents()), p + 1, Entry(key, value))
      ensures EntryMap() == old(EntryMap())[index := Entry(key, value)]
    {
      match nodes[prevIndex].next {
        case Some(nextIndex) =>
          index := InsertBetween(prevIndex, nextIndex, key, value, p + 1);
        case None =>
          assert firstAndLast.value.1 == prevIndex;
          index := InsertBack(key, value);
      }
    }

    /** Unlinks the node at position `p`; yields its entry and the index of its successor. */
    method RemoveAndGetNextIndex(index: Index, ghost p: nat) returns (next: Option<Index>, entry: Entry<K, V>)
      requires Valid()
      requires p < |order| && order[p] == index
      modifies this`nodes, this`firstAndLast, this`order
      ensures Valid()
      ensures next == AtPosition(old(order), p + 1) && entry == old(Contents())[p]
      ensures order == Cut(old(order), p) && Contents() == Cut(old(Contents()), p)
      ensures EntryMap() == old(EntryMap()) - {index}
    {
      hide Threaded, Payloads, Items, Ends, Cut, SetNext, SetPrev;
      At(p);
      EndsOf(order);
      CutEnds(order, p);
      RemoveFacts(order, nodes, p);
      var node := nodes[index];
      nodes := nodes - {index};
      next, entry := node.next, node.payload;
      nodes := SetPrev(SetNext(nodes, node.prev, node.next), node.next, node.prev);
      match (node.prev, node.next) {
        case (Some(_), Some(_)) =>
        case (None, None) =>
          firstAndLast := None;
        case (Some(prevIndex), None) =>
          firstAndLast := Some((firstAndLast.value.0, prevIndex));
        case (None, Some(nextIndex)) =>
          firstAndLast := Some((nextIndex, firstAndLast.value.1));
      }
      order := Cut(order, p);
    }

    /** Replaces the entry at position `p`. */
    method SetEntry(index: Index, entry: Entry<K, V>, ghost p: nat)
      requires Valid()
      requires p < |order| && order[p] == index
      modifies this`nodes
      ensures Valid() && Contents() == old(Contents())[p := entry]
      ensures EntryMap() == old(EntryMap())[index := entry]
    {
      UpdateThreaded(order, nodes, index, entry);
      UpdatePayloads(order, nodes, p, nodes[index].(payload := entry));
      nodes := nodes[index := nodes[index].(payload := entry)];
    }

    method Clear()
      requires Valid()
      modifies this`nodes, this`firstAndLast, this`order
      ensures Valid() && order == [] && Contents() == [] && EntryMap() == map[]
    {
      nodes, firstAndLast, order := map[], None, [];
    }

    /** Follows the links from position `p` as long as the keys satisfy `keep`. */
    method CollectWhile(start: Option<Index>, keep: K -> bool, ghost p: nat)
      returns (output: seq<Entry<K, V>>, ghost q: nat)
      requires Valid() && p <= |order| && start == AtPosition(order, p)
      ensures p <= q <= |order| && output == Contents()[p..q]
      ensures forall i :: p <= i < q ==> keep(Contents()[i].key)
      ensures q < |order| ==> !keep(Contents()[q].key)
    {
      hide Threaded, Payloads, LinkedHashMap.Contents;
      output := [];
      var indexOpt := start;
      q := p;
      ghost var es := Contents();
      while indexOpt.Some?
        invariant p <= q <= |order| && output == es[p..q]
        invariant forall i :: p <= i < q ==> keep(es[i].key)
        invariant indexOpt == AtPosition(order, q)
        decreases |order| - q
      {
        At(q);
        var node := nodes[indexOpt.value];
        if !keep(node.payload.key) {
          return;
        }
        SliceExtends(es, p, q);
        output, indexOpt, q := output + [node.payload], node.next, q + 1;
      }
    }

    /** Follows the links from the first node to the last. */
    method IntoVec() returns (output: seq<Entry<K, V>>)
      requires Valid()
      ensures output == Contents()
    {
      hide Threaded, Payloads, LinkedHashMap.Contents;
      output := [];
      var indexOpt := if firstAndLast.Some? then Some(firstAndLast.value.0) else None;
      while indexOpt.Some?
        invariant |output| <= |order| && output == Contents()[..|output|]
        invariant indexOpt == AtPosition(order, |output|)
        decreases |order| - |output|
      {
        At(|output|);
        var node := nodes[indexOpt.value];
        output, indexOpt := output + [node.payload], node.next;
      }
    }
  }
}
