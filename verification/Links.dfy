/**
 A doubly linked list whose nodes live in a table and name their neighbours by table key.
 Both the range map's node table and the tracker's ordered map are such lists.
 */
module Links {
  import opened Basics

  /** A node: what it holds, and the keys of its neighbours. */
  datatype Node<I, P> = Node(payload: P, prev: Option<I>, next: Option<I>)

  /** The key at a position of the list, if there is one. */
  function AtPosition<I>(order: seq<I>, i: int): Option<I> {
    if 0 <= i < |order| then Some(order[i]) else None
  }

  /** The first and the last key of the list. */
  function Ends<I>(order: seq<I>): Option<(I, I)> {
    if |order| == 0 then None else Some((order[0], order[|order| - 1]))
  }

  /** The nodes listed in `order` exist, once each, and their links agree with it. */
  ghost predicate Linked<I, P>(order: seq<I>, nodes: map<I, Node<I, P>>) {
    && Distinct(order)
    && (forall i :: 0 <= i < |order| ==> order[i] in nodes)
    && (forall i {:trigger nodes[order[i]]} :: 0 <= i < |order| ==>
          nodes[order[i]].prev == AtPosition(order, i - 1) && nodes[order[i]].next == AtPosition(order, i + 1))
  }

  /** The table holds one list and nothing else. */
  ghost predicate Threaded<I, P>(order: seq<I>, nodes: map<I, Node<I, P>>) {
    Linked(order, nodes) && forall k {:trigger k in order} :: k in nodes ==> k in order
  }

  /** The position of a key in the list. */
  ghost function Position<I>(order: seq<I>, key: I): (p: nat)
    requires key in order
    ensures p < |order| && order[p] == key
  {
    var p :| 0 <= p < |order| && order[p] == key; p
  }

  function SetNext<I(==), P>(nodes: map<I, Node<I, P>>, at: Option<I>, next: Option<I>): (r: map<I, Node<I, P>>)
    ensures r.Keys == nodes.Keys
  {
    if at.Some? && at.value in nodes then nodes[at.value := nodes[at.value].(next := next)] else nodes
  }

  function SetPrev<I(==), P>(nodes: map<I, Node<I, P>>, at: Option<I>, prev: Option<I>): (r: map<I, Node<I, P>>)
    ensures r.Keys == nodes.Keys
  {
    if at.Some? && at.value in nodes then nodes[at.value := nodes[at.value].(prev := prev)] else nodes
  }

  /** It does not matter whether a node enters the table before or after its neighbours are linked to it. */
  lemma LinkingCommutes<I, P>(nodes: map<I, Node<I, P>>, key: I, node: Node<I, P>, before: Option<I>, after: Option<I>)
    requires before != Some(key) && after != Some(key)
    ensures SetPrev(SetNext(nodes[key := node], before, Some(key)), after, Some(key))
         == SetPrev(SetNext(nodes, before, Some(key)), after, Some(key))[key := node]
  {}

  /** The list with a key put in at position `p`. */
  function Spliced<T>(order: seq<T>, p: nat, key: T): (longer: seq<T>)
    requires p <= |order|
  {
    order[..p] + [key] + order[p..]
  }

  lemma SplicedDistinct<T>(order: seq<T>, p: nat, key: T)
    requires Distinct(order) && p <= |order| && key !in order
    ensures Distinct(Spliced(order, p, key))
  {}

  /** The table after linking a fresh node in at position `p`. */
  function SplicedNodes<I(==), P>(order: seq<I>, nodes: map<I, Node<I, P>>, p: nat, key: I,
      payload: P): map<I, Node<I, P>> {
    SetPrev(SetNext(nodes, AtPosition(order, p - 1), Some(key)), AtPosition(order, p), Some(key))
      [key := Node(payload, AtPosition(order, p - 1), AtPosition(order, p))]
  }

  lemma LinkAt<I, P>(order: seq<I>, nodes: map<I, Node<I, P>>, p: nat)
    requires Linked(order, nodes) && p < |order|
    ensures order[p] in nodes
    ensures nodes[order[p]].prev == AtPosition(order, p - 1) && nodes[order[p]].next == AtPosition(order, p + 1)
    ensures forall q :: 0 <= q < |order| && order[q] == order[p] ==> q == p
  {}

  lemma SplicedLinks<I, P>(order: seq<I>, nodes: map<I, Node<I, P>>, p: nat, key: I, payload: P, i: nat)
    requires Linked(order, nodes) && p <= |order| && key !in nodes && i < |order|
    ensures var longer, linked := Spliced(order, p, key), SplicedNodes(order, nodes, p, key, payload);
      var j := if i < p then i else i + 1;
      order[i] in linked &&
      linked[order[i]].prev == AtPosition(longer, j - 1) &&
      linked[order[i]].next == AtPosition(longer, j + 1)
  {
    hide Linked, Distinct;
    LinkAt(order, nodes, i);
    var k, linked := order[i], SplicedNodes(order, nodes, p, key, payload);
    assert k in nodes;
    assert i != p - 1 && 0 < p ==> k != order[p - 1];
    assert i != p && p < |order| ==> k != order[p];
    assert linked[k].prev == if i == p then Some(key) else nodes[k].prev;
    assert linked[k].next == if i == p - 1 then Some(key) else nodes[k].next;
  }

  lemma NewLinks<I, P>(order: seq<I>, nodes: map<I, Node<I, P>>, p: nat, key: I, payload: P)
    requires p <= |order|
    ensures var longer, linked := Spliced(order, p, key), SplicedNodes(order, nodes, p, key, payload);
      key in linked && linked[key].prev == AtPosition(longer, p - 1) && linked[key].next == AtPosition(longer, p + 1)
  {}

  lemma SpliceLinked<I, P>(order: seq<I>, nodes: map<I, Node<I, P>>, p: nat, key: I, payload: P)
    requires Linked(order, nodes) && p <= |order| && key !in nodes
    ensures Linked(Spliced(order, p, key), SplicedNodes(order, nodes, p, key, payload))
  {
    hide SplicedNodes, AtPosition;
    var longer, linked := Spliced(order, p, key), SplicedNodes(order, nodes, p, key, payload);
    SplicedDistinct(order, p, key);
    NewLinks(order, nodes, p, key, payload);
    forall i | 0 <= i < |longer|
      ensures longer[i] in linked && linked[longer[i]].prev == AtPosition(longer, i - 1)
      ensures linked[longer[i]].next == AtPosition(longer, i + 1)
    {
      if i != p {
        SplicedLinks(order, nodes, p, key, payload, if i < p then i else i - 1);
      }
    }
  }

  /** Linking a fresh node in between two neighbours keeps the table one list. */
  lemma SpliceThreaded<I, P>(order: seq<I>, nodes: map<I, Node<I, P>>, p: nat, key: I, payload: P)
    requires Threaded(order, nodes) && p <= |order| && key !in nodes
    ensures Threaded(Spliced(order, p, key), SplicedNodes(order, nodes, p, key, payload))
  {
    hide Linked, Distinct;
    SpliceLinked(order, nodes, p, key, payload);
    var longer := Spliced(order, p, key);
    forall k | k in nodes ensures k in longer {
      var i := Position(order, k);
      assert longer[if i < p then i else i + 1] == k;
    }
  }

  /** The list without the key at position `p`. */
  function Cut<T>(order: seq<T>, p: nat): (shorter: seq<T>)
    requires p < |order|
  {
    order[..p] + order[p + 1..]
  }

  lemma CutLength<T>(order: seq<T>, p: nat)
    requires p < |order|
    ensures |Cut(order, p)| == |order| - 1 && forall i :: p <= i < |order| - 1 ==> Cut(order, p)[i] == order[i + 1]
  {}

  lemma CutDistinct<T>(order: seq<T>, p: nat)
    requires Distinct(order) && p < |order|
    ensures Distinct(Cut(order, p))
  {}

  /** The table after unlinking the node at position `p`. */
  function CutNodes<I(==), P>(order: seq<I>, nodes: map<I, Node<I, P>>, p: nat): map<I, Node<I, P>>
    requires p < |order|
  {
    SetPrev(SetNext(nodes - {order[p]}, AtPosition(order, p - 1), AtPosition(order, p + 1)),
            AtPosition(order, p + 1), AtPosition(order, p - 1))
  }

  lemma CutLinks<I, P>(order: seq<I>, nodes: map<I, Node<I, P>>, p: nat, i: nat)
    requires Linked(order, nodes) && p < |order| && i < |order| && i != p
    ensures var shorter, linked := Cut(order, p), CutNodes(order, nodes, p);
      var j := if i < p then i else i - 1;
      order[i] in linked &&
      linked[order[i]].prev == AtPosition(shorter, j - 1) &&
      linked[order[i]].next == AtPosition(shorter, j + 1)
  {
    hide Linked, Distinct;
    LinkAt(order, nodes, i);
    var k, linked := order[i], CutNodes(order, nodes, p);
    assert k in nodes && k != order[p];
    assert i != p - 1 && 0 < p ==> k != order[p - 1];
    assert i != p + 1 && p + 1 < |order| ==> k != order[p + 1];
    assert linked[k].prev == if i == p + 1 then AtPosition(order, p - 1) else nodes[k].prev;
    assert linked[k].next == if i == p - 1 then AtPosition(order, p + 1) else nodes[k].next;
  }

  lemma CutLinked<I, P>(order: seq<I>, nodes: map<I, Node<I, P>>, p: nat)
    requires Linked(order, nodes) && p < |order|
    ensures Linked(Cut(order, p), CutNodes(order, nodes, p))
  {
    hide CutNodes, AtPosition;
    var shorter, linked := Cut(order, p), CutNodes(order, nodes, p);
    CutDistinct(order, p);
    forall i | 0 <= i < |shorter|
      ensures shorter[i] in linked && linked[shorter[i]].prev == AtPosition(shorter, i - 1)
      ensures linked[shorter[i]].next == AtPosition(shorter, i + 1)
    {
      CutLinks(order, nodes, p, if i < p then i else i + 1);
    }
  }

  /** Joining the neighbours of a removed node keeps the table one list. */
  lemma CutThreaded<I, P>(order: seq<I>, nodes: map<I, Node<I, P>>, p: nat)
    requires Threaded(order, nodes) && p < |order|
    ensures Threaded(Cut(order, p), CutNodes(order, nodes, p))
  {
    hide Linked, Distinct;
    CutLinked(order, nodes, p);
    var shorter := Cut(order, p);
    forall k | k in nodes && k != order[p] ensures k in shorter {
      var i := Position(order, k);
      assert shorter[if i < p then i else i - 1] == k;
    }
  }

  /** What the nodes hold, in list order. */
  ghost function Payloads<I, P>(order: seq<I>, nodes: map<I, Node<I, P>>): (s: seq<P>)
    requires forall i :: 0 <= i < |order| ==> order[i] in nodes
    ensures |s| == |order| && forall i {:trigger s[i]} :: 0 <= i < |s| ==> s[i] == nodes[order[i]].payload
  {
    seq(|order|, i requires 0 <= i < |order| => nodes[order[i]].payload)
  }

  /** What every node holds, by key. */
  function Items<I, P>(nodes: map<I, Node<I, P>>): (items: map<I, P>)
    ensures items.Keys == nodes.Keys
  {
    map k | k in nodes :: nodes[k].payload
  }

  lemma SpliceItems<I, P>(order: seq<I>, nodes: map<I, Node<I, P>>, p: nat, key: I, payload: P)
    ensures Items(SplicedNodes(order, nodes, p, key, payload)) == Items(nodes)[key := payload]
  {}

  lemma CutItems<I, P>(order: seq<I>, nodes: map<I, Node<I, P>>, p: nat)
    requires p < |order|
    ensures Items(CutNodes(order, nodes, p)) == Items(nodes) - {order[p]}
  {}

  lemma SplicedKeeps<I, P>(order: seq<I>, nodes: map<I, Node<I, P>>, p: nat, key: I, payload: P)
    ensures var linked := SplicedNodes(order, nodes, p, key, payload);
      && key in linked && linked[key].payload == payload
      && forall k :: k in nodes && k != key ==> k in linked && linked[k].payload == nodes[k].payload
  {}

  lemma CutKeeps<I, P>(order: seq<I>, nodes: map<I, Node<I, P>>, p: nat)
    requires p < |order|
    ensures var linked := CutNodes(order, nodes, p);
      forall k :: k in nodes && k != order[p] ==> k in linked && linked[k].payload == nodes[k].payload
  {}

  lemma SplicePayloads<I, P>(order: seq<I>, nodes: map<I, Node<I, P>>, p: nat, key: I, payload: P)
    requires Linked(order, nodes) && p <= |order| && key !in nodes
    ensures Linked(Spliced(order, p, key), SplicedNodes(order, nodes, p, key, payload))
    ensures Payloads(Spliced(order, p, key), SplicedNodes(order, nodes, p, key, payload))
      == Spliced(Payloads(order, nodes), p, payload)
  {
    hide SplicedNodes, Distinct;
    SpliceLinked(order, nodes, p, key, payload);
    SplicedKeeps(order, nodes, p, key, payload);
    var longer, linked := Spliced(order, p, key), SplicedNodes(order, nodes, p, key, payload);
    forall i | 0 <= i < |longer|
      ensures linked[longer[i]].payload == Spliced(Payloads(order, nodes), p, payload)[i]
    {
      assert longer[i] == if i < p then order[i] else if i == p then key else order[i - 1];
    }
  }

  lemma CutPayloads<I, P>(order: seq<I>, nodes: map<I, Node<I, P>>, p: nat)
    requires Linked(order, nodes) && p < |order|
    ensures Linked(Cut(order, p), CutNodes(order, nodes, p))
    ensures Payloads(Cut(order, p), CutNodes(order, nodes, p)) == Cut(Payloads(order, nodes), p)
  {
    hide CutNodes;
    CutLinked(order, nodes, p);
    CutKeeps(order, nodes, p);
    var shorter, linked := Cut(order, p), CutNodes(order, nodes, p);
    forall i | 0 <= i < |shorter|
      ensures linked[shorter[i]].payload == Cut(Payloads(order, nodes), p)[i]
    {
      assert shorter[i] == order[if i < p then i else i + 1] != order[p];
    }
  }

  /** The table after the source's own sequence of updates for an insertion between two nodes. */
  function InsertedBetween<I(==), P>(nodes: map<I, Node<I, P>>, before: I, after: I, key: I,
      payload: P): map<I, Node<I, P>> {
    SetPrev(SetNext(nodes[key := Node(payload, Some(before), Some(after))], Some(before), Some(key)),
      Some(after), Some(key))
  }

  lemma SplicedEnds<I>(order: seq<I>, p: nat, key: I)
    requires p <= |order|
    ensures Ends(Spliced(order, p, key)) ==
      Some((if p == 0 then key else order[0], if p == |order| then key else order[|order| - 1]))
  {}

  lemma CutEnds<I>(order: seq<I>, p: nat)
    requires p < |order|
    ensures Ends(Cut(order, p)) == if |order| == 1 then None else
      Some((if p == 0 then order[1] else order[0], if p == |order| - 1 then order[|order| - 2] else order[|order| - 1]))
  {}

  lemma EndsOf<I>(order: seq<I>)
    requires order != []
    ensures Ends(order) == Some((order[0], order[|order| - 1]))
  {}

  lemma BetweenKeys<I, P>(nodes: map<I, Node<I, P>>, before: I, after: I, key: I, payload: P)
    ensures InsertedBetween(nodes, before, after, key, payload).Keys == nodes.Keys + {key}
  {}

  /** The node at a position of the list. */
  lemma NodeAt<I, P>(order: seq<I>, nodes: map<I, Node<I, P>>, p: nat)
    requires Threaded(order, nodes) && p < |order|
    ensures order[p] in nodes && Payloads(order, nodes)[p] == nodes[order[p]].payload
    ensures nodes[order[p]].prev == AtPosition(order, p - 1) && nodes[order[p]].next == AtPosition(order, p + 1)
    ensures forall q :: 0 <= q < |order| && order[q] == order[p] ==> q == p
  {}

  /** All that an insertion does to the list. */
  lemma InsertFacts<I, P>(order: seq<I>, nodes: map<I, Node<I, P>>, p: nat, key: I, payload: P)
    requires Threaded(order, nodes) && p <= |order| && key !in nodes
    ensures var longer, linked := Spliced(order, p, key), SplicedNodes(order, nodes, p, key, payload);
      && Threaded(longer, linked)
      && Payloads(longer, linked) == Spliced(Payloads(order, nodes), p, payload)
      && Items(linked) == Items(nodes)[key := payload]
      && (0 < p < |order| ==> linked == InsertedBetween(nodes, order[p - 1], order[p], key, payload))
  {
    SpliceThreaded(order, nodes, p, key, payload);
    SplicePayloads(order, nodes, p, key, payload);
    SpliceItems(order, nodes, p, key, payload);
    if 0 < p < |order| {
      LinkingCommutes(nodes, key, Node(payload, Some(order[p - 1]), Some(order[p])), Some(order[p - 1]),
        Some(order[p]));
    }
  }

  /** All that a removal does to the list. */
  lemma RemoveFacts<I, P>(order: seq<I>, nodes: map<I, Node<I, P>>, p: nat)
    requires Threaded(order, nodes) && p < |order|
    ensures var shorter, linked := Cut(order, p), CutNodes(order, nodes, p);
      && Threaded(shorter, linked)
      && Payloads(shorter, linked) == Cut(Payloads(order, nodes), p)
      && Items(linked) == Items(nodes) - {order[p]}
  {
    CutThreaded(order, nodes, p);
    CutPayloads(order, nodes, p);
    CutItems(order, nodes, p);
  }

  lemma UpdateLinked<I, P>(order: seq<I>, nodes: map<I, Node<I, P>>, key: I, payload: P)
    requires Linked(order, nodes) && key in nodes
    ensures Linked(order, nodes[key := nodes[key].(payload := payload)])
  {}

  /** Replacing what one node holds leaves the links alone. */
  lemma UpdateThreaded<I, P>(order: seq<I>, nodes: map<I, Node<I, P>>, key: I, payload: P)
    requires Threaded(order, nodes) && key in nodes
    ensures Threaded(order, nodes[key := nodes[key].(payload := payload)])
  {
    UpdateLinked(order, nodes, key, payload);
  }

  lemma UpdatePayloads<I, P>(order: seq<I>, nodes: map<I, Node<I, P>>, p: nat, node: Node<I, P>)
    requires Distinct(order) && p < |order| && forall i :: 0 <= i < |order| ==> order[i] in nodes
    ensures Payloads(order, nodes[order[p] := node]) == Payloads(order, nodes)[p := node.payload]
  {
    var updated, expected := Payloads(order, nodes[order[p] := node]), Payloads(order, nodes)[p := node.payload];
    assert |updated| == |expected|;
    forall i | 0 <= i < |order| ensures updated[i] == expected[i] {
      if i != p {
        assert order[i] != order[p];
      }
    }
  }
}
