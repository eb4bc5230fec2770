/** A trie of call stacks with the allocations made under each, and its collapsed form for flame graphs. */
module Tree {
  import opened Basics

  /** An allocation that was added: its number, size, and call stack from the outermost frame. */
  datatype Added<K> = Added(id: nat, size: nat, path: seq<K>)

  datatype Node<K> = Node(
    totalSize: nat,
    totalCount: nat,
    selfSize: nat,
    selfCount: nat,
    selfAllocations: seq<nat>,
    children: seq<(K, nat)>,
    parent: Option<nat>)

  datatype What = TotalSize | TotalCount | SelfSize | SelfCount

  function Amount<K>(node: Node<K>, what: What): nat {
    match what
    case TotalSize => node.totalSize
    case TotalCount => node.totalCount
    case SelfSize => node.selfSize
    case SelfCount => node.selfCount
  }

  // ----- What the numbers should be

  /** An allocation counts towards the total of every prefix of its stack, and towards its own stack. */
  function Share<K(==)>(a: Added<K>, path: seq<K>, what: What): nat {
    match what
    case TotalSize => if path <= a.path then a.size else 0
    case TotalCount => if path <= a.path then 1 else 0
    case SelfSize => if path == a.path then a.size else 0
    case SelfCount => if path == a.path then 1 else 0
  }

  function Expected<K(==)>(added: seq<Added<K>>, n: nat, path: seq<K>, what: What): nat
    requires n <= |added|
  {
    if n == 0 then 0 else Expected(added, n - 1, path, what) + Share(added[n - 1], path, what)
  }

  lemma {:induction false} ExpectedPrefix<K>(a: seq<Added<K>>, b: seq<Added<K>>, n: nat, path: seq<K>, what: What)
    requires n <= |a|
    ensures Expected(a + b, n, path, what) == Expected(a, n, path, what)
  {
    if n > 0 {
      ExpectedPrefix(a, b, n - 1, path, what);
    }
  }

  lemma ExpectedOneMore<K>(added: seq<Added<K>>, a: Added<K>, path: seq<K>, what: What)
    ensures Expected(added + [a], |added| + 1, path, what)
      == Expected(added, |added|, path, what) + Share(a, path, what)
  {
    ExpectedPrefix(added, [a], |added|, path, what);
  }

  lemma {:induction false} NothingExpected<K>(added: seq<Added<K>>, n: nat, path: seq<K>, what: What)
    requires n <= |added| && forall i :: 0 <= i < n ==> !(path <= added[i].path)
    ensures Expected(added, n, path, what) == 0
  {
    if n > 0 {
      NothingExpected(added, n - 1, path, what);
    }
  }

  /** The allocations made at exactly this stack, in order. */
  function Ids<K(==)>(added: seq<Added<K>>, n: nat, path: seq<K>): seq<nat>
    requires n <= |added|
  {
    if n == 0 then [] else Ids(added, n - 1, path) + (if path == added[n - 1].path then [added[n - 1].id] else [])
  }

  lemma {:induction false} IdsPrefix<K>(a: seq<Added<K>>, b: seq<Added<K>>, n: nat, path: seq<K>)
    requires n <= |a|
    ensures Ids(a + b, n, path) == Ids(a, n, path)
  {
    if n > 0 {
      IdsPrefix(a, b, n - 1, path);
    }
  }

  lemma {:induction false} NoIds<K>(added: seq<Added<K>>, n: nat, path: seq<K>)
    requires n <= |added| && forall i :: 0 <= i < n ==> !(path <= added[i].path)
    ensures Ids(added, n, path) == []
  {
    if n > 0 {
      NoIds(added, n - 1, path);
      assert path != added[n - 1].path;
    }
  }

  // ----- The shape of the trie

  ghost predicate DifferentKeys<K>(children: seq<(K, nat)>) {
    forall i, j :: 0 <= i < j < |children| ==> children[i].0 != children[j].0
  }

  /** Children come later in the table, and extend their parent's path by their key. */
  ghost predicate ChildrenOk<K>(nodes: seq<Node<K>>, paths: seq<seq<K>>, i: nat)
    requires i < |nodes| == |paths|
  {
    && DifferentKeys(nodes[i].children)
    && forall c :: 0 <= c < |nodes[i].children| ==>
         && i < nodes[i].children[c].1 < |nodes| && paths[nodes[i].children[c].1] == paths[i] + [nodes[i].children[c].0]
         && nodes[nodes[i].children[c].1].parent == Some(i)
  }

  ghost predicate ChildOf<K>(nodes: seq<Node<K>>, p: nat, c: nat, i: nat) {
    p < |nodes| && c < |nodes[p].children| && nodes[p].children[c].1 == i
  }

  ghost predicate HasParent<K>(nodes: seq<Node<K>>, i: nat) {
    exists p, c :: ChildOf(nodes, p, c, i)
  }

  /** Every node but the root is some node's child, and no two nodes have the same path. */
  ghost predicate Shape<K>(nodes: seq<Node<K>>, paths: seq<seq<K>>) {
    && 0 < |nodes| == |paths| && paths[0] == [] && nodes[0].parent == None
    && (forall i :: 0 <= i < |nodes| ==> ChildrenOk(nodes, paths, i))
    && (forall i :: 0 < i < |nodes| ==> HasParent(nodes, i))
    && Distinct(paths)
  }

  /** Every prefix of every stack has a node. */
  ghost predicate Complete<K>(paths: seq<seq<K>>, added: seq<Added<K>>) {
    forall i, k :: 0 <= i < |added| && 0 <= k <= |added[i].path| ==> added[i].path[..k] in paths
  }

  /** The numbers of every node are right. */
  ghost predicate Totals<K>(nodes: seq<Node<K>>, paths: seq<seq<K>>, added: seq<Added<K>>)
    requires |nodes| == |paths|
  {
    && (forall i, what :: 0 <= i < |nodes| ==> Amount(nodes[i], what) == Expected(added, |added|, paths[i], what))
    && Listed(nodes, paths, added)
  }

  /** Every node lists the allocations made at its path. */
  ghost predicate Listed<K>(nodes: seq<Node<K>>, paths: seq<seq<K>>, added: seq<Added<K>>)
    requires |nodes| == |paths|
  {
    forall i :: 0 <= i < |nodes| ==> nodes[i].selfAllocations == Ids(added, |added|, paths[i])
  }

  /** A node whose path extends another's by a key is its child. */
  lemma PathIsChild<K>(nodes: seq<Node<K>>, paths: seq<seq<K>>, i: nat, key: K, j: nat)
    requires Shape(nodes, paths) && i < |nodes| && j < |nodes| && paths[j] == paths[i] + [key]
    ensures exists c :: 0 <= c < |nodes[i].children| && nodes[i].children[c] == (key, j)
  {
    assert j > 0;
    assert HasParent(nodes, j);
    var p: nat, c: nat :| ChildOf(nodes, p, c, j);
    assert ChildrenOk(nodes, paths, p);
    var k := nodes[p].children[c].0;
    assert paths[p] + [k] == paths[i] + [key];
    assert paths[p] == (paths[p] + [k])[..|paths[p]|] && paths[i] == (paths[i] + [key])[..|paths[i]|];
    assert k == (paths[p] + [k])[|paths[p]|] && key == (paths[i] + [key])[|paths[i]|];
    assert p == i;
    assert nodes[i].children[c] == (key, j);
  }

  /** No node has the path of a child that is not there. */
  lemma ChildMissing<K>(nodes: seq<Node<K>>, paths: seq<seq<K>>, i: nat, key: K)
    requires Shape(nodes, paths) && i < |nodes|
    requires forall c :: 0 <= c < |nodes[i].children| ==> nodes[i].children[c].0 != key
    ensures paths[i] + [key] !in paths
  {
    forall j | 0 <= j < |paths| ensures paths[j] != paths[i] + [key] {
      if paths[j] == paths[i] + [key] {
        PathIsChild(nodes, paths, i, key, j);
      }
    }
  }

  /** The tree with a new, empty child. */
  function WithChild<K>(nodes: seq<Node<K>>, i: nat, key: K): seq<Node<K>>
    requires i < |nodes|
  {
    nodes[i := nodes[i].(children := nodes[i].children + [(key, |nodes|)])] + [Node(0, 0, 0, 0, [], [], Some(i))]
  }

  lemma WithChildShape<K>(nodes: seq<Node<K>>, paths: seq<seq<K>>, i: nat, key: K)
    requires Shape(nodes, paths) && i < |nodes| && paths[i] + [key] !in paths
    ensures Shape(WithChild(nodes, i, key), paths + [paths[i] + [key]])
  {
    var nodes', paths' := WithChild(nodes, i, key), paths + [paths[i] + [key]];
    forall j | 0 <= j < |nodes'| ensures ChildrenOk(nodes', paths', j) {
      if j < |nodes| {
        assert ChildrenOk(nodes, paths, j);
      }
    }
    forall j | 0 < j < |nodes'| ensures HasParent(nodes', j) {
      if j < |nodes| {
        assert HasParent(nodes, j);
        var p, c :| ChildOf(nodes, p, c, j);
        assert ChildOf(nodes', p, c, j);
      } else {
        assert ChildOf(nodes', i, |nodes[i].children|, j);
      }
    }
  }

  /** Changing numbers only leaves the shape alone. */
  lemma SameShape<K>(nodes: seq<Node<K>>, paths: seq<seq<K>>, i: nat, node: Node<K>)
    requires Shape(nodes, paths) && i < |nodes| && node.children == nodes[i].children && node.parent == nodes[i].parent
    ensures Shape(nodes[i := node], paths)
  {
    var nodes' := nodes[i := node];
    forall j | 0 <= j < |nodes'| ensures ChildrenOk(nodes', paths, j) {
      assert ChildrenOk(nodes, paths, j);
    }
    forall j | 0 < j < |nodes'| ensures HasParent(nodes', j) {
      assert HasParent(nodes, j);
      var p, c :| ChildOf(nodes, p, c, j);
      assert ChildOf(nodes', p, c, j);
    }
  }

  // ----- Adding an allocation

  /** What has been added for the allocation so far: to the totals of the prefixes shorter than `d`. */
  function Paid<K(==)>(a: Added<K>, path: seq<K>, what: What, d: nat): nat {
    if |path| < d && (what == TotalSize || what == TotalCount) then Share(a, path, what) else 0
  }

  ghost predicate Partly<K>(nodes: seq<Node<K>>, paths: seq<seq<K>>, added: seq<Added<K>>, a: Added<K>, d: nat)
    requires |nodes| == |paths|
  {
    && (forall i, what :: 0 <= i < |nodes| ==>
          Amount(nodes[i], what) == Expected(added, |added|, paths[i], what) + Paid(a, paths[i], what, d))
    && Listed(nodes, paths, added)
  }

  function Counted<K>(node: Node<K>, size: nat): Node<K> {
    node.(totalSize := node.totalSize + size, totalCount := node.totalCount + 1)
  }

  /** The node of the prefix of length `d` is counted. */
  lemma CountNode<K>(nodes: seq<Node<K>>, paths: seq<seq<K>>, added: seq<Added<K>>, a: Added<K>, d: nat, i: nat)
    requires Shape(nodes, paths) && Partly(nodes, paths, added, a, d) && i < |nodes| && d < |a.path|
    requires paths[i] == a.path[..d]
    ensures Partly(nodes[i := Counted(nodes[i], a.size)], paths, added, a, d + 1)
  {
    var nodes' := nodes[i := Counted(nodes[i], a.size)];
    forall j, what | 0 <= j < |nodes'|
      ensures Amount(nodes'[j], what) == Expected(added, |added|, paths[j], what) + Paid(a, paths[j], what, d + 1)
    {
      assert Amount(nodes[j], what) == Expected(added, |added|, paths[j], what) + Paid(a, paths[j], what, d);
      assert |paths[j]| == d && paths[j] <= a.path ==> paths[j] == a.path[..d];
    }
  }

  lemma ChildAdded<K>(nodes: seq<Node<K>>, paths: seq<seq<K>>, added: seq<Added<K>>, a: Added<K>, d: nat, i: nat,
      key: K)
    requires |nodes| == |paths| && Partly(nodes, paths, added, a, d) && i < |nodes| && Complete(paths, added)
    requires paths[i] + [key] !in paths && |paths[i]| + 1 == d
    ensures Partly(WithChild(nodes, i, key), paths + [paths[i] + [key]], added, a, d)
    ensures Complete(paths + [paths[i] + [key]], added)
  {
    var path := paths[i] + [key];
    var nodes', paths' := WithChild(nodes, i, key), paths + [path];
    forall k | 0 <= k < |added| ensures !(path <= added[k].path) {
      if |path| <= |added[k].path| {
        assert added[k].path[..|path|] in paths;
        assert path <= added[k].path <==> path == added[k].path[..|path|];
      }
    }
    forall j, what | 0 <= j < |nodes'|
      ensures Amount(nodes'[j], what) == Expected(added, |added|, paths'[j], what) + Paid(a, paths'[j], what, d)
    {
      if j < |nodes| {
        assert Amount(nodes[j], what) == Expected(added, |added|, paths[j], what) + Paid(a, paths[j], what, d);
      } else {
        NothingExpected(added, |added|, path, what);
      }
    }
    NoIds(added, |added|, path);
    assert Listed(nodes', paths', added);
  }

  /** The last node is counted, for itself too, and the allocation is in. */
  lemma CountLast<K>(nodes: seq<Node<K>>, paths: seq<seq<K>>, added: seq<Added<K>>, a: Added<K>, i: nat, node: Node<K>)
    requires Shape(nodes, paths) && Partly(nodes, paths, added, a, |a.path|) && i < |nodes| && paths[i] == a.path
    requires forall what :: Amount(node, what) == Amount(nodes[i], what) + Share(a, a.path, what)
    requires node.selfAllocations == nodes[i].selfAllocations + [a.id]
    ensures Totals(nodes[i := node], paths, added + [a])
  {
    var nodes' := nodes[i := node];
    forall j, what | 0 <= j < |nodes'|
      ensures Amount(nodes'[j], what) == Expected(added + [a], |added + [a]|, paths[j], what)
    {
      assert Amount(nodes[j], what) == Expected(added, |added|, paths[j], what) + Paid(a, paths[j], what, |a.path|);
      ExpectedOneMore(added, a, paths[j], what);
      if j != i {
        assert paths[j] != a.path;
      }
    }
    forall j | 0 <= j < |nodes'| ensures nodes'[j].selfAllocations == Ids(added + [a], |added + [a]|, paths[j]) {
      IdsPrefix(added, [a], |added|, paths[j]);
      if j != i {
        assert paths[j] != a.path;
      }
    }
  }

  class Trie<K(==)> {
    var nodes: seq<Node<K>>

    /** The path of every node, and all that was added. */
    ghost var paths: seq<seq<K>>
    ghost var added: seq<Added<K>>

    ghost predicate Valid()
      reads this
    {
      Shape(nodes, paths) && Complete(paths, added) && Totals(nodes, paths, added)
    }

    constructor ()
      ensures Valid() && added == []
    {
      nodes := [Node(0, 0, 0, 0, [], [], None)];
      paths, added := [[]], [];
    }

    /** The child of a node under a key. */
    method ChildId(i: nat, key: K) returns (child: Option<nat>)
      requires Shape(nodes, paths) && i < |nodes|
      ensures child.Some? ==> child.value < |nodes| && paths[child.value] == paths[i] + [key]
      ensures child.None? ==> paths[i] + [key] !in paths
    {
      assert ChildrenOk(nodes, paths, i);
      var children := nodes[i].children;
      var c := 0;
      while c < |children|
        invariant c <= |children| && forall k :: 0 <= k < c ==> children[k].0 != key
      {
        if children[c].0 == key {
          return Some(children[c].1);
        }
        c := c + 1;
      }
      ChildMissing(nodes, paths, i, key);
      child := None;
    }

    /** Goes down to a child, making it if it is not there. */
    method Descend(i: nat, key: K, ghost a: Added<K>, ghost d: nat) returns (child: nat)
      requires Shape(nodes, paths) && Complete(paths, added) && Partly(nodes, paths, added, a, d)
      requires i < |nodes| && |paths[i]| + 1 == d
      modifies this`nodes, this`paths
      ensures Shape(nodes, paths) && Complete(paths, added) && Partly(nodes, paths, added, a, d)
      ensures child < |nodes| && paths[child] == old(paths[i]) + [key] && old(paths) <= paths
    {
      hide Shape, Complete, Partly;
      ShapeSize(nodes, paths);
      var known := ChildId(i, key);
      if known.Some? {
        return known.value;
      }
      ChildAdded(nodes, paths, added, a, d, i, key);
      WithChildShape(nodes, paths, i, key);
      child := |nodes|;
      nodes := WithChild(nodes, i, key);
      paths := paths + [paths[i] + [key]];
    }

    /** Adds an allocation: counted in every node on the way down its stack, and for itself in the last. */
    method AddAllocation(id: nat, size: nat, path: seq<K>)
      requires Valid()
      modifies this
      ensures Valid() && added == old(added) + [Added(id, size, path)]
    {
      hide Shape, Complete, Totals, Partly;
      ghost var a := Added(id, size, path);
      var i: nat, d: nat := 0, 0;
      StartAdding(nodes, paths, added, a);
      while d < |path|
        invariant Shape(nodes, paths) && Complete(paths, added) && added == old(added)
        invariant d <= |path| && |nodes| == |paths| && i < |nodes| && paths[i] == path[..d]
        invariant Partly(nodes, paths, added, a, d)
        invariant forall k :: 0 <= k <= d ==> path[..k] in paths
      {
        CountNode(nodes, paths, added, a, d, i);
        SameShape(nodes, paths, i, Counted(nodes[i], size));
        nodes := nodes[i := Counted(nodes[i], size)];
        ghost var before := paths;
        i := Descend(i, path[d], a, d + 1);
        d := d + 1;
        ShapeSize(nodes, paths);
        assert path[..d] == path[..d - 1] + [path[d - 1]];
        assert path[..d] in paths;
        forall k | 0 <= k <= d ensures path[..k] in paths {
          if k < d {
            assert path[..k] in before;
          }
        }
      }
      assert path[..d] == path;
      var node := Counted(nodes[i], size).(selfSize := nodes[i].selfSize + size,
        selfCount := nodes[i].selfCount + 1,
        selfAllocations := nodes[i].selfAllocations + [id]);
      CountLast(nodes, paths, added, a, i, node);
      SameShape(nodes, paths, i, node);
      CompleteNow(paths, added, a);
      nodes := nodes[i := node];
      added := added + [a];
    }
  }

  lemma ShapeSize<K>(nodes: seq<Node<K>>, paths: seq<seq<K>>)
    requires Shape(nodes, paths)
    ensures 0 < |nodes| == |paths| && paths[0] == []
  {}

  lemma StartAdding<K>(nodes: seq<Node<K>>, paths: seq<seq<K>>, added: seq<Added<K>>, a: Added<K>)
    requires Shape(nodes, paths) && Totals(nodes, paths, added)
    ensures 0 < |nodes| == |paths| && paths[0] == [] && Partly(nodes, paths, added, a, 0) && [] in paths
  {}

  lemma CompleteNow<K>(paths: seq<seq<K>>, added: seq<Added<K>>, a: Added<K>)
    requires Complete(paths, added) && forall k :: 0 <= k <= |a.path| ==> a.path[..k] in paths
    ensures Complete(paths, added + [a])
  {}

  // ----- Totals are made of their parts

  function ChildTotals<K>(nodes: seq<Node<K>>, i: nat, c: nat, what: What): nat
    requires i < |nodes| && c <= |nodes[i].children|
    requires forall k :: 0 <= k < |nodes[i].children| ==> nodes[i].children[k].1 < |nodes|
  {
    if c == 0 then 0 else ChildTotals(nodes, i, c - 1, what) + Amount(nodes[nodes[i].children[c - 1].1], what)
  }

  /** What the first `c` children of a node get of an allocation. */
  function ChildShares<K(==)>(a: Added<K>, path: seq<K>, children: seq<(K, nat)>, c: nat, what: What): nat
    requires c <= |children|
  {
    if c == 0 then 0 else ChildShares(a, path, children, c - 1, what) + Share(a, path + [children[c - 1].0], what)
  }

  /** At most one child is on the way to an allocation's stack. */
  lemma {:induction false} OneChildShares<K>(a: Added<K>, path: seq<K>, children: seq<(K, nat)>, c: nat, what: What)
    requires c <= |children| && DifferentKeys(children) && (what == TotalSize || what == TotalCount)
    ensures if path <= a.path && |path| < |a.path| && exists k :: 0 <= k < c && children[k].0 == a.path[|path|]
      then ChildShares(a, path, children, c, what) == Share(a, path, what)
      else ChildShares(a, path, children, c, what) == 0
  {
    if c > 0 {
      OneChildShares(a, path, children, c - 1, what);
      var longer := path + [children[c - 1].0];
      if path <= a.path && |path| < |a.path| {
        assert longer <= a.path <==> children[c - 1].0 == a.path[|path|];
      } else {
        assert !(longer <= a.path) by {
          assert longer[..|path|] == path;
        }
      }
    }
  }

  function SelfOf(what: What): What {
    match what
    case TotalSize => SelfSize
    case TotalCount => SelfCount
    case other => other
  }

  /** Expected totals of a node are its own plus its children's. */
  lemma {:induction false} ExpectedParts<K>(added: seq<Added<K>>, n: nat, path: seq<K>, children: seq<(K, nat)>,
      what: What)
    requires n <= |added| && DifferentKeys(children) && (what == TotalSize || what == TotalCount)
    requires forall i :: 0 <= i < n && path <= added[i].path && |path| < |added[i].path| ==>
      exists k :: 0 <= k < |children| && children[k].0 == added[i].path[|path|]
    ensures Expected(added, n, path, what)
      == Expected(added, n, path, SelfOf(what)) + ExpectedChildren(added, n, path, children, |children|, what)
  {
    if n == 0 {
      NoChildren(added, path, children, |children|, what);
    } else {
      ExpectedParts(added, n - 1, path, children, what);
      OneChildShares(added[n - 1], path, children, |children|, what);
      ChildrenStep(added, n, path, children, |children|, what);
    }
  }

  function ExpectedChildren<K(==)>(added: seq<Added<K>>, n: nat, path: seq<K>, children: seq<(K, nat)>, c: nat,
      what: What): nat
    requires n <= |added| && c <= |children|
  {
    if c == 0 then 0
    else ExpectedChildren(added, n, path, children, c - 1, what) + Expected(added, n, path + [children[c - 1].0], what)
  }

  lemma {:induction false} NoChildren<K>(added: seq<Added<K>>, path: seq<K>, children: seq<(K, nat)>, c: nat,
      what: What)
    requires c <= |children|
    ensures ExpectedChildren(added, 0, path, children, c, what) == 0
  {
    if c > 0 {
      NoChildren(added, path, children, c - 1, what);
    }
  }

  lemma {:induction false} ChildrenStep<K>(added: seq<Added<K>>, n: nat, path: seq<K>, children: seq<(K, nat)>, c: nat,
      what: What)
    requires 0 < n <= |added| && c <= |children|
    ensures ExpectedChildren(added, n, path, children, c, what)
      == ExpectedChildren(added, n - 1, path, children, c, what) + ChildShares(added[n - 1], path, children, c, what)
  {
    if c > 0 {
      ChildrenStep(added, n, path, children, c - 1, what);
    }
  }

  lemma {:induction false} ChildrenMatch<K>(nodes: seq<Node<K>>, paths: seq<seq<K>>, added: seq<Added<K>>, i: nat,
      c: nat, what: What)
    requires Shape(nodes, paths) && Totals(nodes, paths, added) && i < |nodes| && c <= |nodes[i].children|
    requires ChildrenOk(nodes, paths, i)
    ensures ChildTotals(nodes, i, c, what) == ExpectedChildren(added, |added|, paths[i], nodes[i].children, c, what)
  {
    if c > 0 {
      ChildrenMatch(nodes, paths, added, i, c - 1, what);
    }
  }

  /** A node's totals are its own numbers plus its children's totals. */
  lemma TotalsAddUp<K>(nodes: seq<Node<K>>, paths: seq<seq<K>>, added: seq<Added<K>>, i: nat, what: What)
    requires Shape(nodes, paths) && Complete(paths, added) && Totals(nodes, paths, added) && i < |nodes|
    requires what == TotalSize || what == TotalCount
    ensures ChildrenOk(nodes, paths, i)
    ensures Amount(nodes[i], what) == Amount(nodes[i], SelfOf(what)) + ChildTotals(nodes, i, |nodes[i].children|, what)
  {
    var children := nodes[i].children;
    assert ChildrenOk(nodes, paths, i);
    forall k | 0 <= k < |added| && paths[i] <= added[k].path && |paths[i]| < |added[k].path|
      ensures exists c :: 0 <= c < |children| && children[c].0 == added[k].path[|paths[i]|]
    {
      NextIsChild(nodes, paths, added, i, k);
    }
    ExpectedParts(added, |added|, paths[i], children, what);
    ChildrenMatch(nodes, paths, added, i, |children|, what);
  }

  lemma NextIsChild<K>(nodes: seq<Node<K>>, paths: seq<seq<K>>, added: seq<Added<K>>, i: nat, k: nat)
    requires Shape(nodes, paths) && Complete(paths, added) && i < |nodes| && k < |added|
    requires paths[i] <= added[k].path && |paths[i]| < |added[k].path|
    ensures exists c :: 0 <= c < |nodes[i].children| && nodes[i].children[c].0 == added[k].path[|paths[i]|]
  {
    var path, d := added[k].path, |paths[i]|;
    assert path[..d + 1] in paths;
    var j :| 0 <= j < |paths| && paths[j] == path[..d + 1];
    assert path[..d + 1] == paths[i] + [path[d]];
    PathIsChild(nodes, paths, i, path[d], j);
  }

  // ----- The collapsed form

  /** A stack and the bytes allocated by it itself. */
  datatype Line<K> = Line(stack: seq<K>, size: nat)

  function LineTotal<K>(lines: seq<Line<K>>, n: nat): nat
    requires n <= |lines|
  {
    if n == 0 then 0 else LineTotal(lines, n - 1) + lines[n - 1].size
  }

  lemma {:induction false} LineTotalPrefix<K>(a: seq<Line<K>>, b: seq<Line<K>>, n: nat)
    requires n <= |a|
    ensures LineTotal(a + b, n) == LineTotal(a, n)
  {
    if n > 0 {
      LineTotalPrefix(a, b, n - 1);
    }
  }

  lemma {:induction false} LineTotalConcat<K>(a: seq<Line<K>>, b: seq<Line<K>>, n: nat)
    requires n <= |b|
    ensures LineTotal(a + b, |a| + n) == LineTotal(a, |a|) + LineTotal(b, n)
  {
    if n == 0 {
      LineTotalPrefix(a, b, |a|);
    } else {
      LineTotalConcat(a, b, n - 1);
    }
  }

  /** A line for a stack at which something was allocated, with all that was. */
  ghost predicate LineOk<K>(line: Line<K>, added: seq<Added<K>>) {
    line.size == Expected(added, |added|, line.stack, SelfSize) && Expected(added, |added|, line.stack, SelfCount) > 0
  }

  ghost predicate LinesOk<K>(lines: seq<Line<K>>, added: seq<Added<K>>) {
    forall i :: 0 <= i < |lines| ==> LineOk(lines[i], added)
  }

  lemma {:induction false} NoCountNoSize<K>(added: seq<Added<K>>, n: nat, path: seq<K>)
    requires n <= |added|
    ensures Expected(added, n, path, SelfCount) == 0 ==> Expected(added, n, path, SelfSize) == 0
  {
    if n > 0 {
      NoCountNoSize(added, n - 1, path);
    }
  }

  ghost predicate HasLine<K>(lines: seq<Line<K>>, stack: seq<K>) {
    exists i :: 0 <= i < |lines| && lines[i].stack == stack
  }

  /** Every allocation whose stack starts this way has a line. */
  ghost predicate Covered<K>(lines: seq<Line<K>>, added: seq<Added<K>>, path: seq<K>) {
    forall k :: 0 <= k < |added| && path <= added[k].path ==> HasLine(lines, added[k].path)
  }

  lemma StillHasLine<K>(a: seq<Line<K>>, b: seq<Line<K>>, stack: seq<K>)
    requires HasLine(a, stack) || HasLine(b, stack)
    ensures HasLine(a + b, stack)
  {
    if HasLine(a, stack) {
      var i :| 0 <= i < |a| && a[i].stack == stack;
      assert (a + b)[i].stack == stack;
    } else {
      var i :| 0 <= i < |b| && b[i].stack == stack;
      assert (a + b)[|a| + i].stack == stack;
    }
  }

  lemma StillCovered<K>(a: seq<Line<K>>, b: seq<Line<K>>, added: seq<Added<K>>, path: seq<K>)
    requires Covered(a, added, path) || Covered(b, added, path)
    ensures Covered(a + b, added, path)
  {
    forall k | 0 <= k < |added| && path <= added[k].path ensures HasLine(a + b, added[k].path) {
      StillHasLine(a, b, added[k].path);
    }
  }

  lemma {:induction false} CountedSelf<K>(added: seq<Added<K>>, n: nat, k: nat)
    requires k < n <= |added|
    ensures Expected(added, n, added[k].path, SelfCount) > 0
  {
    if k < n - 1 {
      CountedSelf(added, n - 1, k);
    }
  }

  /** With a line for itself, if it needs one, and its children covered, a node is covered. */
  lemma CoverNode<K>(nodes: seq<Node<K>>, paths: seq<seq<K>>, added: seq<Added<K>>, i: nat, lines: seq<Line<K>>)
    requires Shape(nodes, paths) && Complete(paths, added) && Totals(nodes, paths, added) && i < |nodes|
    requires nodes[i].selfCount != 0 ==> HasLine(lines, paths[i])
    requires forall c :: 0 <= c < |nodes[i].children| ==> Covered(lines, added, paths[i] + [nodes[i].children[c].0])
    ensures Covered(lines, added, paths[i])
  {
    forall k | 0 <= k < |added| && paths[i] <= added[k].path ensures HasLine(lines, added[k].path) {
      if paths[i] == added[k].path {
        CountedSelf(added, |added|, k);
        assert Amount(nodes[i], SelfCount) == Expected(added, |added|, paths[i], SelfCount);
      } else {
        NextIsChild(nodes, paths, added, i, k);
        var c :| 0 <= c < |nodes[i].children| && nodes[i].children[c].0 == added[k].path[|paths[i]|];
        assert Covered(lines, added, paths[i] + [nodes[i].children[c].0]);
        assert paths[i] + [nodes[i].children[c].0] <= added[k].path;
      }
    }
  }

  /** No two lines are for the same stack. */
  ghost predicate DistinctStacks<K>(lines: seq<Line<K>>) {
    forall i, j :: 0 <= i < j < |lines| ==> lines[i].stack != lines[j].stack
  }

  /** All lines are for stacks that start this way. */
  ghost predicate Under<K>(lines: seq<Line<K>>, path: seq<K>) {
    forall i :: 0 <= i < |lines| ==> path <= lines[i].stack
  }

  ghost predicate UnderChild<K>(stack: seq<K>, path: seq<K>, children: seq<(K, nat)>, c: nat)
    requires c <= |children|
  {
    exists k :: 0 <= k < c && path + [children[k].0] <= stack
  }

  /** All lines are for the node itself or below one of its first `c` children. */
  ghost predicate UnderChildren<K>(lines: seq<Line<K>>, path: seq<K>, children: seq<(K, nat)>, c: nat)
    requires c <= |children|
  {
    forall i :: 0 <= i < |lines| ==> lines[i].stack == path || UnderChild(lines[i].stack, path, children, c)
  }

  lemma OtherChild<K>(a: seq<K>, b: seq<K>, path: seq<K>, children: seq<(K, nat)>, c: nat)
    requires c < |children| && DifferentKeys(children)
    requires a == path || UnderChild(a, path, children, c)
    requires path + [children[c].0] <= b
    ensures a != b
  {
    if a != path {
      var k :| 0 <= k < c && path + [children[k].0] <= a;
      assert a[|path|] == children[k].0 && b[|path|] == children[c].0;
    }
  }

  lemma UnderMore<K>(stack: seq<K>, path: seq<K>, children: seq<(K, nat)>, c: nat)
    requires c < |children|
    ensures UnderChild(stack, path, children, c) || path + [children[c].0] <= stack
      ==> UnderChild(stack, path, children, c + 1)
  {}

  /** The lines below the next child are for other stacks. */
  lemma MoreDistinct<K>(lines: seq<Line<K>>, below: seq<Line<K>>, path: seq<K>, children: seq<(K, nat)>, c: nat)
    requires c < |children| && DifferentKeys(children) && DistinctStacks(lines) && DistinctStacks(below)
    requires UnderChildren(lines, path, children, c) && Under(below, path + [children[c].0])
    ensures DistinctStacks(lines + below) && UnderChildren(lines + below, path, children, c + 1)
  {
    hide UnderChild, DifferentKeys;
    var all := lines + below;
    forall i, j | 0 <= i < j < |all| ensures all[i].stack != all[j].stack {
      if i < |lines| <= j {
        OtherChild(lines[i].stack, below[j - |lines|].stack, path, children, c);
      }
    }
    forall i | 0 <= i < |all| ensures all[i].stack == path || UnderChild(all[i].stack, path, children, c + 1) {
      UnderMore(all[i].stack, path, children, c);
    }
  }

  lemma ChildrenUnder<K>(lines: seq<Line<K>>, path: seq<K>, children: seq<(K, nat)>)
    requires UnderChildren(lines, path, children, |children|)
    ensures Under(lines, path)
  {
    forall i | 0 <= i < |lines| ensures path <= lines[i].stack {
      if lines[i].stack != path {
        var k :| 0 <= k < |children| && path + [children[k].0] <= lines[i].stack;
      }
    }
  }

  /** What the lines of a node and everything below it are. */
  ghost predicate LinesOf<K>(nodes: seq<Node<K>>, paths: seq<seq<K>>, added: seq<Added<K>>, i: nat,
      lines: seq<Line<K>>)
    requires i < |nodes| == |paths|
  {
    && LinesOk(lines, added) && LineTotal(lines, |lines|) == nodes[i].totalSize
    && Covered(lines, added, paths[i]) && DistinctStacks(lines) && Under(lines, paths[i])
  }

  /** The lines of a node itself and of its first `c` children. */
  ghost predicate LinesUpTo<K>(nodes: seq<Node<K>>, paths: seq<seq<K>>, added: seq<Added<K>>, i: nat, c: nat,
      lines: seq<Line<K>>)
    requires i < |nodes| == |paths| && ChildrenOk(nodes, paths, i) && c <= |nodes[i].children|
  {
    && LinesOk(lines, added) && DistinctStacks(lines) && UnderChildren(lines, paths[i], nodes[i].children, c)
    && LineTotal(lines, |lines|) == nodes[i].selfSize + ChildTotals(nodes, i, c, TotalSize)
    && (nodes[i].selfCount != 0 ==> HasLine(lines, paths[i]))
    && forall k :: 0 <= k < c ==> Covered(lines, added, paths[i] + [nodes[i].children[k].0])
  }

  lemma LinesStart<K>(nodes: seq<Node<K>>, paths: seq<seq<K>>, added: seq<Added<K>>, i: nat)
    requires Shape(nodes, paths) && Complete(paths, added) && Totals(nodes, paths, added) && i < |nodes|
    ensures |nodes| == |paths| && ChildrenOk(nodes, paths, i)
    ensures LinesUpTo(nodes, paths, added, i, 0,
      if nodes[i].selfCount != 0 then [Line(paths[i], nodes[i].selfSize)] else [])
  {
    hide Shape, Complete, Totals, HasLine, LineOk;
    NodeFacts(nodes, paths, added, i);
    var lines := if nodes[i].selfCount != 0 then [Line(paths[i], nodes[i].selfSize)] else [];
    assert LineTotal(lines, 0) == 0;
    if nodes[i].selfCount != 0 {
      OwnLine(lines, added);
    }
  }

  lemma LinesStep<K>(nodes: seq<Node<K>>, paths: seq<seq<K>>, added: seq<Added<K>>, i: nat, c: nat,
      lines: seq<Line<K>>, below: seq<Line<K>>)
    requires i < |nodes| == |paths| && ChildrenOk(nodes, paths, i) && c < |nodes[i].children|
    requires LinesUpTo(nodes, paths, added, i, c, lines)
    requires LinesOf(nodes, paths, added, nodes[i].children[c].1, below)
    ensures LinesUpTo(nodes, paths, added, i, c + 1, lines + below)
  {
    hide Covered, HasLine, LinesOk, DifferentKeys, DistinctStacks, Under, UnderChildren;
    LineTotalConcat(lines, below, |below|);
    LinesOkConcat(lines, below, added);
    MoreDistinct(lines, below, paths[i], nodes[i].children, c);
    MoreCovered(lines, below, added, paths[i], nodes[i].children, c, nodes[i].selfCount != 0);
  }

  lemma LinesEnd<K>(nodes: seq<Node<K>>, paths: seq<seq<K>>, added: seq<Added<K>>, i: nat, lines: seq<Line<K>>)
    requires Shape(nodes, paths) && Complete(paths, added) && Totals(nodes, paths, added) && i < |nodes|
    requires ChildrenOk(nodes, paths, i) && LinesUpTo(nodes, paths, added, i, |nodes[i].children|, lines)
    ensures LinesOf(nodes, paths, added, i, lines)
  {
    hide Shape, Complete, Totals, Covered, HasLine, LinesOk, LineOk, DistinctStacks, Under, UnderChildren;
    NodeFacts(nodes, paths, added, i);
    CoverNode(nodes, paths, added, i, lines);
    ChildrenUnder(lines, paths[i], nodes[i].children);
  }

  /** Writes the lines of a node and everything below it; the stack is shared and comes back as it was. */
  method DumpNode<K>(nodes: seq<Node<K>>, i: nat, frame: Option<K>, stack: seq<K>,
      ghost paths: seq<seq<K>>, ghost added: seq<Added<K>>)
    returns (lines: seq<Line<K>>, after: seq<K>)
    requires Shape(nodes, paths) && Complete(paths, added) && Totals(nodes, paths, added) && i < |nodes|
    requires paths[i] == stack + (if frame.Some? then [frame.value] else [])
    ensures after == stack && LinesOf(nodes, paths, added, i, lines)
    decreases |nodes| - i
  {
    hide Shape, Complete, Totals, LinesOf, LinesUpTo, DifferentKeys;
    LinesStart(nodes, paths, added, i);
    after := if frame.Some? then stack + [frame.value] else stack;
    lines := [];
    if nodes[i].selfCount != 0 {
      lines := [Line(after, nodes[i].selfSize)];
    }
    var c := 0;
    while c < |nodes[i].children|
      invariant c <= |nodes[i].children| && after == paths[i]
      invariant LinesUpTo(nodes, paths, added, i, c, lines)
    {
      var (key, child) := nodes[i].children[c];
      var below;
      below, after := DumpNode(nodes, child, Some(key), after, paths, added);
      LinesStep(nodes, paths, added, i, c, lines, below);
      lines := lines + below;
      c := c + 1;
    }
    LinesEnd(nodes, paths, added, i, lines);
    if frame.Some? {
      after := after[..|after| - 1];
    }
  }

  lemma OwnLine<K>(lines: seq<Line<K>>, added: seq<Added<K>>)
    requires |lines| == 1 && LineOk(lines[0], added)
    ensures HasLine(lines, lines[0].stack) && LinesOk(lines, added)
  {}

  lemma LinesOkConcat<K>(a: seq<Line<K>>, b: seq<Line<K>>, added: seq<Added<K>>)
    requires LinesOk(a, added) && LinesOk(b, added)
    ensures LinesOk(a + b, added)
  {}

  lemma MoreCovered<K>(lines: seq<Line<K>>, below: seq<Line<K>>, added: seq<Added<K>>, path: seq<K>,
      children: seq<(K, nat)>, c: nat, own: bool)
    requires c < |children| && Covered(below, added, path + [children[c].0]) && (own ==> HasLine(lines, path))
    requires forall k :: 0 <= k < c ==> Covered(lines, added, path + [children[k].0])
    ensures own ==> HasLine(lines + below, path)
    ensures forall k :: 0 <= k < c + 1 ==> Covered(lines + below, added, path + [children[k].0])
  {
    if own {
      StillHasLine(lines, below, path);
    }
    forall k | 0 <= k < c + 1 ensures Covered(lines + below, added, path + [children[k].0]) {
      StillCovered(lines, below, added, path + [children[k].0]);
    }
  }

  lemma NodeFacts<K>(nodes: seq<Node<K>>, paths: seq<seq<K>>, added: seq<Added<K>>, i: nat)
    requires Shape(nodes, paths) && Complete(paths, added) && Totals(nodes, paths, added) && i < |nodes|
    ensures |nodes| == |paths| && ChildrenOk(nodes, paths, i)
    ensures nodes[i].totalSize == nodes[i].selfSize + ChildTotals(nodes, i, |nodes[i].children|, TotalSize)
    ensures nodes[i].selfCount != 0 ==> LineOk(Line(paths[i], nodes[i].selfSize), added)
    ensures nodes[i].selfCount == 0 ==> nodes[i].selfSize == 0
  {
    TotalsAddUp(nodes, paths, added, i, TotalSize);
    assert Amount(nodes[i], SelfCount) == Expected(added, |added|, paths[i], SelfCount);
    assert Amount(nodes[i], SelfSize) == Expected(added, |added|, paths[i], SelfSize);
    NoCountNoSize(added, |added|, paths[i]);
  }

  function SizeOfAll<K>(added: seq<Added<K>>, n: nat): nat
    requires n <= |added|
  {
    if n == 0 then 0 else SizeOfAll(added, n - 1) + added[n - 1].size
  }

  lemma {:induction false} RootCountsAll<K>(added: seq<Added<K>>, n: nat)
    requires n <= |added|
    ensures Expected(added, n, [], TotalSize) == SizeOfAll(added, n)
  {
    if n > 0 {
      RootCountsAll(added, n - 1);
    }
  }

  /** The root counts every allocation once. */
  lemma {:induction false} RootCountsEach<K>(added: seq<Added<K>>, n: nat)
    requires n <= |added|
    ensures Expected(added, n, [], TotalCount) == n
  {
    if n > 0 {
      RootCountsEach(added, n - 1);
    }
  }

  /** A stack's own count is the number of allocations made at it. */
  lemma {:induction false} SelfCountsEach<K>(added: seq<Added<K>>, n: nat, path: seq<K>)
    requires n <= |added|
    ensures Expected(added, n, path, SelfCount) == |Ids(added, n, path)|
  {
    if n > 0 {
      SelfCountsEach(added, n - 1, path);
    }
  }

  /** The counts in the trie: all allocations at the root, and at every node as many as are listed there. */
  lemma CountsAgree<K>(t: Trie<K>, i: nat)
    requires t.Valid() && i < |t.nodes|
    ensures t.nodes[0].totalCount == |t.added| && t.nodes[i].selfCount == |t.nodes[i].selfAllocations|
  {
    ShapeSize(t.nodes, t.paths);
    RootCountsEach(t.added, |t.added|);
    SelfCountsEach(t.added, |t.added|, t.paths[i]);
    assert Amount(t.nodes[0], TotalCount) == Expected(t.added, |t.added|, t.paths[0], TotalCount);
    assert Amount(t.nodes[i], SelfCount) == Expected(t.added, |t.added|, t.paths[i], SelfCount);
  }

  /**
   One line for every stack at which something was allocated, with all that was allocated there; the sizes on
   all lines together are the root's total, which is everything that was added.
   */
  method DumpCollation<K>(t: Trie<K>) returns (lines: seq<Line<K>>)
    requires t.Valid()
    ensures LinesOk(lines, t.added)
    ensures LineTotal(lines, |lines|) == t.nodes[0].totalSize == SizeOfAll(t.added, |t.added|)
    ensures DistinctStacks(lines) && forall k :: 0 <= k < |t.added| ==> HasLine(lines, t.added[k].path)
  {
    var after;
    lines, after := DumpNode(t.nodes, 0, None, [], t.paths, t.added);
    assert Amount(t.nodes[0], TotalSize) == Expected(t.added, |t.added|, t.paths[0], TotalSize);
    RootCountsAll(t.added, |t.added|);
  }
}
