/** Chains of reallocations: their first and last members, and every member's position. */
module Chains {
  import opened Basics
  import opened Allocations

  datatype Chain = Chain(first: nat, last: nat, length: nat)

  /** Where a chain begins, going by the links back. */
  ghost function First(table: seq<Allocation>, i: nat): (f: nat)
    requires Backward(table) && i < |table|
    ensures f <= i
  {
    assert PreviousOk(table, i);
    if table[i].reallocatedFrom.None? then i else First(table, table[i].reallocatedFrom.value)
  }

  /** How many members of a chain come before this one. */
  ghost function Depth(table: seq<Allocation>, i: nat): nat
    requires Backward(table) && i < |table|
  {
    assert PreviousOk(table, i);
    if table[i].reallocatedFrom.None? then 0 else Depth(table, table[i].reallocatedFrom.value) + 1
  }

  /** The next member of a chain: the allocation that the link forward leads to and that links back. */
  ghost function Next(table: seq<Allocation>, i: nat): (n: Option<nat>)
    requires Backward(table) && i < |table|
    ensures n.Some? ==> i < n.value < |table| && table[n.value].reallocatedFrom == Some(i)
  {
    var n := table[i].reallocation;
    if n.Some? && n.value < |table| && table[n.value].reallocatedFrom == Some(i) then
      assert PreviousOk(table, n.value);
      n
    else None
  }

  /** Where a chain ends. */
  ghost function Last(table: seq<Allocation>, i: nat): (l: nat)
    requires Backward(table) && i < |table|
    ensures i <= l < |table|
    decreases |table| - i
  {
    if Next(table, i).None? then i else Last(table, Next(table, i).value)
  }

  /** The chain ends with an allocation that was not reallocated, rather than with a link that leads nowhere. */
  ghost predicate Closed(table: seq<Allocation>, i: nat)
    requires Backward(table) && i < |table|
  {
    table[Last(table, i)].reallocation.None?
  }

  predicate Chained(a: Allocation) { a.reallocation.Some? || a.reallocatedFrom.Some? }

  /** With all links in order every chain is closed, and the next member is where the link forward leads. */
  lemma {:induction false} InverseCloses(table: seq<Allocation>, i: nat)
    requires Inverse(table) && Backward(table) && i < |table|
    ensures Closed(table, i) && Next(table, i) == table[i].reallocation
    decreases |table| - i
  {
    assert NextOk(table, i);
    if Next(table, i).Some? {
      InverseCloses(table, Next(table, i).value);
    }
  }

  lemma {:induction false} LastOfFirst(table: seq<Allocation>, i: nat)
    requires Backward(table) && i < |table|
    ensures Last(table, First(table, i)) == Last(table, i) && table[First(table, i)].reallocatedFrom.None?
  {
    assert PreviousOk(table, i);
    if table[i].reallocatedFrom.Some? {
      LastOfFirst(table, table[i].reallocatedFrom.value);
    }
  }

  lemma {:induction false} FirstOfLast(table: seq<Allocation>, i: nat)
    requires Backward(table) && i < |table|
    ensures First(table, Last(table, i)) == First(table, i) && Next(table, Last(table, i)).None?
    decreases |table| - i
  {
    if Next(table, i).Some? {
      FirstOfLast(table, Next(table, i).value);
    }
  }

  /** Of two members of a chain, the later one's predecessor is not before the earlier one. */
  lemma {:induction false} NothingBetween(table: seq<Allocation>, i: nat, d: nat)
    requires Backward(table) && i < d < |table| && Last(table, i) == Last(table, d)
    ensures table[d].reallocatedFrom.Some? && i <= table[d].reallocatedFrom.value
    decreases |table| - i
  {
    assert PreviousOk(table, d);
    var n := Next(table, i).value;
    if n < d {
      NothingBetween(table, n, d);
    } else if d < n {
      NothingBetween(table, d, n);
    }
  }

  /** A table that differs only in what is known about chains. */
  ghost predicate SameBut(table: seq<Allocation>, r: seq<Allocation>) {
    |r| == |table| && forall i :: 0 <= i < |table| ==>
      r[i] == table[i].(firstInChain := r[i].firstInChain, positionInChain := r[i].positionInChain)
  }

  ghost predicate Known(table: seq<Allocation>, r: seq<Allocation>, i: nat)
    requires Backward(table) && i < |table| == |r|
  {
    r[i].firstInChain == Some(First(table, i)) && r[i].positionInChain == Depth(table, i)
  }

  ghost predicate Unknown(r: seq<Allocation>, i: nat)
    requires i < |r|
  {
    r[i].firstInChain == None && r[i].positionInChain == 0
  }

  /** Everything is known about the closed chains that end before `n`, and nothing about the others. */
  ghost predicate KnownUpTo(table: seq<Allocation>, r: seq<Allocation>, n: nat)
    requires Backward(table) && |r| == |table|
  {
    forall i :: 0 <= i < |table| ==>
      if Chained(table[i]) && Closed(table, i) && Last(table, i) < n then Known(table, r, i) else Unknown(r, i)
  }

  ghost predicate Heads(table: seq<Allocation>, f: nat, n: nat)
    requires Backward(table)
  {
    && f < |table| && Chained(table[f]) && table[f].reallocatedFrom.None?
    && Closed(table, f) && Last(table, f) < n
  }

  /** The closed chains that end before `n`, by their first members. */
  ghost predicate ChainsUpTo(table: seq<Allocation>, chains: map<nat, Chain>, n: nat)
    requires Backward(table)
  {
    && (forall f: nat :: f in chains <==> Heads(table, f, n))
    && (forall f :: f in chains ==> chains[f] == Chain(f, Last(table, f), Depth(table, Last(table, f)) + 1))
  }

  /** The `n`-th allocation ends no closed chain of several members. */
  lemma NoChainEnds(table: seq<Allocation>, n: nat, i: nat)
    requires Backward(table) && n < |table| && i < |table|
    requires table[n].reallocation.Some? || table[n].reallocatedFrom.None?
    ensures Chained(table[i]) && Closed(table, i) ==> Last(table, i) != n
  {
    if Last(table, i) == n {
      FirstOfLast(table, i);
      if i < n {
        NothingBetween(table, i, n);
      }
    }
  }

  /** Walks back from the end of a chain to its beginning. */
  method WalkBack(r: seq<Allocation>, last: nat, ghost table: seq<Allocation>) returns (first: nat, length: nat)
    requires Backward(table) && SameBut(table, r) && last < |r|
    ensures first == First(table, last) && length == Depth(table, last) + 1
  {
    first, length := last, 1;
    while r[first].reallocatedFrom.Some?
      invariant first < |r| && First(table, first) == First(table, last)
      invariant length == Depth(table, last) - Depth(table, first) + 1
      decreases first
    {
      assert PreviousOk(table, first);
      first := r[first].reallocatedFrom.value;
      length := length + 1;
    }
  }

  /** Members of the chain that ends at `n` which come before `current` are known; the rest is as it was. */
  ghost predicate Walked(table: seq<Allocation>, before: seq<Allocation>, r: seq<Allocation>, n: nat, current: nat)
    requires Backward(table) && |before| == |r| == |table|
  {
    forall i :: 0 <= i < |table| ==>
      if Last(table, i) == n && i < current then Known(table, r, i) else r[i] == before[i]
  }

  lemma WalkStep(table: seq<Allocation>, before: seq<Allocation>, r: seq<Allocation>, n: nat, current: nat, next: nat)
    requires Backward(table) && SameBut(table, before) && SameBut(table, r) && Walked(table, before, r, n, current)
    requires current < |table| && Last(table, current) == n && current < next
    requires Next(table, current) == if next <= n then Some(next) else None
    ensures var a := r[current].(firstInChain := Some(First(table, current)), positionInChain := Depth(table, current));
      SameBut(table, r[current := a]) && Walked(table, before, r[current := a], n, next)
  {
    var a := r[current].(firstInChain := Some(First(table, current)), positionInChain := Depth(table, current));
    var r' := r[current := a];
    forall i | 0 <= i < |table|
      ensures if Last(table, i) == n && i < next then Known(table, r', i) else r'[i] == before[i]
    {
      if Last(table, i) == n {
        BetweenMembers(table, current, i, next, n);
      }
    }
  }

  /** No member lies strictly between one and the next. */
  lemma BetweenMembers(table: seq<Allocation>, current: nat, i: nat, next: nat, n: nat)
    requires Backward(table) && current < |table| && i < |table| && Last(table, i) == Last(table, current) == n
    requires Next(table, current) == if next <= n then Some(next) else None
    ensures i <= current || next <= i
  {
    if i < next <= n {
      NothingBetween(table, i, next);
    }
  }

  /** Walks forward from the beginning of a chain, numbering its members. */
  method WalkForward(before: seq<Allocation>, first: nat, ghost table: seq<Allocation>, ghost n: nat)
    returns (r: seq<Allocation>)
    requires Backward(table) && SameBut(table, before) && n < |table|
    requires first == First(table, n) && Last(table, n) == n && table[n].reallocation.None?
    ensures SameBut(table, r) && Walked(table, before, r, n, n + 1)
  {
    r := before;
    var current, position := first, 0;
    LastOfFirst(table, n);
    StartWalk(table, before, n, first);
    var more := true;
    while more
      invariant SameBut(table, r)
      invariant more ==>
        current < |r| && Last(table, current) == n &&
        First(table, current) == first && position == Depth(table, current)
      invariant Walked(table, before, r, n, if more then current else n + 1)
      decreases more, n - current
    {
      ghost var next := if r[current].reallocation.Some? then r[current].reallocation.value else n + 1;
      WalkStep(table, before, r, n, current, next);
      r := r[current := r[current].(firstInChain := Some(first), positionInChain := position)];
      if r[current].reallocation.Some? {
        current, position := r[current].reallocation.value, position + 1;
      } else {
        more := false;
      }
    }
  }

  /** No member comes before the first one. */
  lemma StartWalk(table: seq<Allocation>, before: seq<Allocation>, n: nat, first: nat)
    requires Backward(table) && SameBut(table, before) && n < |table| && first == First(table, n) && Last(table, n) == n
    ensures Walked(table, before, before, n, first)
  {
    LastOfFirst(table, n);
    forall i | 0 <= i < |table| && Last(table, i) == n ensures first <= i {
      if i < first {
        NothingBetween(table, i, first);
      }
    }
  }

  lemma KnownNext(table: seq<Allocation>, before: seq<Allocation>, r: seq<Allocation>, n: nat)
    requires Backward(table) && |before| == |r| == |table| && n < |table|
    requires table[n].reallocation.None? && table[n].reallocatedFrom.Some?
    requires KnownUpTo(table, before, n) && Walked(table, before, r, n, n + 1)
    ensures KnownUpTo(table, r, n + 1)
  {
    forall i | 0 <= i < |table|
      ensures if Chained(table[i]) && Closed(table, i) && Last(table, i) < n + 1 then Known(table, r, i)
        else Unknown(r, i)
    {}
  }

  lemma ChainsNext(table: seq<Allocation>, chains: map<nat, Chain>, n: nat)
    requires Backward(table) && n < |table| && table[n].reallocation.None? && table[n].reallocatedFrom.Some?
    requires ChainsUpTo(table, chains, n)
    ensures var f := First(table, n);
      ChainsUpTo(table, chains[f := Chain(f, n, Depth(table, n) + 1)], n + 1)
  {
    var f := First(table, n);
    LastOfFirst(table, n);
    MemberChained(table, n);
    forall g: nat | g < |table| && table[g].reallocatedFrom.None? && Last(table, g) == n ensures g == f {
      FirstOfLast(table, g);
    }
  }

  /** What loading ends with: every member of a closed chain learns its first member and its position in it. */
  method AssignChains(table: seq<Allocation>) returns (r: seq<Allocation>, chains: map<nat, Chain>)
    requires Backward(table) && forall i :: 0 <= i < |table| ==> Unknown(table, i)
    ensures SameBut(table, r) && KnownUpTo(table, r, |table|) && ChainsUpTo(table, chains, |table|)
  {
    r, chains := table, map[];
    var index := 0;
    while index < |r|
      invariant SameBut(table, r) && index <= |r|
      invariant KnownUpTo(table, r, index) && ChainsUpTo(table, chains, index)
    {
      if r[index].reallocation.Some? || r[index].reallocatedFrom.None? {
        forall i | 0 <= i < |table| ensures Chained(table[i]) && Closed(table, i) ==> Last(table, i) != index {
          NoChainEnds(table, index, i);
        }
      } else {
        var first, length := WalkBack(r, index, table);
        ChainsNext(table, chains, index);
        chains := chains[first := Chain(first, index, length)];
        ghost var before := r;
        r := WalkForward(r, first, table, index);
        KnownNext(table, before, r, index);
      }
      index := index + 1;
    }
  }

  /** What is known about the members of a chain follows its links. */
  lemma KnownFollows(table: seq<Allocation>, r: seq<Allocation>, i: nat)
    requires Backward(table) && SameBut(table, r) && KnownUpTo(table, r, |table|) && i < |r|
    requires Chained(table[i]) && Closed(table, i)
    ensures r[i].reallocatedFrom.None? ==> r[i].firstInChain == Some(i) && r[i].positionInChain == 0
    ensures r[i].reallocatedFrom.Some? ==>
      var p := r[i].reallocatedFrom.value;
      p < i && r[i].firstInChain == r[p].firstInChain && r[i].positionInChain == r[p].positionInChain + 1
  {
    assert PreviousOk(table, i);
    assert Known(table, r, i);
    if table[i].reallocatedFrom.Some? {
      var p := table[i].reallocatedFrom.value;
      assert Next(table, p) == Some(i);
      assert Known(table, r, p);
    }
  }

  /** A chain begins with its first member, and is as long as the position of its last one says. */
  lemma ChainSpans(table: seq<Allocation>, r: seq<Allocation>, chains: map<nat, Chain>, f: nat)
    requires Backward(table) && SameBut(table, r) && KnownUpTo(table, r, |table|)
    requires ChainsUpTo(table, chains, |table|) && f in chains
    ensures var c := chains[f];
      && c.first == f <= c.last < |r| && r[f].reallocatedFrom.None? && r[c.last].reallocation.None?
      && r[f].firstInChain == r[c.last].firstInChain == Some(f) && c.length == r[c.last].positionInChain + 1
  {
    assert Heads(table, f, |table|);
    var l := Last(table, f);
    FirstOfLast(table, f);
    LastOfFirst(table, l);
    assert Known(table, r, f);
    assert Chained(table[l]) by {
      if l != f {
        NothingBetween(table, f, l);
      }
    }
    assert Known(table, r, l);
  }

  /** The chain of any allocation, from what it learned; one that learned nothing is a chain of its own. */
  method ChainOf(r: seq<Allocation>, chains: map<nat, Chain>, i: nat, ghost table: seq<Allocation>) returns (c: Chain)
    requires Backward(table) && SameBut(table, r) && i < |r|
    requires KnownUpTo(table, r, |table|) && ChainsUpTo(table, chains, |table|)
    ensures c == if Closed(table, i) then Chain(First(table, i), Last(table, i), Depth(table, Last(table, i)) + 1)
      else Chain(i, i, 1)
  {
    LastOfFirst(table, i);
    assert PreviousOk(table, i);
    match r[i].firstInChain {
      case Some(initial) =>
        MemberChained(table, i);
        c := chains[initial];
      case None =>
        c := Chain(i, i, 1);
    }
  }

  lemma MemberChained(table: seq<Allocation>, i: nat)
    requires Backward(table) && i < |table| && Chained(table[i]) && Closed(table, i)
    ensures Chained(table[First(table, i)])
  {
    LastOfFirst(table, i);
    assert PreviousOk(table, i);
    if First(table, i) != i {
      assert Last(table, First(table, i)) == Last(table, i) >= i > First(table, i);
    }
  }
}
