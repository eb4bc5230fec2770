/** The loader's table of allocations: which of them are live, and how reallocations link them. */
module Allocations {
  import opened Basics
  import opened Trace

  datatype Deallocation = Deallocation(timestamp: nat, thread: nat, backtrace: Option<nat>)

  /** An allocation; `reallocation` and `reallocatedFrom` are the next and the previous one in its chain. */
  datatype Allocation = Allocation(
    timestamp: nat,
    body: Body,
    deallocation: Option<Deallocation>,
    reallocation: Option<nat>,
    reallocatedFrom: Option<nat>,
    firstInChain: Option<nat>,
    positionInChain: nat)

  // ----- The live allocations, by key

  ghost predicate Holds(m: map<Id, nat>, i: nat) {
    exists k :: k in m && m[k] == i
  }

  ghost predicate InTable(m: map<Id, nat>, table: seq<Allocation>) {
    forall k :: k in m ==> m[k] < |table|
  }

  /** The map holds exactly the allocations without a deallocation, under distinct keys. */
  ghost predicate Indexed(table: seq<Allocation>, m: map<Id, nat>) {
    && InTable(m, table)
    && (forall k, l :: k in m && l in m && m[k] == m[l] ==> k == l)
    && (forall i :: 0 <= i < |table| ==> (table[i].deallocation.None? <==> Holds(m, i)))
  }

  ghost function Live(table: seq<Allocation>, m: map<Id, nat>): map<Id, LiveBlock>
    requires InTable(m, table)
  {
    map k | k in m :: LiveBlock(table[m[k]].timestamp, table[m[k]].body)
  }

  lemma IndexedTable(table: seq<Allocation>, m: map<Id, nat>)
    requires Indexed(table, m)
    ensures InTable(m, table)
  {}

  lemma LiveKeys(table: seq<Allocation>, m: map<Id, nat>)
    requires InTable(m, table)
    ensures Live(table, m).Keys == m.Keys
  {}

  lemma LiveEntry(table: seq<Allocation>, m: map<Id, nat>, key: Id)
    requires Indexed(table, m) && key in m
    ensures InTable(m, table) && table[m[key]].deallocation.None?
    ensures key in Live(table, m) && Live(table, m)[key] == LiveBlock(table[m[key]].timestamp, table[m[key]].body)
  {
    assert Holds(m, m[key]);
  }

  /** A new allocation under a free key. */
  lemma AddLive(table: seq<Allocation>, m: map<Id, nat>, key: Id, a: Allocation)
    requires Indexed(table, m) && key !in m && a.deallocation.None?
    ensures Indexed(table + [a], m[key := |table|])
    ensures Live(table + [a], m[key := |table|]) == Live(table, m)[key := LiveBlock(a.timestamp, a.body)]
  {
    hide Holds;
    var table', m' := table + [a], m[key := |table|];
    forall i | 0 <= i < |table'| ensures table'[i].deallocation.None? <==> Holds(m', i) {
      HoldsAdded(m, key, |table|, i);
      if i == |table| {
        NewIndex(table, m);
      }
    }
  }

  lemma HoldsAdded(m: map<Id, nat>, key: Id, index: nat, i: nat)
    requires key !in m
    ensures Holds(m[key := index], i) <==> i == index || Holds(m, i)
  {
    var m' := m[key := index];
    if Holds(m, i) {
      var k :| k in m && m[k] == i;
      assert m'[k] == i;
    }
    if i == index {
      assert m'[key] == i;
    }
  }

  lemma NewIndex(table: seq<Allocation>, m: map<Id, nat>)
    requires InTable(m, table)
    ensures !Holds(m, |table|)
  {}

  /** An allocation ends. */
  lemma EndLive(table: seq<Allocation>, m: map<Id, nat>, key: Id, a: Allocation)
    requires Indexed(table, m) && key in m && a.deallocation.Some?
    ensures Indexed(table[m[key] := a], m - {key})
    ensures Live(table[m[key] := a], m - {key}) == Live(table, m) - {key}
  {
    var table', m' := table[m[key] := a], m - {key};
    forall i | 0 <= i < |table'| ensures table'[i].deallocation.None? <==> Holds(m', i) {
      if i != m[key] {
        if Holds(m, i) {
          var k :| k in m && m[k] == i;
          assert k in m' && m'[k] == i;
        }
        if Holds(m', i) {
          var k :| k in m' && m'[k] == i;
          assert k in m && m[k] == i;
        }
      }
    }
  }

  // ----- The links between reallocations

  ghost predicate NextOk(table: seq<Allocation>, i: nat)
    requires i < |table|
  {
    table[i].reallocation.Some? ==>
      i < table[i].reallocation.value < |table| && table[table[i].reallocation.value].reallocatedFrom == Some(i)
  }

  ghost predicate PreviousOk(table: seq<Allocation>, i: nat)
    requires i < |table|
  {
    table[i].reallocatedFrom.Some? ==>
      table[i].reallocatedFrom.value < i && table[table[i].reallocatedFrom.value].reallocation == Some(i)
  }

  /** Following a link there and back leads to the same allocation, and chains go forward in the table. */
  ghost predicate Inverse(table: seq<Allocation>) {
    forall i :: 0 <= i < |table| ==> NextOk(table, i) && PreviousOk(table, i)
  }

  /** Links back are always answered by links forward; links forward may lead nowhere. */
  ghost predicate Backward(table: seq<Allocation>) {
    forall i :: 0 <= i < |table| ==> PreviousOk(table, i)
  }

  lemma AddBackward(table: seq<Allocation>, a: Allocation)
    requires Backward(table) && a.reallocatedFrom.None?
    ensures Backward(table + [a])
  {
    var table' := table + [a];
    forall i | 0 <= i < |table'| ensures PreviousOk(table', i) {
      if i < |table| {
        assert PreviousOk(table, i);
      }
    }
  }

  lemma EndBackward(table: seq<Allocation>, j: nat, a: Allocation)
    requires Backward(table) && j < |table| && table[j].reallocation.None?
    requires a.reallocatedFrom == table[j].reallocatedFrom
    ensures Backward(table[j := a])
  {
    var table' := table[j := a];
    forall i | 0 <= i < |table'| ensures PreviousOk(table', i) {
      assert PreviousOk(table, i);
    }
  }

  lemma ReallocBackward(table: seq<Allocation>, j: nat, a: Allocation, b: Allocation)
    requires Backward(table) && j < |table| && table[j].reallocation.None?
    requires a.reallocatedFrom == table[j].reallocatedFrom && a.reallocation == Some(|table|)
    requires b.reallocatedFrom == Some(j)
    ensures Backward(table[j := a] + [b])
  {
    EndBackward(table, j, a);
    var before, table' := table[j := a], table[j := a] + [b];
    forall i | 0 <= i < |table'| ensures PreviousOk(table', i) {
      if i < |table| {
        assert PreviousOk(before, i);
      }
    }
  }

  lemma AddUnlinked(table: seq<Allocation>, a: Allocation)
    requires Inverse(table) && a.reallocation.None? && a.reallocatedFrom.None?
    ensures Inverse(table + [a])
  {
    var table' := table + [a];
    forall i | 0 <= i < |table'| ensures NextOk(table', i) && PreviousOk(table', i) {
      if i < |table| {
        assert NextOk(table, i) && PreviousOk(table, i);
      }
    }
  }

  lemma SameLinks(table: seq<Allocation>, i: nat, a: Allocation)
    requires Inverse(table) && i < |table| && a.reallocation == table[i].reallocation
    requires a.reallocatedFrom == table[i].reallocatedFrom
    ensures Inverse(table[i := a])
  {
    var table' := table[i := a];
    forall k | 0 <= k < |table'| ensures NextOk(table', k) && PreviousOk(table', k) {
      assert NextOk(table, k) && PreviousOk(table, k);
    }
  }

  /** A reallocation that gets its own entry is linked both ways. */
  lemma AddLinked(table: seq<Allocation>, i: nat, a: Allocation, b: Allocation)
    requires Inverse(table) && i < |table| && table[i].reallocation.None?
    requires a.reallocation == Some(|table|) && a.reallocatedFrom == table[i].reallocatedFrom
    requires b.reallocation.None? && b.reallocatedFrom == Some(i)
    ensures Inverse(table[i := a] + [b])
  {
    var table' := table[i := a] + [b];
    forall k | 0 <= k < |table'| ensures NextOk(table', k) && PreviousOk(table', k) {
      if k < |table| {
        assert NextOk(table, k) && PreviousOk(table, k);
      }
    }
  }

  /** A dead allocation whose link forward does not come back. */
  ghost predicate Broken(table: seq<Allocation>, i: nat) {
    && i < |table| && table[i].deallocation.Some? && table[i].reallocation.Some?
    && (table[i].reallocation.value < |table| ==> table[table[i].reallocation.value].reallocatedFrom != Some(i))
  }

  lemma BrokenNotInverse(table: seq<Allocation>, i: nat)
    requires Broken(table, i)
    ensures !Inverse(table)
  {
    assert !NextOk(table, i);
  }

  /** Broken links are never mended. */
  ghost predicate StillBroken(table: seq<Allocation>, table': seq<Allocation>) {
    forall i :: Broken(table, i) ==> Broken(table', i)
  }

  lemma AddBroken(table: seq<Allocation>, a: Allocation)
    requires a.reallocatedFrom.None?
    ensures StillBroken(table, table + [a])
  {}

  lemma EndBroken(table: seq<Allocation>, j: nat, a: Allocation)
    requires j < |table| && table[j].deallocation.None? && a.reallocatedFrom == table[j].reallocatedFrom
    ensures StillBroken(table, table[j := a])
  {}

  lemma ReallocBroken(table: seq<Allocation>, j: nat, a: Allocation, b: Allocation)
    requires j < |table| && table[j].deallocation.None? && a.reallocatedFrom == table[j].reallocatedFrom
    requires b.reallocatedFrom == Some(j)
    ensures StillBroken(table, table[j := a] + [b])
  {}

  lemma SameBroken(table: seq<Allocation>)
    ensures StillBroken(table, table)
  {}

  /** A reallocation with an entry of its own. */
  lemma LinkedOn(table: seq<Allocation>, i: nat, a: Allocation, b: Allocation)
    requires Backward(table) && i < |table| && table[i].deallocation.None? && table[i].reallocation.None?
    requires a.reallocation == Some(|table|) && a.reallocatedFrom == table[i].reallocatedFrom
    requires b.reallocation.None? && b.reallocatedFrom == Some(i)
    ensures Backward(table[i := a] + [b]) && StillBroken(table, table[i := a] + [b])
    ensures Inverse(table) ==> Inverse(table[i := a] + [b])
  {
    hide Inverse, Backward, StillBroken;
    ReallocBroken(table, i, a, b);
    ReallocBackward(table, i, a, b);
    if Inverse(table) {
      AddLinked(table, i, a, b);
    }
  }

  /** A reallocation without one. */
  lemma LinkedNowhere(table: seq<Allocation>, i: nat, a: Allocation)
    requires Backward(table) && i < |table| && table[i].deallocation.None? && table[i].reallocation.None?
    requires a.deallocation.Some? && a.reallocation == Some(|table|) && a.reallocatedFrom == table[i].reallocatedFrom
    ensures Backward(table[i := a]) && StillBroken(table, table[i := a]) && Broken(table[i := a], i)
  {
    hide Backward, StillBroken;
    EndBroken(table, i, a);
    EndBackward(table, i, a);
  }
}
