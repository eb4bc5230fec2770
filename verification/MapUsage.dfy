/** How the usage of a memory map changed over time, from the deltas its regions left. */
module MapUsage {
  import opened Basics
  import opened Sorting

  /** Amounts of memory of every kind, or changes of them. */
  datatype Usage =
    Usage(addressSpace: int, anonymous: int, sharedClean: int, sharedDirty: int,
      privateClean: int, privateDirty: int, swap: int)

  function Nothing(): Usage { Usage(0, 0, 0, 0, 0, 0, 0) }

  function Add(a: Usage, b: Usage): Usage {
    Usage(a.addressSpace + b.addressSpace, a.anonymous + b.anonymous, a.sharedClean + b.sharedClean,
          a.sharedDirty + b.sharedDirty,
          a.privateClean + b.privateClean, a.privateDirty + b.privateDirty, a.swap + b.swap)
  }

  function Subtract(a: Usage, b: Usage): Usage {
    Usage(a.addressSpace - b.addressSpace, a.anonymous - b.anonymous, a.sharedClean - b.sharedClean,
          a.sharedDirty - b.sharedDirty,
          a.privateClean - b.privateClean, a.privateDirty - b.privateDirty, a.swap - b.swap)
  }

  /** What is in memory. */
  function Resident(u: Usage): int { u.sharedClean + u.sharedDirty + u.privateClean + u.privateDirty }

  datatype Kind = AddressSpace | Anonymous | SharedClean | SharedDirty | PrivateClean | PrivateDirty | Swap

  function Of(u: Usage, k: Kind): int {
    match k
    case AddressSpace => u.addressSpace
    case Anonymous => u.anonymous
    case SharedClean => u.sharedClean
    case SharedDirty => u.sharedDirty
    case PrivateClean => u.privateClean
    case PrivateDirty => u.privateDirty
    case Swap => u.swap
  }

  /** A change, or a level, at a time. */
  datatype Stamped = Stamped(timestamp: nat, amount: Usage)

  function Time(): Stamped -> nat { (s: Stamped) => s.timestamp }

  // ----- What a history should say

  /** The sum of all changes stamped `t` or earlier, among the first `n`. */
  function SumUpTo(s: seq<Stamped>, n: nat, t: nat, k: Kind): int
    requires n <= |s|
  {
    if n == 0 then 0 else SumUpTo(s, n - 1, t, k) + (if s[n - 1].timestamp <= t then Of(s[n - 1].amount, k) else 0)
  }

  /** The level at time `t`: that of the latest of the first `n` entries stamped `t` or earlier. */
  function LevelAt(history: seq<Stamped>, n: nat, t: nat, k: Kind): int
    requires n <= |history|
  {
    if n == 0 then 0
    else if history[n - 1].timestamp <= t then Of(history[n - 1].amount, k)
    else LevelAt(history, n - 1, t, k)
  }

  /** No level is below zero, as the conversions to unsigned numbers need it. */
  ghost predicate NoneNegative(history: seq<Stamped>) {
    forall i, k: Kind :: 0 <= i < |history| ==> Of(history[i].amount, k) >= 0
  }

  /** At no time do the changes made up to then sum to less than zero. */
  ghost predicate SumsNotNegative(changes: seq<Stamped>) {
    forall t: nat, k: Kind :: SumUpTo(changes, |changes|, t, k) >= 0
  }

  ghost predicate SameSums(a: seq<Stamped>, b: seq<Stamped>) {
    forall t: nat, k: Kind :: SumUpTo(a, |a|, t, k) == SumUpTo(b, |b|, t, k)
  }

  predicate StrictlyOrdered(s: seq<Stamped>) {
    forall i, j :: 0 <= i < j < |s| ==> s[i].timestamp < s[j].timestamp
  }

  // ----- Sorting keeps the sums

  lemma {:induction false} SumPrefix(a: seq<Stamped>, b: seq<Stamped>, n: nat, t: nat, k: Kind)
    requires n <= |a|
    ensures SumUpTo(a + b, n, t, k) == SumUpTo(a, n, t, k)
  {
    if n > 0 {
      SumPrefix(a, b, n - 1, t, k);
    }
  }

  lemma SumOneMore(a: seq<Stamped>, x: Stamped, t: nat, k: Kind)
    ensures SumUpTo(a + [x], |a| + 1, t, k) == SumUpTo(a, |a|, t, k) + (if x.timestamp <= t then Of(x.amount, k) else 0)
  {
    SumPrefix(a, [x], |a|, t, k);
  }

  lemma {:induction false} SumInsert(s: seq<Stamped>, x: Stamped, t: nat, k: Kind)
    ensures var r := Insert(s, x, Time());
      SumUpTo(r, |r|, t, k) == SumUpTo(s, |s|, t, k) + (if x.timestamp <= t then Of(x.amount, k) else 0)
  {
    SumOneMore(s, x, t, k);
    if s != [] && Time()(s[|s| - 1]) > Time()(x) {
      var rest, last := s[..|s| - 1], s[|s| - 1];
      SumInsert(rest, x, t, k);
      SumOneMore(Insert(rest, x, Time()), last, t, k);
      SumOneMore(rest, last, t, k);
      assert s == rest + [last];
    }
  }

  lemma {:induction false} SumSort(s: seq<Stamped>, n: nat, t: nat, k: Kind)
    requires n <= |s|
    ensures var r := Sort(s, n, Time()); SumUpTo(r, |r|, t, k) == SumUpTo(s, n, t, k)
  {
    if n > 0 {
      SumSort(s, n - 1, t, k);
      SumInsert(Sort(s, n - 1, Time()), s[n - 1], t, k);
    }
  }

  lemma {:induction false} SumUpdate(s: seq<Stamped>, i: nat, x: Stamped, n: nat, t: nat, k: Kind)
    requires i < |s| && n <= |s| && x.timestamp == s[i].timestamp
    ensures SumUpTo(s[i := x], n, t, k)
      == SumUpTo(s, n, t, k) + (if i < n && x.timestamp <= t then Of(x.amount, k) - Of(s[i].amount, k) else 0)
  {
    if n > 0 {
      SumUpdate(s, i, x, n - 1, t, k);
    }
  }

  // ----- Merging changes made at the same time

  /** Up to `n`, a change followed by another one at the same time is none. */
  ghost predicate MergedUpTo(s: seq<Stamped>, n: nat) {
    forall i :: 0 <= i < n && i + 1 < |s| && s[i].timestamp == s[i + 1].timestamp ==> s[i].amount == Nothing()
  }

  /** Moves a change on to the next one. */
  function Carried(s: seq<Stamped>, i: nat): seq<Stamped>
    requires i + 1 < |s|
  {
    s[i := s[i].(amount := Nothing())][i + 1 := s[i + 1].(amount := Add(s[i + 1].amount, s[i].amount))]
  }

  lemma CarriedSums(s: seq<Stamped>, i: nat)
    requires i + 1 < |s| && s[i].timestamp == s[i + 1].timestamp
    ensures SameSums(s, Carried(s, i))
  {
    var s1 := s[i := s[i].(amount := Nothing())];
    forall t: nat, k: Kind ensures SumUpTo(Carried(s, i), |s|, t, k) == SumUpTo(s, |s|, t, k) {
      SumUpdate(s, i, s1[i], |s|, t, k);
      SumUpdate(s1, i + 1, Carried(s, i)[i + 1], |s|, t, k);
    }
  }

  method Merge(sorted: seq<Stamped>) returns (merged: seq<Stamped>)
    requires SortedBy(sorted, Time())
    ensures |merged| == |sorted| && SortedBy(merged, Time()) && MergedUpTo(merged, |merged|) && SameSums(sorted, merged)
  {
    merged := sorted;
    var index := 0;
    while index + 1 < |merged|
      invariant |merged| == |sorted| && (index + 1 <= |merged| || |merged| == 0)
      invariant forall i :: 0 <= i < |merged| ==> merged[i].timestamp == sorted[i].timestamp
      invariant forall i :: index < i < |merged| ==> merged[i] == sorted[i]
      invariant MergedUpTo(merged, index) && SameSums(sorted, merged)
    {
      if merged[index].timestamp == merged[index + 1].timestamp {
        CarriedSums(merged, index);
        merged := Carried(merged, index);
      }
      index := index + 1;
    }
    assert forall i :: 0 <= i < |merged| ==> Time()(merged[i]) == Time()(sorted[i]);
  }

  // ----- Dropping what changed nothing

  ghost predicate SumsOfFirst(merged: seq<Stamped>, n: nat, kept: seq<Stamped>)
    requires n <= |merged|
  {
    forall t: nat, k: Kind :: SumUpTo(kept, |kept|, t, k) == SumUpTo(merged, n, t, k)
  }

  lemma KeepNext(merged: seq<Stamped>, n: nat, kept: seq<Stamped>)
    requires n < |merged| && SumsOfFirst(merged, n, kept)
    ensures SumsOfFirst(merged, n + 1, if merged[n].amount != Nothing() then kept + [merged[n]] else kept)
  {
    var kept' := if merged[n].amount != Nothing() then kept + [merged[n]] else kept;
    forall t: nat, k: Kind ensures SumUpTo(kept', |kept'|, t, k) == SumUpTo(merged, n + 1, t, k) {
      assert SumUpTo(kept, |kept|, t, k) == SumUpTo(merged, n, t, k);
      SumOneMore(kept, merged[n], t, k);
    }
  }

  method Retain(merged: seq<Stamped>) returns (kept: seq<Stamped>)
    requires SortedBy(merged, Time()) && MergedUpTo(merged, |merged|)
    ensures StrictlyOrdered(kept) && SameSums(merged, kept)
    ensures forall i :: 0 <= i < |kept| ==> kept[i].amount != Nothing()
  {
    kept := [];
    var n := 0;
    while n < |merged|
      invariant n <= |merged| && StrictlyOrdered(kept) && SumsOfFirst(merged, n, kept)
      invariant forall i :: 0 <= i < |kept| ==> kept[i].amount != Nothing()
      invariant n < |merged| ==> forall i :: 0 <= i < |kept| ==> kept[i].timestamp < merged[n].timestamp
    {
      KeepNext(merged, n, kept);
      if n + 1 < |merged| {
        assert Time()(merged[n]) <= Time()(merged[n + 1]);
      }
      if merged[n].amount != Nothing() {
        kept := kept + [merged[n]];
      }
      n := n + 1;
    }
  }

  // ----- Adding up

  /** A history whose levels are the running sums of the changes. */
  ghost predicate RunningSums(changes: seq<Stamped>, history: seq<Stamped>) {
    |history| == |changes| && forall i :: 0 <= i < |history| ==> RunningAt(changes, history, i)
  }

  ghost predicate RunningAt(changes: seq<Stamped>, history: seq<Stamped>, i: nat)
    requires i < |changes| && i < |history|
  {
    history[i] ==
      Stamped(changes[i].timestamp, Add(if i == 0 then Nothing() else history[i - 1].amount, changes[i].amount))
  }

  lemma OfAdd(a: Usage, b: Usage, k: Kind)
    ensures Of(Add(a, b), k) == Of(a, k) + Of(b, k) && Subtract(Add(a, b), a) == b
  {}

  lemma {:induction false} LevelIsSum(changes: seq<Stamped>, history: seq<Stamped>, n: nat, t: nat, k: Kind)
    requires RunningSums(changes, history) && StrictlyOrdered(changes) && n <= |changes|
    ensures LevelAt(history, n, t, k) == SumUpTo(changes, n, t, k)
    ensures n > 0 && changes[n - 1].timestamp <= t ==> Of(history[n - 1].amount, k) == SumUpTo(changes, n, t, k)
  {
    if n > 0 {
      LevelIsSum(changes, history, n - 1, t, k);
      assert RunningAt(changes, history, n - 1);
      OfAdd(if n == 1 then Nothing() else history[n - 2].amount, changes[n - 1].amount, k);
      if n > 1 {
        assert changes[n - 2].timestamp < changes[n - 1].timestamp;
      }
    }
  }

  /** The most that was in memory at any time, clean or dirty, shared or private. */
  ghost predicate IsPeak(history: seq<Stamped>, peak: int) {
    && peak >= 0
    && (forall i :: 0 <= i < |history| ==>
          var u := history[i].amount; u.sharedClean + u.privateClean + u.sharedDirty + u.privateDirty <= peak)
    && (peak > 0 ==>
          exists i :: 0 <= i < |history| &&
            var u := history[i].amount; u.sharedClean + u.privateClean + u.sharedDirty + u.privateDirty == peak)
  }

  method AddUp(changes: seq<Stamped>) returns (history: seq<Stamped>, peak: int)
    ensures RunningSums(changes, history)
    ensures IsPeak(history, peak)
  {
    history, peak := [], 0;
    var last := Nothing();
    var n := 0;
    while n < |changes|
      invariant n == |history| <= |changes| && forall i :: 0 <= i < |history| ==> RunningAt(changes, history, i)
      invariant last == if n == 0 then Nothing() else history[n - 1].amount
      invariant peak >= 0 && forall i :: 0 <= i < |history| ==> Resident(history[i].amount) <= peak
      invariant peak == 0 || exists i :: 0 <= i < |history| && Resident(history[i].amount) == peak
    {
      var usage := Stamped(changes[n].timestamp, Add(last, changes[n].amount));
      ghost var before, was := history, peak;
      peak := Max(peak, Resident(usage.amount));
      history := history + [usage];
      forall i | 0 <= i < |history| ensures RunningAt(changes, history, i) {
        if i < n {
          assert RunningAt(changes, before, i);
        }
      }
      last := usage.amount;
      if peak == was && was != 0 {
        ghost var i :| 0 <= i < |before| && Resident(before[i].amount) == was;
        assert history[i] == before[i];
      } else {
        assert history[n] == usage;
      }
      n := n + 1;
    }
  }

  lemma {:induction false} LevelOf(history: seq<Stamped>, n: nat, i: nat, k: Kind)
    requires StrictlyOrdered(history) && i < n <= |history|
    ensures LevelAt(history, n, history[i].timestamp, k) == Of(history[i].amount, k)
  {
    if i < n - 1 {
      LevelOf(history, n - 1, i, k);
    }
  }

  lemma {:induction false} LevelIsOne(history: seq<Stamped>, n: nat, t: nat, k: Kind)
    requires n <= |history| && NoneNegative(history)
    ensures LevelAt(history, n, t, k) >= 0
  {
    if n > 0 {
      LevelIsOne(history, n - 1, t, k);
    }
  }

  /** The levels are at or above zero exactly if the sums are. */
  lemma LevelsNotNegative(history: seq<Stamped>, raw: seq<Stamped>)
    requires StrictlyOrdered(history)
    requires forall t: nat, k: Kind :: LevelAt(history, |history|, t, k) == SumUpTo(raw, |raw|, t, k)
    ensures NoneNegative(history) <==> SumsNotNegative(raw)
  {
    hide StrictlyOrdered;
    if NoneNegative(history) {
      forall t: nat, k: Kind ensures SumUpTo(raw, |raw|, t, k) >= 0 {
        LevelIsOne(history, |history|, t, k);
        assert LevelAt(history, |history|, t, k) == SumUpTo(raw, |raw|, t, k);
      }
    }
    if SumsNotNegative(raw) {
      forall i, k: Kind | 0 <= i < |history| ensures Of(history[i].amount, k) >= 0 {
        LevelOf(history, |history|, i, k);
        assert LevelAt(history, |history|, history[i].timestamp, k) == SumUpTo(raw, |raw|, history[i].timestamp, k);
      }
    }
  }

  /** The usage history of a map: at any time its level is the sum of all changes up to then. */
  method UsageHistory(raw: seq<Stamped>) returns (history: seq<Stamped>, peak: int, ghost changes: seq<Stamped>)
    requires raw != []
    ensures StrictlyOrdered(history) && RunningSums(changes, history)
    ensures forall t: nat, k: Kind :: LevelAt(history, |history|, t, k) == SumUpTo(raw, |raw|, t, k)
    ensures NoneNegative(history) <==> SumsNotNegative(raw)
    ensures forall i :: 0 <= i < |changes| ==> changes[i].amount != Nothing()
    ensures IsPeak(history, peak)
  {
    hide Sort, SumUpTo, LevelAt, Of;
    var sorted := Sort(raw, |raw|, Time());
    Sorts(raw, |raw|, Time());
    var merged := Merge(sorted);
    var kept := Retain(merged);
    history, peak := AddUp(kept);
    changes := kept;
    forall i | 0 <= i < |history| ensures history[i].timestamp == kept[i].timestamp {
      assert RunningAt(kept, history, i);
    }
    forall t: nat, k: Kind ensures LevelAt(history, |history|, t, k) == SumUpTo(raw, |raw|, t, k) {
      LevelIsSum(kept, history, |kept|, t, k);
      SumSort(raw, |raw|, t, k);
      assert SumUpTo(sorted, |sorted|, t, k) == SumUpTo(merged, |merged|, t, k);
      assert SumUpTo(merged, |merged|, t, k) == SumUpTo(kept, |kept|, t, k);
    }
    LevelsNotNegative(history, raw);
  }

  /** The changes between the levels of a history are the changes it was added up from. */
  method EmitOps(history: seq<Stamped>, ghost changes: seq<Stamped>) returns (output: seq<Stamped>)
    requires RunningSums(changes, history)
    ensures output == changes
  {
    output := [];
    var last := Nothing();
    var n := 0;
    while n < |history|
      invariant n <= |history| && output == changes[..n]
      invariant last == if n == 0 then Nothing() else history[n - 1].amount
    {
      var current := history[n].amount;
      assert RunningAt(changes, history, n);
      OfAdd(last, changes[n].amount, Swap);
      output := output + [Stamped(history[n].timestamp, Subtract(current, last))];
      last := current;
      n := n + 1;
    }
  }
}
