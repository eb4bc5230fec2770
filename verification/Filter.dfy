/** Filters: which backtraces match a set of patterns, and compiled filters that mean what they were compiled from. */
module Filter {
  import opened Basics

  // ----- Backtraces that match patterns

  /** A frame; its function is known by its full name, or failing that by its raw one. */
  datatype Frame = Frame(function_: Option<string>, rawFunction: Option<string>, source: Option<string>)

  /** A pattern, as the predicate of the texts it matches. */
  type Pattern = string -> bool

  datatype BacktraceFilter = BacktraceFilter(
    throughFunction: Option<Pattern>,
    notThroughFunction: Option<Pattern>,
    throughSource: Option<Pattern>,
    notThroughSource: Option<Pattern>,
    lengthAtLeast: Option<nat>,
    lengthAtMost: Option<nat>,
    only: Option<set<nat>>)

  function Function(f: Frame): Option<string> { if f.function_.Some? then f.function_ else f.rawFunction }

  /** A text that is there and matches; no pattern at all counts as `default`. */
  predicate Hits(pattern: Option<Pattern>, text: Option<string>, default: bool) {
    if pattern.None? then default else text.Some? && pattern.value(text.value)
  }

  /** The frame is in a function that the pattern matches, by its full name if that is known. */
  predicate InFunction(p: Pattern, f: Frame) {
    || (f.function_.Some? && p(f.function_.value))
    || (f.function_.None? && f.rawFunction.Some? && p(f.rawFunction.value))
  }

  predicate InSource(p: Pattern, f: Frame) { f.source.Some? && p(f.source.value) }

  /** A frame that matches all patterns it should. */
  predicate Wanted(filter: BacktraceFilter, f: Frame) {
    && (filter.throughFunction.Some? ==> InFunction(filter.throughFunction.value, f))
    && (filter.throughSource.Some? ==> InSource(filter.throughSource.value, f))
  }

  /** A frame that matches a pattern it should not. */
  predicate Unwanted(filter: BacktraceFilter, f: Frame) {
    || (filter.notThroughFunction.Some? && InFunction(filter.notThroughFunction.value, f))
    || (filter.notThroughSource.Some? && InSource(filter.notThroughSource.value, f))
  }

  predicate Known(frames: seq<Frame>, backtrace: seq<nat>) {
    forall i :: 0 <= i < |backtrace| ==> backtrace[i] < |frames|
  }

  predicate AnyWanted(filter: BacktraceFilter, frames: seq<Frame>, backtrace: seq<nat>)
    requires Known(frames, backtrace)
  {
    exists i :: 0 <= i < |backtrace| && Wanted(filter, frames[backtrace[i]])
  }

  predicate NoneUnwanted(filter: BacktraceFilter, frames: seq<Frame>, backtrace: seq<nat>)
    requires Known(frames, backtrace)
  {
    forall i :: 0 <= i < |backtrace| ==> !Unwanted(filter, frames[backtrace[i]])
  }

  predicate NoPositive(filter: BacktraceFilter) { filter.throughFunction.None? && filter.throughSource.None? }

  predicate LengthOk(filter: BacktraceFilter, n: nat) {
    (filter.lengthAtLeast.Some? ==> filter.lengthAtLeast.value <= n) &&
    (filter.lengthAtMost.Some? ==> n <= filter.lengthAtMost.value)
  }

  /** What the filter asks of a backtrace, apart from being one of those allowed. */
  predicate Matches(filter: BacktraceFilter, frames: seq<Frame>, backtrace: seq<nat>)
    requires Known(frames, backtrace)
  {
    && (filter.lengthAtLeast.Some? ==> |backtrace| >= filter.lengthAtLeast.value)
    && (filter.lengthAtMost.Some? ==> |backtrace| <= filter.lengthAtMost.value)
    && (NoPositive(filter) || AnyWanted(filter, frames, backtrace))
    && NoneUnwanted(filter, frames, backtrace)
  }

  /** Remembered answers about frames. */
  ghost predicate Remembers(cache: map<nat, bool>, frames: seq<Frame>, answer: Frame -> bool) {
    forall i :: i in cache ==> i < |frames| && cache[i] == answer(frames[i])
  }

  ghost function IsWanted(filter: BacktraceFilter): Frame -> bool { (f: Frame) => Wanted(filter, f) }

  ghost function IsUnwanted(filter: BacktraceFilter): Frame -> bool { (f: Frame) => Unwanted(filter, f) }

  /** Looks at the frames of one backtrace, as far as necessary, answering from the caches where it can. */
  method MatchFrames(filter: BacktraceFilter, frames: seq<Frame>, backtrace: seq<nat>, positiveCache: map<nat, bool>,
      negativeCache: map<nat, bool>)
    returns (matched: bool, positive': map<nat, bool>, negative': map<nat, bool>)
    requires Known(frames, backtrace)
    requires Remembers(positiveCache, frames, IsWanted(filter)) && Remembers(negativeCache, frames, IsUnwanted(filter))
    ensures Remembers(positive', frames, IsWanted(filter)) && Remembers(negative', frames, IsUnwanted(filter))
    ensures matched
      <==> (NoPositive(filter) || AnyWanted(filter, frames, backtrace)) && NoneUnwanted(filter, frames, backtrace)
  {
    positive', negative' := positiveCache, negativeCache;
    var positiveMatched, negativeMatched := filter.throughFunction.None? && filter.throughSource.None?, false;
    var checkNegative := filter.notThroughFunction.Some? || filter.notThroughSource.Some?;
    var n := 0;
    while n < |backtrace|
      invariant n <= |backtrace| && !negativeMatched
      invariant Remembers(positive', frames, IsWanted(filter)) && Remembers(negative', frames, IsUnwanted(filter))
      invariant positiveMatched <==> NoPositive(filter) || AnyWanted(filter, frames, backtrace[..n])
      invariant NoneUnwanted(filter, frames, backtrace[..n])
    {
      var id := backtrace[n];
      var frame := frames[id];
      WantedNext(filter, frames, backtrace, n);
      var checkPositive := false;
      if !positiveMatched {
        if id in positive' {
          assert positive'[id] == IsWanted(filter)(frames[id]);
          positiveMatched := positive'[id];
        } else {
          checkPositive := true;
        }
      }
      if positiveMatched && !checkNegative {
        NothingToAvoid(filter, frames, backtrace);
        WantedStays(filter, frames, backtrace, n + 1);
        return true, positive', negative';
      }
      var function_ :=
        if (checkPositive && filter.throughFunction.Some?) || filter.notThroughFunction.Some?
          then Function(frame) else None;
      var source :=
        if (checkPositive && filter.throughSource.Some?) || filter.notThroughSource.Some?
          then frame.source else None;
      if checkPositive {
        positiveMatched := Hits(filter.throughFunction, function_, true) && Hits(filter.throughSource, source, true);
        assert positiveMatched == IsWanted(filter)(frame);
        positive' := positive'[id := positiveMatched];
      }
      if checkNegative {
        if id in negative' {
          assert negative'[id] == IsUnwanted(filter)(frames[id]);
          if negative'[id] {
            negativeMatched := true;
          }
        } else if Hits(filter.notThroughFunction, function_, false) || Hits(filter.notThroughSource, source, false) {
          assert IsUnwanted(filter)(frame);
          negative' := negative'[id := true];
          negativeMatched := true;
        } else {
          assert !IsUnwanted(filter)(frame);
          negative' := negative'[id := false];
        }
        if negativeMatched {
          assert Unwanted(filter, frames[backtrace[n]]);
          return false, positive', negative';
        }
      }
      n := n + 1;
    }
    assert backtrace[..n] == backtrace;
    matched := positiveMatched;
  }

  lemma WantedNext(filter: BacktraceFilter, frames: seq<Frame>, backtrace: seq<nat>, n: nat)
    requires Known(frames, backtrace) && n < |backtrace|
    ensures Known(frames, backtrace[..n]) && Known(frames, backtrace[..n + 1])
    ensures AnyWanted(filter, frames, backtrace[..n + 1])
      <==> AnyWanted(filter, frames, backtrace[..n]) || Wanted(filter, frames[backtrace[n]])
    ensures NoneUnwanted(filter, frames, backtrace[..n + 1])
      <==> NoneUnwanted(filter, frames, backtrace[..n]) && !Unwanted(filter, frames[backtrace[n]])
  {
    var a, b := backtrace[..n], backtrace[..n + 1];
    assert b == a + [backtrace[n]];
    if AnyWanted(filter, frames, a) {
      var i :| 0 <= i < |a| && Wanted(filter, frames[a[i]]);
      assert b[i] == a[i];
    }
    if AnyWanted(filter, frames, b) {
      var i :| 0 <= i < |b| && Wanted(filter, frames[b[i]]);
      if i < n {
        assert a[i] == b[i];
      }
    }
    if Wanted(filter, frames[backtrace[n]]) {
      assert b[n] == backtrace[n];
    }
    if NoneUnwanted(filter, frames, b) {
      forall i | 0 <= i < |a| ensures !Unwanted(filter, frames[a[i]]) {
        assert a[i] == b[i];
      }
      assert b[n] == backtrace[n];
    }
  }

  lemma WantedStays(filter: BacktraceFilter, frames: seq<Frame>, backtrace: seq<nat>, n: nat)
    requires Known(frames, backtrace) && n <= |backtrace| && Known(frames, backtrace[..n])
    ensures AnyWanted(filter, frames, backtrace[..n]) ==> AnyWanted(filter, frames, backtrace)
  {
    if AnyWanted(filter, frames, backtrace[..n]) {
      var i :| 0 <= i < n && Wanted(filter, frames[backtrace[..n][i]]);
      assert backtrace[..n][i] == backtrace[i];
    }
  }

  lemma NothingToAvoid(filter: BacktraceFilter, frames: seq<Frame>, backtrace: seq<nat>)
    requires Known(frames, backtrace) && filter.notThroughFunction.None? && filter.notThroughSource.None?
    ensures NoneUnwanted(filter, frames, backtrace)
  {}

  /** Nothing is asked but to be one of those allowed. */
  predicate AsksNothing(filter: BacktraceFilter) {
    && filter.throughFunction.None? && filter.notThroughFunction.None?
    && filter.throughSource.None? && filter.notThroughSource.None?
    && filter.lengthAtLeast.None? && filter.lengthAtMost.None?
  }

  predicate Allowed(s: Option<set<nat>>, id: nat) { s.Some? ==> id in s.value }

  /** The set of backtraces that match; no set at all stands for all of them. */
  method CompileBacktraceFilter(filter: BacktraceFilter, frames: seq<Frame>, backtraces: seq<seq<nat>>)
    returns (matching: Option<set<nat>>)
    requires forall b :: 0 <= b < |backtraces| ==> Known(frames, backtraces[b])
    ensures forall b :: 0 <= b < |backtraces| ==>
      (Allowed(matching, b) <==> Matches(filter, frames, backtraces[b]) && Allowed(filter.only, b))
    ensures matching.Some? ==> AsksNothing(filter) || forall b :: b in matching.value ==> b < |backtraces|
  {
    if AsksNothing(filter) {
      return filter.only;
    }
    var matched: set<nat> := {};
    var positiveCache: map<nat, bool>, negativeCache: map<nat, bool> := map[], map[];
    var n := 0;
    while n < |backtraces|
      invariant n <= |backtraces|
      invariant Remembers(positiveCache, frames, IsWanted(filter))
      invariant Remembers(negativeCache, frames, IsUnwanted(filter))
      invariant forall b: nat :: b in matched <==> b < n && Matches(filter, frames, backtraces[b])
    {
      var backtrace := backtraces[n];
      if LengthOk(filter, |backtrace|) {
        var matches;
        matches, positiveCache, negativeCache := MatchFrames(filter, frames, backtrace, positiveCache, negativeCache);
        if matches {
          matched := matched + {n};
        }
      }
      n := n + 1;
    }
    if filter.only.Some? {
      matched := matched * filter.only.value;
    }
    matching := Some(matched);
  }
}
