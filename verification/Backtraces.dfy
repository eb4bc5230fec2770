/** How the loader numbers backtraces: by their frames, in the order in which a trace first declares them. */
module Backtraces {
  import opened Basics
  import opened Trace

  predicate Declares(e: Event) { e.Backtrace? || e.PartialBacktrace? }

  /** The last partial backtrace of a thread among the first `n` events. */
  ghost function LastOn(events: seq<Event>, n: nat, thread: nat): (r: Option<nat>)
    requires n <= |events|
    ensures r.Some? ==> r.value < n && events[r.value].PartialBacktrace?
  {
    if n == 0 then None
    else if events[n - 1].PartialBacktrace? && events[n - 1].onThread == thread then Some(n - 1)
    else LastOn(events, n - 1, thread)
  }

  /**
   All addresses of a backtrace that the event at `d` declares. A partial one that invalidates the first `k` addresses
   of the one before it on its thread goes on with the others.
   */
  ghost function Full(events: seq<Event>, d: nat): seq<nat>
    requires d < |events| && Declares(events[d])
    decreases d
  {
    var e := events[d];
    if e.Backtrace? || e.invalidated.None? || LastOn(events, d, e.onThread).None? then e.addresses
    else
      var last := Full(events, LastOn(events, d, e.onThread).value);
      if e.invalidated.value <= |last| then e.addresses + last[e.invalidated.value..] else e.addresses
  }

  /** The event that a raw number stands for after the first `n` events. */
  ghost function LastDeclared(events: seq<Event>, n: nat, raw: nat): (r: Option<nat>)
    requires n <= |events|
    ensures r.Some? ==> r.value < n && Declares(events[r.value])
  {
    if n == 0 then None
    else if Declares(events[n - 1]) && events[n - 1].number == raw then Some(n - 1)
    else LastDeclared(events, n - 1, raw)
  }

  /** The frames declared by the first `n` events, once each, in order. */
  ghost function Known(events: seq<Event>, n: nat, strip: seq<nat> -> seq<nat>): seq<seq<nat>>
    requires n <= |events|
  {
    if n == 0 then []
    else
      var known := Known(events, n - 1, strip);
      if Declares(events[n - 1]) && strip(Full(events, n - 1)) !in known
      then known + [strip(Full(events, n - 1))]
      else known
  }

  /** What is remembered of a thread is its last partial backtrace. */
  ghost predicate Remembers(events: seq<Event>, n: nat, s: Summary, thread: nat)
    requires n <= |events|
  {
    && (thread in s.previous <==> LastOn(events, n, thread).Some?)
    && (thread in s.previous ==> s.previous[thread] == Full(events, LastOn(events, n, thread).value))
  }

  /** A raw number has the number of the frames it was last declared with. */
  ghost predicate Means(events: seq<Event>, n: nat, strip: seq<nat> -> seq<nat>, s: Summary, raw: nat)
    requires n <= |events|
  {
    && (raw in s.meaning <==> LastDeclared(events, n, raw).Some?)
    && (raw in s.meaning ==>
          s.meaning[raw] < |Known(events, n, strip)| &&
          Known(events, n, strip)[s.meaning[raw]] == strip(Full(events, LastDeclared(events, n, raw).value)))
  }

  /** Groups are the known frames, in order. */
  ghost predicate Numbers(known: seq<seq<nat>>, s: Summary) {
    && |s.groups| == |known| && Distinct(known)
    && (forall f :: f in s.numbers <==> f in known)
    && (forall f :: f in s.numbers ==> s.numbers[f] < |known| && known[s.numbers[f]] == f)
  }

  ghost predicate Numbered(events: seq<Event>, n: nat, strip: seq<nat> -> seq<nat>, s: Summary)
    requires n <= |events|
  {
    && Numbers(Known(events, n, strip), s)
    && (forall thread :: Remembers(events, n, s, thread))
    && (forall raw :: Means(events, n, strip, s, raw))
  }

  lemma ExpandedIsFull(events: seq<Event>, n: nat, s: Summary)
    requires n < |events| && events[n].PartialBacktrace? && Remembers(events, n, s, events[n].onThread)
    ensures Expanded(s.previous, events[n]) == Full(events, n)
  {}

  /** Frames get a number, the next one if they are new. */
  lemma DeclareNumbers(known: seq<seq<nat>>, s: Summary, number: nat, addresses: seq<nat>, strip: seq<nat> -> seq<nat>)
    requires Numbers(known, s)
    ensures var s', f := Declare(s, number, addresses, strip), strip(addresses);
      Numbers(if f in known then known else known + [f], s')
  {}

  lemma DeclareMeans(known: seq<seq<nat>>, s: Summary, number: nat, addresses: seq<nat>, strip: seq<nat> -> seq<nat>)
    requires Numbers(known, s)
    ensures var s', f := Declare(s, number, addresses, strip), strip(addresses);
      var known' := if f in known then known else known + [f];
      && number in s'.meaning && s'.meaning[number] < |known'| && known'[s'.meaning[number]] == f
      && s'.meaning.Keys == s.meaning.Keys + {number} && s'.previous == s.previous
      && forall raw :: raw in s.meaning && raw != number ==> s'.meaning[raw] == s.meaning[raw]
  {}

  lemma DeclaredNumbered(events: seq<Event>, n: nat, strip: seq<nat> -> seq<nat>, s: Summary)
    requires n < |events| && Numbered(events, n, strip, s) && Declares(events[n])
    ensures Numbered(events, n + 1, strip, Load(s, events[n], strip))
  {
    hide Declare, Numbers, Expanded;
    var e, known, m := events[n], Known(events, n, strip), n + 1;
    assert Remembers(events, n, s, if e.PartialBacktrace? then e.onThread else 0);
    if e.PartialBacktrace? {
      ExpandedIsFull(events, n, s);
    }
    var full := Full(events, n);
    var d, s' := Declare(s, e.number, full, strip), Load(s, e, strip);
    DeclareNumbers(known, s, e.number, full, strip);
    DeclareMeans(known, s, e.number, full, strip);
    SameNumbers(Known(events, m, strip), d, s');
    forall thread ensures Remembers(events, m, s', thread) {
      assert Remembers(events, n, s, thread);
    }
    forall raw ensures Means(events, m, strip, s', raw) {
      assert Means(events, n, strip, s, raw);
    }
  }

  lemma SameNumbers(known: seq<seq<nat>>, s: Summary, s': Summary)
    requires Numbers(known, s) && s'.numbers == s.numbers && |s'.groups| == |s.groups|
    ensures Numbers(known, s')
  {}

  lemma OtherKeeps(s: Summary, e: Event, strip: seq<nat> -> seq<nat>)
    requires Loadable(s, e) && !Declares(e)
    ensures var s' := Load(s, e, strip);
      s'.numbers == s.numbers && s'.meaning == s.meaning && s'.previous == s.previous && |s'.groups| == |s.groups|
  {}

  lemma OtherNumbered(events: seq<Event>, n: nat, strip: seq<nat> -> seq<nat>, s: Summary)
    requires n < |events| && Numbered(events, n, strip, s) && Loadable(s, events[n]) && !Declares(events[n])
    ensures Numbered(events, n + 1, strip, Load(s, events[n], strip))
  {
    hide Numbers, Load;
    var s', m := Load(s, events[n], strip), n + 1;
    OtherKeeps(s, events[n], strip);
    SameNumbers(Known(events, m, strip), s, s');
    forall thread ensures Remembers(events, m, s', thread) {
      assert Remembers(events, n, s, thread);
    }
    forall raw ensures Means(events, m, strip, s', raw) {
      assert Means(events, n, strip, s, raw);
    }
  }

  /**
   After any trace, the loader's numbers of two raw backtrace numbers are the same exactly if the frames they were
   last declared with are.
   */
  lemma {:induction false} LoadedNumbered(events: seq<Event>, n: nat, strip: seq<nat> -> seq<nat>)
    requires n <= |events| && Loaded(events, n, strip).Some?
    ensures Numbered(events, n, strip, Loaded(events, n, strip).value)
  {
    hide Numbered, Load;
    if n == 0 {
      NothingNumbered(events, strip);
    } else {
      LoadedNumbered(events, n - 1, strip);
      var s := Loaded(events, n - 1, strip).value;
      if Declares(events[n - 1]) {
        DeclaredNumbered(events, n - 1, strip, s);
      } else {
        OtherNumbered(events, n - 1, strip, s);
      }
    }
  }

  lemma NothingNumbered(events: seq<Event>, strip: seq<nat> -> seq<nat>)
    ensures Numbered(events, 0, strip, EMPTY)
  {}

  /** Two raw numbers mean the same group exactly if they were last declared with the same frames. */
  lemma SameMeaning(events: seq<Event>, strip: seq<nat> -> seq<nat>, a: nat, b: nat)
    requires Loaded(events, |events|, strip).Some?
    requires LastDeclared(events, |events|, a).Some? && LastDeclared(events, |events|, b).Some?
    ensures var s, n := Loaded(events, |events|, strip).value, |events|;
      a in s.meaning && b in s.meaning &&
      (s.meaning[a] == s.meaning[b] <==>
        strip(Full(events, LastDeclared(events, n, a).value)) == strip(Full(events, LastDeclared(events, n, b).value)))
  {
    LoadedNumbered(events, |events|, strip);
    var s, n := Loaded(events, |events|, strip).value, |events|;
    assert Means(events, n, strip, s, a) && Means(events, n, strip, s, b);
  }

  /**
   A partial backtrace that takes over the last `kept` addresses of the one before it on its thread loads like the
   whole list of addresses.
   */
  lemma PartialLoadsWhole(s: Summary, number: nat, thread: nat, whole: seq<nat>, kept: nat, strip: seq<nat> -> seq<nat>)
    requires thread in s.previous && kept <= |whole| && kept <= |s.previous[thread]|
    requires whole[|whole| - kept..] == s.previous[thread][|s.previous[thread]| - kept..]
    ensures
      Load(s, PartialBacktrace(number, thread, Some(|s.previous[thread]| - kept), whole[..|whole| - kept]), strip)
      == Load(s, Backtrace(number, whole), strip).(previous := s.previous[thread := whole])
  {
    assert whole[..|whole| - kept] + whole[|whole| - kept..] == whole;
  }
}
