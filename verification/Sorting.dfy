/** Stable sorting by a key. */
module Sorting {

  ghost predicate SortedBy<T>(s: seq<T>, key: T -> nat) {
    forall i, j :: 0 <= i < j < |s| ==> key(s[i]) <= key(s[j])
  }

  /** Puts an element behind all those whose keys are not greater. */
  function Insert<T>(s: seq<T>, x: T, key: T -> nat): seq<T> {
    if s == [] then [x]
    else if key(s[|s| - 1]) <= key(x) then s + [x]
    else Insert(s[..|s| - 1], x, key) + [s[|s| - 1]]
  }

  /** The first `n` elements sorted; equal keys stay in order. */
  function Sort<T>(s: seq<T>, n: nat, key: T -> nat): seq<T>
    requires n <= |s|
  {
    if n == 0 then [] else Insert(Sort(s, n - 1, key), s[n - 1], key)
  }

  lemma {:induction false} InsertMembers<T>(s: seq<T>, x: T, key: T -> nat)
    ensures multiset(Insert(s, x, key)) == multiset(s) + multiset{x}
  {
    if s != [] {
      var rest, last := s[..|s| - 1], s[|s| - 1];
      assert s == rest + [last];
      if key(last) > key(x) {
        InsertMembers(rest, x, key);
      }
    }
  }

  lemma {:induction false} InsertSorted<T>(s: seq<T>, x: T, key: T -> nat)
    requires SortedBy(s, key)
    ensures SortedBy(Insert(s, x, key), key)
  {
    if s != [] {
      var rest, last := s[..|s| - 1], s[|s| - 1];
      if key(last) > key(x) {
        InsertSorted(rest, x, key);
        InsertMembers(rest, x, key);
        var r := Insert(rest, x, key);
        forall i | 0 <= i < |r| ensures key(r[i]) <= key(last) {
          assert r[i] in multiset(r);
          assert r[i] in multiset(rest) || r[i] == x;
        }
      }
    }
  }

  lemma NothingSorted<T>(key: T -> nat)
    ensures SortedBy([], key)
  {}

  /** The result is sorted and has the same elements. */
  lemma {:induction false} Sorts<T>(s: seq<T>, n: nat, key: T -> nat)
    requires n <= |s|
    ensures SortedBy(Sort(s, n, key), key) && multiset(Sort(s, n, key)) == multiset(s[..n])
  {
    hide SortedBy, Insert;
    if n == 0 {
      NothingSorted(key);
    } else {
      Sorts(s, n - 1, key);
      InsertSorted(Sort(s, n - 1, key), s[n - 1], key);
      InsertMembers(Sort(s, n - 1, key), s[n - 1], key);
      assert s[..n] == s[..n - 1] + [s[n - 1]];
    }
  }
}
