/** Small value types shared by every component. */
module Basics {

  /** A value that may be absent. */
  datatype Option<+T> = None | Some(value: T)

  /** The outcome of an operation that can fail. */
  datatype Result<+T, +E> = Ok(value: T) | Err(error: E)

  /** One octet of a byte stream. */
  type byte = b: int | 0 <= b < 256

  const TWO_32: nat := 0x1_0000_0000

  function Min(a: int, b: int): int { if a <= b then a else b }

  function Max(a: int, b: int): int { if a >= b then a else b }

  /** No value occurs twice. */
  ghost predicate Distinct<T>(s: seq<T>) {
    forall i, j :: 0 <= i < j < |s| ==> s[i] != s[j]
  }

  lemma SliceExtends<T>(s: seq<T>, p: nat, q: nat)
    requires p <= q < |s|
    ensures s[p..q + 1] == s[p..q] + [s[q]]
  {}

  lemma ConcatAssoc<T>(a: seq<T>, b: seq<T>, c: seq<T>)
    ensures (a + b) + c == a + (b + c)
  {}

  lemma ConcatPeel<T>(a: seq<T>, b: seq<T>)
    ensures (a + b)[..|a|] == a && (a + b)[|a|..] == b
  {}
}
