/**
  Small facts about concatenated sequences, stated over plain variables so
  that the proofs using them need not unfold the functions that built the
  pieces.
 */
module SeqFacts {

  lemma {:induction false} ConcatAssoc<T>(a: seq<T>, b: seq<T>, c: seq<T>)
    ensures a + b + c == a + (b + c)
  {
  }

  /** A slice that lies inside the first part of a concatenation. */
  lemma {:induction false} SliceOfPrefix<T>(a: seq<T>, b: seq<T>, lo: nat, hi: nat)
    requires lo <= hi <= |a|
    ensures (a + b)[lo .. hi] == a[lo .. hi]
  {
  }

  /**
    A slice of the middle part `b` of `x == a + b + c`: `b[lo .. hi]` sits at
    positions `from .. to` of `x`.
   */
  lemma {:induction false} SliceOfMiddle<T>(x: seq<T>, a: seq<T>, b: seq<T>, c: seq<T>, lo: nat, hi: nat, from: nat, to: nat)
    requires x == a + b + c
    requires lo <= hi <= |b| && from == |a| + lo && to == |a| + hi
    ensures from <= to <= |x|
    ensures x[from .. to] == b[lo .. hi]
  {
  }

  /** Element `idx` of the middle part `b` of `x == a + b + c` sits at position `pos` of `x`. */
  lemma {:induction false} IndexOfMiddle<T>(x: seq<T>, a: seq<T>, b: seq<T>, c: seq<T>, idx: nat, pos: nat)
    requires x == a + b + c
    requires idx < |b| && pos == |a| + idx
    ensures pos < |x|
    ensures x[pos] == b[idx]
  {
  }

  /**
    Two concatenations that share their first and last parts, and whose
    middle parts differ in one element, differ in that element only.
   */
  lemma {:induction false} UpdateMiddle<T>(x: seq<T>, y: seq<T>, a: seq<T>, b: seq<T>, c: seq<T>, idx: nat, pos: nat, v: T)
    requires idx < |b| && pos == |a| + idx
    requires x == a + b + c && y == a + b[idx := v] + c
    ensures pos < |x|
    ensures y == x[pos := v]
  {
  }
}
