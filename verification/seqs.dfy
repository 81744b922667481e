/** Subsequences: what is left of a sequence after dropping some of its
    elements, the rest kept in order. */
module Seqs {

  /** Concatenation is associative; stated once so that loops appending to a
      sequence need not rediscover it. */
  lemma AppendAssoc<T>(a: seq<T>, b: seq<T>, c: seq<T>)
    ensures (a + b) + c == a + (b + c)
  {
  }

  predicate IsSubseq<T(==)>(a: seq<T>, b: seq<T>)
    decreases |b|
  {
    if b == [] then a == []
    else
      (a != [] && a[|a| - 1] == b[|b| - 1] && IsSubseq(a[..|a| - 1], b[..|b| - 1])) ||
      IsSubseq(a, b[..|b| - 1])
  }

  lemma {:induction false} EmptySubseq<T>(b: seq<T>)
    ensures IsSubseq([], b)
    decreases |b|
  {
    if b != [] {
      EmptySubseq(b[..|b| - 1]);
    }
  }

  /** Subsequences of two parts give a subsequence of the whole. */
  lemma {:induction false} SubseqAppend<T>(a1: seq<T>, b1: seq<T>, a2: seq<T>, b2: seq<T>)
    requires IsSubseq(a1, b1) && IsSubseq(a2, b2)
    ensures IsSubseq(a1 + a2, b1 + b2)
    decreases |b2|
  {
    if b2 == [] {
      assert a2 == [];
      assert a1 + a2 == a1 && b1 + b2 == b1;
    } else {
      assert (b1 + b2)[..|b1 + b2| - 1] == b1 + b2[..|b2| - 1];
      if a2 != [] && a2[|a2| - 1] == b2[|b2| - 1] && IsSubseq(a2[..|a2| - 1], b2[..|b2| - 1]) {
        SubseqAppend(a1, b1, a2[..|a2| - 1], b2[..|b2| - 1]);
        assert (a1 + a2)[..|a1 + a2| - 1] == a1 + a2[..|a2| - 1];
      } else {
        SubseqAppend(a1, b1, a2, b2[..|b2| - 1]);
      }
    }
  }

  /** Every element of a subsequence is an element of the sequence. */
  lemma {:induction false} SubseqElements<T>(a: seq<T>, b: seq<T>)
    requires IsSubseq(a, b)
    ensures forall x :: x in a ==> x in b
    decreases |b|
  {
    if b != [] {
      if a != [] && a[|a| - 1] == b[|b| - 1] && IsSubseq(a[..|a| - 1], b[..|b| - 1]) {
        SubseqElements(a[..|a| - 1], b[..|b| - 1]);
        assert a == a[..|a| - 1] + [a[|a| - 1]];
        assert b == b[..|b| - 1] + [b[|b| - 1]];
      } else {
        SubseqElements(a, b[..|b| - 1]);
        assert b == b[..|b| - 1] + [b[|b| - 1]];
      }
    }
  }

  /** A subsequence is never longer than the sequence. */
  lemma {:induction false} SubseqLength<T>(a: seq<T>, b: seq<T>)
    requires IsSubseq(a, b)
    ensures |a| <= |b|
    decreases |b|
  {
    if b != [] {
      if a != [] && a[|a| - 1] == b[|b| - 1] && IsSubseq(a[..|a| - 1], b[..|b| - 1]) {
        SubseqLength(a[..|a| - 1], b[..|b| - 1]);
      } else {
        SubseqLength(a, b[..|b| - 1]);
      }
    }
  }
}
