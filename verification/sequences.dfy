/**
 * Facts about taking prefixes of sequences, stated once for any element
 * type. Stating them generically keeps the solver from looking inside the
 * elements (rows of cells, lists of reports) when it compares sequences.
 */
module Sequences {

  lemma PrefixOfPrefix<T>(s: seq<T>, i: nat)
    requires i < |s|
    ensures s[..i + 1][..i] == s[..i]
  {
  }

  lemma WholePrefix<T>(s: seq<T>)
    ensures s[..|s|] == s
  {
  }

  /** Taking one element out of a sequence takes it out of its multiset. */
  lemma MultisetRemove<T>(s: seq<T>, j: nat)
    requires j < |s|
    ensures multiset(s) == multiset(s[..j] + s[j + 1..]) + multiset{s[j]}
  {
    assert s == s[..j] + [s[j]] + s[j + 1..];
  }

  /** Adding the same element to two multisets keeps them apart or equal. */
  lemma MultisetCancel<T>(a: multiset<T>, b: multiset<T>, x: T)
    requires a + multiset{x} == b + multiset{x}
    ensures a == b
  {
    forall e
      ensures a[e] == b[e]
    {
      assert (a + multiset{x})[e] == (b + multiset{x})[e];
    }
  }
}
