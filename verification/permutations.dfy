/** Permutations of the alleles 0 … n-1, the values a genotype holds. */
module Permutations {

  /** The alleles 0, 1, …, n-1 in order: Rust's `(0..n).collect()`. */
  function Iota(n: nat): (r: seq<nat>)
    ensures |r| == n
    ensures forall i :: 0 <= i < n ==> r[i] == i
  {
    if n == 0 then [] else Iota(n - 1) + [n - 1]
  }

  /** `s` holds each of 0 … n-1 exactly once. */
  predicate IsPermutation(s: seq<nat>, n: nat) {
    multiset(s) == multiset(Iota(n))
  }

  /** No allele occurs twice. */
  predicate Distinct(s: seq<nat>) {
    forall i, j :: 0 <= i < j < |s| ==> s[i] != s[j]
  }

  /** Every allele is below n, so it can index a table of n rows. */
  predicate Below(s: seq<nat>, n: nat) {
    forall i :: 0 <= i < |s| ==> s[i] < n
  }

  lemma {:induction false} MultisetIota(n: nat, x: nat)
    ensures multiset(Iota(n))[x] == if x < n then 1 else 0
  {
    if n > 0 {
      MultisetIota(n - 1, x);
      assert Iota(n) == Iota(n - 1) + [n - 1];
      assert multiset(Iota(n))[x] == multiset(Iota(n - 1))[x] + multiset([n - 1])[x];
    }
  }

  /** An element that occurs at two positions is counted at least twice. */
  lemma TwoOccurrences(s: seq<nat>, i: nat, j: nat)
    requires i < j < |s| && s[i] == s[j]
    ensures multiset(s)[s[i]] >= 2
  {
    assert s == s[..j] + s[j..];
    assert s[i] in s[..j];
    assert s[j] in s[j..];
  }

  /** A permutation of 0 … n-1 has length n, holds only alleles below n, holds each of
      them, and holds none twice. */
  lemma PermutationFacts(s: seq<nat>, n: nat)
    requires IsPermutation(s, n)
    ensures |s| == n
    ensures Below(s, n)
    ensures Distinct(s)
    ensures forall x: nat :: x < n ==> x in s
  {
    assert |multiset(s)| == |s|;
    forall i | 0 <= i < |s| ensures s[i] < n {
      assert s[i] in multiset(s);
      MultisetIota(n, s[i]);
    }
    forall i, j | 0 <= i < j < |s| ensures s[i] != s[j] {
      if s[i] == s[j] {
        TwoOccurrences(s, i, j);
        MultisetIota(n, s[i]);
      }
    }
    forall x: nat | x < n ensures x in s {
      MultisetIota(n, x);
      assert x in multiset(s);
    }
  }
}
