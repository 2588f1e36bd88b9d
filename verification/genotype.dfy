/** Permutation genotypes and their operators (src/genotype.rs). A genotype is a tour:
    the order in which the alleles (cities) 0 … n-1 are visited. Random draws are
    either explicit parameters (the two positions of an inversion) or unconstrained
    choices (the swaps of a shuffle). */
module Genotypes {
  import opened Common
  import opened Permutations
  import opened EdgeTables

  /** `Genotype`; its field is what `data()` returns. */
  datatype Genotype = Genotype(data: seq<nat>)

  // ---------------------------------------------------------------------------
  // random

  /** `slice::shuffle`: for i from the last position down to 1, swap position i with a
      position j drawn from 0 ..= i. */
  method Shuffle(a: array<nat>)
    modifies a
    ensures multiset(a[..]) == multiset(old(a[..]))
  {
    var i := a.Length;
    while i > 1
      invariant i <= a.Length
      invariant multiset(a[..]) == multiset(old(a[..]))
    {
      i := i - 1;
      var j :| 0 <= j <= i;
      a[i], a[j] := a[j], a[i];
    }
  }

  /** `Genotype::random`: panics when asked for no alleles; otherwise the alleles
      0 … n-1 in shuffled order, so each occurs exactly once. */
  method Random(numAlleles: nat) returns (r: Outcome<Genotype>)
    ensures r.Panic? <==> numAlleles == 0
    ensures r.Panic? ==> r.message == "number of alleles may not be 0"
    ensures r.Done? ==> IsPermutation(r.value.data, numAlleles)
    ensures r.Done? ==> |r.value.data| == numAlleles
  {
    if numAlleles == 0 {
      return Panic("number of alleles may not be 0");
    }
    var a := new nat[numAlleles](i => i);
    assert a[..] == Iota(numAlleles);
    Shuffle(a);
    PermutationFacts(a[..], numAlleles);
    return Done(Genotype(a[..]));
  }

  // ---------------------------------------------------------------------------
  // inversion_mutation

  function Reverse(s: seq<nat>): seq<nat> {
    if s == [] then [] else Reverse(s[1..]) + [s[0]]
  }

  lemma {:induction false} ReverseAt(s: seq<nat>)
    ensures |Reverse(s)| == |s|
    ensures forall k :: 0 <= k < |s| ==> Reverse(s)[k] == s[|s| - 1 - k]
    ensures multiset(Reverse(s)) == multiset(s)
  {
    if s != [] {
      ReverseAt(s[1..]);
      assert s == [s[0]] + s[1..];
    }
  }

  /** The tour with the half-open range [lo, hi) reversed. */
  function Inverted(s: seq<nat>, lo: nat, hi: nat): (r: seq<nat>)
    requires lo <= hi <= |s|
    ensures |r| == |s|
  {
    ReverseAt(s[lo..hi]);
    s[..lo] + Reverse(s[lo..hi]) + s[hi..]
  }

  /** Inversion keeps the length, leaves positions outside [lo, hi) alone, and puts at
      position k inside it what was at its mirror image lo + hi - 1 - k, so position
      lo + d receives what was at hi - 1 - d. */
  lemma InvertedAt(s: seq<nat>, lo: nat, hi: nat)
    requires lo <= hi <= |s|
    ensures |Inverted(s, lo, hi)| == |s|
    ensures forall k :: 0 <= k < lo || hi <= k < |s| ==> Inverted(s, lo, hi)[k] == s[k]
    ensures forall k :: lo <= k < hi ==> Inverted(s, lo, hi)[k] == s[lo + hi - 1 - k]
  {
    ReverseAt(s[lo..hi]);
  }

  /** Inversion only rearranges: the multiset of alleles is unchanged, so a permutation
      stays a permutation. */
  lemma InvertedPermutes(s: seq<nat>, lo: nat, hi: nat, n: nat)
    requires lo <= hi <= |s|
    ensures multiset(Inverted(s, lo, hi)) == multiset(s)
    ensures IsPermutation(s, n) ==> IsPermutation(Inverted(s, lo, hi), n)
  {
    ReverseAt(s[lo..hi]);
    assert s == s[..lo] + s[lo..hi] + s[hi..];
  }

  /** Drawing the same position twice leaves the tour as it was. */
  lemma InvertedEmptyRange(s: seq<nat>, lo: nat)
    requires lo <= |s|
    ensures Inverted(s, lo, lo) == s
  {
    assert s == s[..lo] + s[lo..];
  }

  /** The end of the range is excluded, so the last allele never moves when the range
      ends at a drawn position (always below the length). */
  lemma InvertedKeepsLast(s: seq<nat>, lo: nat, hi: nat)
    requires lo <= hi < |s|
    ensures Inverted(s, lo, hi)[|s| - 1] == s[|s| - 1]
  {
    InvertedAt(s, lo, hi);
  }

  /** Inverting the same range twice restores the tour. */
  lemma InvertedTwice(s: seq<nat>, lo: nat, hi: nat)
    requires lo <= hi <= |s|
    ensures |Inverted(s, lo, hi)| == |s|
    ensures Inverted(Inverted(s, lo, hi), lo, hi) == s
  {
    var t := Inverted(s, lo, hi);
    InvertedAt(s, lo, hi);
    InvertedAt(t, lo, hi);
    forall k | 0 <= k < |s| ensures Inverted(t, lo, hi)[k] == s[k] {
      if lo <= k < hi {
        assert Inverted(t, lo, hi)[k] == t[lo + hi - 1 - k];
      }
    }
  }

  /** `slice[lo..hi].reverse()`, in place: swap the outermost pair and move inwards. */
  method ReverseRange(a: array<nat>, lo: nat, hi: nat)
    requires lo <= hi <= a.Length
    modifies a
    ensures a[..] == Inverted(old(a[..]), lo, hi)
  {
    var i, j := lo, hi;
    while i + 1 < j
      invariant lo <= i <= j <= hi && i - lo == hi - j
      invariant forall k :: 0 <= k < lo || hi <= k < a.Length ==> a[k] == old(a[k])
      invariant forall k :: i <= k < j ==> a[k] == old(a[k])
      invariant forall k :: lo <= k < i || j <= k < hi ==> a[k] == old(a[lo + hi - 1 - k])
    {
      a[i], a[j - 1] := a[j - 1], a[i];
      i, j := i + 1, j - 1;
    }
    InvertedAt(old(a[..]), lo, hi);
  }

  /** `inversion_mutation`: draw two positions below the length (which panics on an empty
      tour), order them, and reverse the half-open range between them in a copy.
      `draw1` and `draw2` are the two results of `gen_range(0..n)`. */
  method InversionMutation(g: Genotype, draw1: nat, draw2: nat) returns (r: Outcome<Genotype>)
    requires |g.data| > 0 ==> draw1 < |g.data| && draw2 < |g.data|
    ensures r.Panic? <==> |g.data| == 0
    ensures r.Panic? ==> r.message == "cannot sample empty range"
    ensures r.Done? ==> r.value.data == Inverted(g.data, Min(draw1, draw2), Max(draw1, draw2))
  {
    var n := |g.data|;
    if n == 0 {
      return Panic("cannot sample empty range");
    }
    var clone := new nat[n](i requires 0 <= i < n => g.data[i]);
    assert clone[..] == g.data;
    var pos1, pos2 := draw1, draw2;
    if pos1 > pos2 {
      pos1, pos2 := pos2, pos1;
    }
    ReverseRange(clone, pos1, pos2);
    return Done(Genotype(clone[..]));
  }

  /** Whatever positions are drawn, a mutated permutation is a permutation of the same
      alleles and keeps its last allele in place. */
  lemma InversionMutationKeeps(g: Genotype, draw1: nat, draw2: nat, n: nat)
    requires draw1 < |g.data| && draw2 < |g.data|
    ensures Min(draw1, draw2) <= Max(draw1, draw2) < |g.data|
    ensures IsPermutation(g.data, n) ==>
      IsPermutation(Inverted(g.data, Min(draw1, draw2), Max(draw1, draw2)), n)
    ensures Inverted(g.data, Min(draw1, draw2), Max(draw1, draw2))[|g.data| - 1] == g.data[|g.data| - 1]
  {
    InvertedPermutes(g.data, Min(draw1, draw2), Max(draw1, draw2), n);
    InvertedKeepsLast(g.data, Min(draw1, draw2), Max(draw1, draw2));
  }

  // ---------------------------------------------------------------------------
  // edge_crossover

  /** `edge_crossover`: parents of different lengths panic; otherwise the edge table of the
      two tours is built and handed to `construct_child`, which is not part of this model
      and appears as the parameter `constructChild`, a function of the table it receives.
      Two empty parents make `num_alleles - 1` underflow while the table is built. */
  method EdgeCrossover(parent1: Genotype, parent2: Genotype, constructChild: seq<Row> -> Genotype)
    returns (r: Outcome<Genotype>)
    requires |parent1.data| == |parent2.data| ==>
      Below(parent1.data, |parent1.data|) && Below(parent2.data, |parent1.data|)
    ensures |parent1.data| != |parent2.data| <==>
      r == Panic("crossover requires both genotypes to have equal size")
    ensures |parent1.data| == |parent2.data| == 0 ==> r == Panic("attempt to subtract with overflow")
    ensures |parent1.data| == |parent2.data| >= 1 ==>
      ValidParents(parent1.data, parent2.data)
      && r == Done(constructChild(EdgeTableOf(parent1.data, parent2.data)))
  {
    var p1, p2 := parent1.data, parent2.data;
    if |p1| != |p2| {
      return Panic("crossover requires both genotypes to have equal size");
    }
    if |p1| == 0 {
      return Panic("attempt to subtract with overflow");
    }
    var table := ConstructEdgeTable(p1, p2);
    return Done(constructChild(table[..]));
  }
}
