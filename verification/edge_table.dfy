/** The edge table of edge-recombination crossover (src/genotype/utils.rs). Row v maps
    each neighbour u of allele v in either parent tour to the number of times v and u are
    adjacent in the two parent cycles; for permutation tours of at least three alleles
    this is the number of parents in which they are adjacent (`PermutationRow`). The table is Rust's
    `Vec<HashMap<usize, usize>>`: an array of rows, each row a finite map. */
module EdgeTables {
  import opened Common
  import opened Permutations

  /** One adjacency list: neighbour to multiplicity. */
  type Row = map<nat, nat>

  /** An undirected edge as the source inserts it: (v, u). */
  type Edge = (nat, nat)

  /** The multiplicity of neighbour u in a row; 0 when u is not a key. */
  function Count(row: Row, u: nat): nat {
    if u in row then row[u] else 0
  }

  /** `*row.entry(u).or_insert(0) += 1`. */
  function Bump(row: Row, u: nat): Row {
    row[u := Count(row, u) + 1]
  }

  /** `add_to_edge_table(v, u)` on the table's value: bump u in row v, then v in row u
      (the second bump sees the first when v == u). */
  function AddEdge(t: seq<Row>, v: nat, u: nat): (r: seq<Row>)
    requires v < |t| && u < |t|
    ensures |r| == |t|
  {
    var t1 := t[v := Bump(t[v], u)];
    t1[u := Bump(t1[u], v)]
  }

  /** The endpoints of every edge index a row of a table with n rows. */
  predicate EdgesBelow(es: seq<Edge>, n: nat) {
    forall k :: 0 <= k < |es| ==> es[k].0 < n && es[k].1 < n
  }

  /** The table after inserting the edges in order. */
  function AddAll(t: seq<Row>, es: seq<Edge>): (r: seq<Row>)
    requires EdgesBelow(es, |t|)
    ensures |r| == |t|
    decreases |es|
  {
    if es == [] then t
    else
      var e := es[|es| - 1];
      AddEdge(AddAll(t, es[..|es| - 1]), e.0, e.1)
  }

  /** `vec![HashMap::with_capacity(4); n]`: n empty rows. */
  function EmptyTable(n: nat): seq<Row> {
    seq(n, _ => map[])
  }

  /** The edges the loop of `construct_edge_table` inserts in its first i rounds, in order:
      (p1[k], p1[k+1]) and then (p2[k], p2[k+1]) for k = 0 … i-1. */
  function LoopEdges(p1: seq<nat>, p2: seq<nat>, i: nat): seq<Edge>
    requires i < |p1| && |p2| == |p1|
  {
    if i == 0 then [] else LoopEdges(p1, p2, i - 1) + [(p1[i - 1], p1[i]), (p2[i - 1], p2[i])]
  }

  /** Every edge `construct_edge_table` inserts, in order: the consecutive pairs of both
      parents, then the wrap-around pair (p[0], p[n-1]) of each. */
  function EdgeList(p1: seq<nat>, p2: seq<nat>): seq<Edge>
    requires |p1| >= 1 && |p2| == |p1|
  {
    var n := |p1|;
    LoopEdges(p1, p2, n - 1) + [(p1[0], p1[n - 1]), (p2[0], p2[n - 1])]
  }

  /** The parents `edge_crossover` passes on, their lengths already checked equal: at
      least one allele, and every allele a valid row index. */
  predicate ValidParents(p1: seq<nat>, p2: seq<nat>) {
    |p1| >= 1 && |p2| == |p1| && Below(p1, |p1|) && Below(p2, |p1|)
  }

  lemma {:induction false} LoopEdgesBelow(p1: seq<nat>, p2: seq<nat>, i: nat)
    requires ValidParents(p1, p2) && i < |p1|
    ensures |LoopEdges(p1, p2, i)| == 2 * i
    ensures EdgesBelow(LoopEdges(p1, p2, i), |p1|)
  {
    if i > 0 {
      LoopEdgesBelow(p1, p2, i - 1);
    }
  }

  lemma EdgeListBelow(p1: seq<nat>, p2: seq<nat>)
    requires ValidParents(p1, p2)
    ensures |EdgeList(p1, p2)| == 2 * |p1|
    ensures EdgesBelow(EdgeList(p1, p2), |p1|)
  {
    LoopEdgesBelow(p1, p2, |p1| - 1);
  }

  /** The table `construct_edge_table` returns. */
  function EdgeTableOf(p1: seq<nat>, p2: seq<nat>): seq<Row>
    requires ValidParents(p1, p2)
  {
    EdgeListBelow(p1, p2);
    AddAll(EmptyTable(|p1|), EdgeList(p1, p2))
  }

  /** How often (a, b) occurs in an edge sequence, in this orientation. */
  function Occ(es: seq<Edge>, a: nat, b: nat): nat
    decreases |es|
  {
    if es == [] then 0
    else Occ(es[..|es| - 1], a, b) + (if es[|es| - 1] == (a, b) then 1 else 0)
  }

  /** How often a and b are joined by an edge of es, in either orientation. */
  function Links(es: seq<Edge>, a: nat, b: nat): nat {
    Occ(es, a, b) + Occ(es, b, a)
  }

  // ---------------------------------------------------------------------------
  // add_to_edge_table

  /** Inserting (v, u) adds one to the count of u in row v and one to the count of v in
      row u (two when v == u), makes them keys, and changes nothing else. */
  lemma AddEdgeCounts(t: seq<Row>, v: nat, u: nat)
    requires v < |t| && u < |t|
    ensures |AddEdge(t, v, u)| == |t|
    ensures forall a, b :: 0 <= a < |t| ==>
      Count(AddEdge(t, v, u)[a], b) ==
        Count(t[a], b) + (if a == v && b == u then 1 else 0) + (if a == u && b == v then 1 else 0)
    ensures forall a :: 0 <= a < |t| ==>
      AddEdge(t, v, u)[a].Keys ==
        t[a].Keys + (if a == v then {u} else {}) + (if a == u then {v} else {})
  {
  }

  /** `add_to_edge_table`: the symmetric increment, done in place. */
  method AddToEdgeTable(table: array<Row>, v: nat, u: nat)
    requires v < table.Length && u < table.Length
    modifies table
    ensures table[..] == AddEdge(old(table[..]), v, u)
  {
    table[v] := Bump(table[v], u);
    table[u] := Bump(table[u], v);
  }

  // ---------------------------------------------------------------------------
  // construct_edge_table

  lemma AddAllSnoc2(t: seq<Row>, es: seq<Edge>, e1: Edge, e2: Edge)
    requires EdgesBelow(es, |t|)
    requires e1.0 < |t| && e1.1 < |t| && e2.0 < |t| && e2.1 < |t|
    ensures EdgesBelow(es + [e1], |t|) && EdgesBelow(es + [e1, e2], |t|)
    ensures AddAll(t, es + [e1, e2]) == AddEdge(AddEdge(AddAll(t, es), e1.0, e1.1), e2.0, e2.1)
  {
    assert (es + [e1, e2])[..|es| + 1] == es + [e1];
    assert (es + [e1])[..|es|] == es;
  }

  /** `construct_edge_table`: n empty rows, then the symmetric increment for the two
      consecutive pairs of each round of the loop, then for the two wrap-around pairs. */
  method ConstructEdgeTable(p1: seq<nat>, p2: seq<nat>) returns (table: array<Row>)
    requires ValidParents(p1, p2)
    ensures fresh(table)
    ensures table[..] == EdgeTableOf(p1, p2)
  {
    var n := |p1|;
    table := new Row[n](_ => map[]);
    assert table[..] == EmptyTable(n);
    var i := 0;
    while i < n - 1
      invariant 0 <= i <= n - 1
      invariant EdgesBelow(LoopEdges(p1, p2, i), n)
      invariant table[..] == AddAll(EmptyTable(n), LoopEdges(p1, p2, i))
    {
      LoopEdgesBelow(p1, p2, i + 1);
      AddAllSnoc2(EmptyTable(n), LoopEdges(p1, p2, i), (p1[i], p1[i + 1]), (p2[i], p2[i + 1]));
      AddToEdgeTable(table, p1[i], p1[i + 1]);
      AddToEdgeTable(table, p2[i], p2[i + 1]);
      i := i + 1;
    }
    EdgeListBelow(p1, p2);
    AddAllSnoc2(EmptyTable(n), LoopEdges(p1, p2, n - 1), (p1[0], p1[n - 1]), (p2[0], p2[n - 1]));
    AddToEdgeTable(table, p1[0], p1[n - 1]);
    AddToEdgeTable(table, p2[0], p2[n - 1]);
  }

  // ---------------------------------------------------------------------------
  // What the table counts

  /** Every key of every row is an allele, and every stored count is positive. */
  ghost predicate ValidTable(t: seq<Row>) {
    forall a, b :: 0 <= a < |t| && b in t[a] ==> b < |t| && t[a][b] >= 1
  }

  /** After a sequence of insertions, the count of b in row a has grown by the number of
      inserted edges joining a and b, whatever their orientation. */
  lemma {:induction false} AddAllCount(t: seq<Row>, es: seq<Edge>, a: nat, b: nat)
    requires EdgesBelow(es, |t|) && a < |t|
    ensures Count(AddAll(t, es)[a], b) == Count(t[a], b) + Links(es, a, b)
    ensures b in AddAll(t, es)[a] <==> b in t[a] || Links(es, a, b) > 0
    decreases |es|
  {
    if es != [] {
      var e := es[|es| - 1];
      var init := es[..|es| - 1];
      AddAllCount(t, init, a, b);
      AddEdgeCounts(AddAll(t, init), e.0, e.1);
    }
  }

  /** Insertions keep keys below the number of rows and counts positive. */
  lemma {:induction false} AddAllValid(t: seq<Row>, es: seq<Edge>)
    requires EdgesBelow(es, |t|) && ValidTable(t)
    ensures ValidTable(AddAll(t, es))
    decreases |es|
  {
    if es != [] {
      var e := es[|es| - 1];
      AddAllValid(t, es[..|es| - 1]);
      AddEdgeCounts(AddAll(t, es[..|es| - 1]), e.0, e.1);
    }
  }

  /** The table of `construct_edge_table` has one row per allele; the count of b in row a
      is the number of parent edges joining a and b, so it is symmetric, and b is a key of
      row a exactly when that number is positive. */
  lemma EdgeTableCounts(p1: seq<nat>, p2: seq<nat>, a: nat, b: nat)
    requires ValidParents(p1, p2) && a < |p1| && b < |p1|
    ensures |EdgeTableOf(p1, p2)| == |p1|
    ensures Count(EdgeTableOf(p1, p2)[a], b) == Links(EdgeList(p1, p2), a, b)
    ensures b in EdgeTableOf(p1, p2)[a] <==> Links(EdgeList(p1, p2), a, b) > 0
    ensures Count(EdgeTableOf(p1, p2)[a], b) == Count(EdgeTableOf(p1, p2)[b], a)
    ensures b in EdgeTableOf(p1, p2)[a] <==> a in EdgeTableOf(p1, p2)[b]
  {
    EdgeListBelow(p1, p2);
    AddAllCount(EmptyTable(|p1|), EdgeList(p1, p2), a, b);
    AddAllCount(EmptyTable(|p1|), EdgeList(p1, p2), b, a);
  }

  /** Every key of the built table is an allele and every count in it is positive. */
  lemma EdgeTableValid(p1: seq<nat>, p2: seq<nat>)
    requires ValidParents(p1, p2)
    ensures ValidTable(EdgeTableOf(p1, p2))
  {
    EdgeListBelow(p1, p2);
    AddAllValid(EmptyTable(|p1|), EdgeList(p1, p2));
  }

  // ---------------------------------------------------------------------------
  // The total of all counts

  /** The sum of the counts of neighbours 0 … k-1 in a row. */
  function RowTotal(row: Row, k: nat): nat {
    if k == 0 then 0 else RowTotal(row, k - 1) + Count(row, k - 1)
  }

  /** The sum of the row totals of rows 0 … k-1, over neighbours 0 … |t|-1. */
  function TableTotal(t: seq<Row>, k: nat): nat
    requires k <= |t|
  {
    if k == 0 then 0 else TableTotal(t, k - 1) + RowTotal(t[k - 1], |t|)
  }

  /** The sum of every count in the table (all of them, in a `ValidTable`). */
  function Total(t: seq<Row>): nat {
    TableTotal(t, |t|)
  }

  lemma {:induction false} RowTotalBump(row: Row, u: nat, k: nat)
    ensures RowTotal(Bump(row, u), k) == RowTotal(row, k) + (if u < k then 1 else 0)
  {
    if k > 0 {
      RowTotalBump(row, u, k - 1);
    }
  }

  lemma {:induction false} RowTotalEmpty(k: nat)
    ensures RowTotal(map[], k) == 0
  {
    if k > 0 {
      RowTotalEmpty(k - 1);
    }
  }

  /** Replacing one row changes the table total by the change in that row's total. */
  lemma {:induction false} TableTotalUpdate(t: seq<Row>, v: nat, r: Row, k: nat)
    requires v < |t| && k <= |t|
    ensures TableTotal(t[v := r], k) + (if v < k then RowTotal(t[v], |t|) else 0)
      == TableTotal(t, k) + (if v < k then RowTotal(r, |t|) else 0)
  {
    if k > 0 {
      TableTotalUpdate(t, v, r, k - 1);
    }
  }

  /** Each call of `add_to_edge_table` adds two to the total. */
  lemma AddEdgeTotal(t: seq<Row>, v: nat, u: nat)
    requires v < |t| && u < |t|
    ensures Total(AddEdge(t, v, u)) == Total(t) + 2
  {
    var t1 := t[v := Bump(t[v], u)];
    RowTotalBump(t[v], u, |t|);
    TableTotalUpdate(t, v, Bump(t[v], u), |t|);
    RowTotalBump(t1[u], v, |t|);
    TableTotalUpdate(t1, u, Bump(t1[u], v), |t|);
  }

  lemma {:induction false} AddAllTotal(t: seq<Row>, es: seq<Edge>)
    requires EdgesBelow(es, |t|)
    ensures Total(AddAll(t, es)) == Total(t) + 2 * |es|
    decreases |es|
  {
    if es != [] {
      var e := es[|es| - 1];
      AddAllTotal(t, es[..|es| - 1]);
      AddEdgeTotal(AddAll(t, es[..|es| - 1]), e.0, e.1);
    }
  }

  lemma {:induction false} TableTotalEmpty(n: nat, k: nat)
    requires k <= n
    ensures TableTotal(EmptyTable(n), k) == 0
  {
    if k > 0 {
      TableTotalEmpty(n, k - 1);
      RowTotalEmpty(n);
    }
  }

  /** The counts of the built table add up to 4n: n-1 consecutive pairs and one
      wrap-around pair per parent, each counted in the rows of both its ends. */
  lemma EdgeTableTotal(p1: seq<nat>, p2: seq<nat>)
    requires ValidParents(p1, p2)
    ensures Total(EdgeTableOf(p1, p2)) == 4 * |p1|
  {
    EdgeListBelow(p1, p2);
    TableTotalEmpty(|p1|, |p1|);
    AddAllTotal(EmptyTable(|p1|), EdgeList(p1, p2));
  }

  // ---------------------------------------------------------------------------
  // Rows of the table for permutation parents

  /** The consecutive pairs (p[k], p[k+1]) of one parent for k = 0 … i-1. */
  function Chain(p: seq<nat>, i: nat): seq<Edge>
    requires i < |p|
  {
    if i == 0 then [] else Chain(p, i - 1) + [(p[i - 1], p[i])]
  }

  /** One parent's edges, its tour read as a cycle. */
  function Tour(p: seq<nat>): seq<Edge>
    requires |p| >= 1
  {
    Chain(p, |p| - 1) + [(p[0], p[|p| - 1])]
  }

  /** The allele after position i on the cycle of p. */
  function Next(p: seq<nat>, i: nat): nat
    requires i < |p|
  {
    if i + 1 < |p| then p[i + 1] else p[0]
  }

  /** The allele before position i on the cycle of p. */
  function Prev(p: seq<nat>, i: nat): nat
    requires i < |p|
  {
    if i > 0 then p[i - 1] else p[|p| - 1]
  }

  lemma {:induction false} OccAppend(xs: seq<Edge>, ys: seq<Edge>, a: nat, b: nat)
    ensures Occ(xs + ys, a, b) == Occ(xs, a, b) + Occ(ys, a, b)
    decreases |ys|
  {
    if ys != [] {
      var zs := xs + ys;
      OccAppend(xs, ys[..|ys| - 1], a, b);
      assert zs[..|zs| - 1] == xs + ys[..|ys| - 1];
      assert zs[|zs| - 1] == ys[|ys| - 1];
    } else {
      assert xs + ys == xs;
    }
  }

  /** The interleaved insertion order does not matter for counting: the loop's edges are
      the two parents' consecutive pairs together. */
  lemma {:induction false} LoopEdgesOcc(p1: seq<nat>, p2: seq<nat>, i: nat, a: nat, b: nat)
    requires i < |p1| && |p2| == |p1|
    ensures Occ(LoopEdges(p1, p2, i), a, b) == Occ(Chain(p1, i), a, b) + Occ(Chain(p2, i), a, b)
  {
    if i > 0 {
      var e1, e2 := (p1[i - 1], p1[i]), (p2[i - 1], p2[i]);
      LoopEdgesOcc(p1, p2, i - 1, a, b);
      OccAppend(LoopEdges(p1, p2, i - 1), [e1, e2], a, b);
      OccAppend(Chain(p1, i - 1), [e1], a, b);
      OccAppend(Chain(p2, i - 1), [e2], a, b);
      assert [e1, e2][..1] == [e1];
    }
  }

  lemma EdgeListLinks(p1: seq<nat>, p2: seq<nat>, a: nat, b: nat)
    requires |p1| >= 1 && |p2| == |p1|
    ensures Links(EdgeList(p1, p2), a, b) == Links(Tour(p1), a, b) + Links(Tour(p2), a, b)
  {
    var n := |p1|;
    var w1, w2 := (p1[0], p1[n - 1]), (p2[0], p2[n - 1]);
    LoopEdgesOcc(p1, p2, n - 1, a, b);
    LoopEdgesOcc(p1, p2, n - 1, b, a);
    OccAppend(LoopEdges(p1, p2, n - 1), [w1, w2], a, b);
    OccAppend(LoopEdges(p1, p2, n - 1), [w1, w2], b, a);
    OccAppend(Chain(p1, n - 1), [w1], a, b);
    OccAppend(Chain(p1, n - 1), [w1], b, a);
    OccAppend(Chain(p2, n - 1), [w2], a, b);
    OccAppend(Chain(p2, n - 1), [w2], b, a);
    assert [w1, w2][..1] == [w1];
  }

  /** In a tour without repeated alleles, the pair (p[i], b) occurs among the first m
      consecutive pairs only as the pair at position i. */
  lemma {:induction false} ChainForward(p: seq<nat>, m: nat, i: nat, b: nat)
    requires Distinct(p) && m < |p| && i < |p|
    ensures Occ(Chain(p, m), p[i], b) == if i < m && p[i + 1] == b then 1 else 0
  {
    if m > 0 {
      ChainForward(p, m - 1, i, b);
    }
  }

  /** … and the pair (b, p[i]) only as the pair at position i-1. */
  lemma {:induction false} ChainBackward(p: seq<nat>, m: nat, i: nat, b: nat)
    requires Distinct(p) && m < |p| && i < |p|
    ensures Occ(Chain(p, m), b, p[i]) == if 0 < i <= m && p[i - 1] == b then 1 else 0
  {
    if m > 0 {
      ChainBackward(p, m - 1, i, b);
    }
  }

  /** In a tour without repeated alleles, p[i] is joined to its two cycle neighbours and
      to nothing else (to one neighbour twice when the tour is shorter than three). */
  lemma TourLinks(p: seq<nat>, i: nat, b: nat)
    requires Distinct(p) && i < |p|
    ensures Links(Tour(p), p[i], b) ==
      (if b == Next(p, i) then 1 else 0) + (if b == Prev(p, i) then 1 else 0)
  {
    var n := |p|;
    ChainForward(p, n - 1, i, b);
    ChainBackward(p, n - 1, i, b);
    OccAppend(Chain(p, n - 1), [(p[0], p[n - 1])], p[i], b);
    OccAppend(Chain(p, n - 1), [(p[0], p[n - 1])], b, p[i]);
    assert p[0] == p[i] <==> i == 0;
    assert p[n - 1] == p[i] <==> i == n - 1;
  }

  /** For permutation parents, the row of the allele at position i of the first parent and
      position j of the second holds exactly its cycle neighbours in both tours. The count
      of b is the number of times b is the allele's next or previous allele, summed over
      the two tours; with at least three alleles, this is the number of tours in which b
      is its neighbour. */
  lemma PermutationRow(p1: seq<nat>, p2: seq<nat>, i: nat, j: nat, b: nat)
    requires IsPermutation(p1, |p1|) && IsPermutation(p2, |p1|) && |p2| == |p1| >= 1
    requires i < |p1| && j < |p1| && p1[i] == p2[j] && b < |p1|
    ensures ValidParents(p1, p2)
    ensures Count(EdgeTableOf(p1, p2)[p1[i]], b) ==
      (if b == Next(p1, i) then 1 else 0) + (if b == Prev(p1, i) then 1 else 0)
      + (if b == Next(p2, j) then 1 else 0) + (if b == Prev(p2, j) then 1 else 0)
    ensures b in EdgeTableOf(p1, p2)[p1[i]] <==>
      b == Next(p1, i) || b == Prev(p1, i) || b == Next(p2, j) || b == Prev(p2, j)
  {
    PermutationFacts(p1, |p1|);
    PermutationFacts(p2, |p1|);
    EdgeTableCounts(p1, p2, p1[i], b);
    EdgeListLinks(p1, p2, p1[i], b);
    TourLinks(p1, i, b);
    TourLinks(p2, j, b);
  }

  lemma SubsetCard(small: set<nat>, big: set<nat>)
    requires small <= big
    ensures |small| <= |big|
  {
    assert big == small + (big - small);
  }

  /** With at least three alleles, the two cycle neighbours of a position differ. */
  lemma NeighboursDiffer(p: seq<nat>, i: nat)
    requires Distinct(p) && |p| >= 3 && i < |p|
    ensures Next(p, i) != Prev(p, i)
  {
  }

  /** The keys of the row of the allele at position i of the first parent and position j
      of the second are its four cycle neighbours, each counted once or twice. */
  lemma PermutationRowKeys(p1: seq<nat>, p2: seq<nat>, i: nat, j: nat)
    requires IsPermutation(p1, |p1|) && IsPermutation(p2, |p1|) && |p2| == |p1| >= 3
    requires i < |p1| && j < |p1| && p1[i] == p2[j]
    ensures ValidParents(p1, p2)
    ensures EdgeTableOf(p1, p2)[p1[i]].Keys == {Next(p1, i), Prev(p1, i), Next(p2, j), Prev(p2, j)}
    ensures forall b :: b in EdgeTableOf(p1, p2)[p1[i]] ==> 1 <= EdgeTableOf(p1, p2)[p1[i]][b] <= 2
  {
    PermutationFacts(p1, |p1|);
    PermutationFacts(p2, |p1|);
    var t := EdgeTableOf(p1, p2);
    EdgeTableValid(p1, p2);
    NeighboursDiffer(p1, i);
    NeighboursDiffer(p2, j);
    forall b | b in t[p1[i]] ensures 1 <= t[p1[i]][b] <= 2 {
      PermutationRow(p1, p2, i, j, b);
    }
    forall b | b in {Next(p1, i), Prev(p1, i), Next(p2, j), Prev(p2, j)} ensures b in t[p1[i]] {
      PermutationRow(p1, p2, i, j, b);
    }
    forall b | b in t[p1[i]] ensures b in {Next(p1, i), Prev(p1, i), Next(p2, j), Prev(p2, j)} {
      PermutationRow(p1, p2, i, j, b);
    }
  }

  /** For permutation parents of at least three alleles, every row of the table has two
      to four keys (its cycle neighbours in the two tours), each counted once or twice. */
  lemma PermutationRowShape(p1: seq<nat>, p2: seq<nat>, a: nat)
    requires IsPermutation(p1, |p1|) && IsPermutation(p2, |p1|) && |p2| == |p1| >= 3
    requires a < |p1|
    ensures ValidParents(p1, p2)
    ensures 2 <= |EdgeTableOf(p1, p2)[a]| <= 4
    ensures forall b :: b in EdgeTableOf(p1, p2)[a] ==> 1 <= EdgeTableOf(p1, p2)[a][b] <= 2
  {
    var n := |p1|;
    PermutationFacts(p1, n);
    PermutationFacts(p2, n);
    assert a in p1 && a in p2;
    var i :| 0 <= i < n && p1[i] == a;
    var j :| 0 <= j < n && p2[j] == a;
    PermutationRowKeys(p1, p2, i, j);
    NeighboursDiffer(p1, i);
    SubsetCard({Next(p1, i), Prev(p1, i)}, EdgeTableOf(p1, p2)[a].Keys);
  }

  /** A row of the table of permutation parents equals a map that has the counts
      `PermutationRow` gives, and no other keys. */
  lemma PermutationRowIs(p1: seq<nat>, p2: seq<nat>, i: nat, j: nat, expected: Row)
    requires IsPermutation(p1, |p1|) && IsPermutation(p2, |p1|) && |p2| == |p1| >= 1
    requires i < |p1| && j < |p1| && p1[i] == p2[j]
    requires forall b :: b in expected ==> b < |p1| && expected[b] >= 1
    requires forall b :: 0 <= b < |p1| ==> (Count(expected, b) ==
      (if b == Next(p1, i) then 1 else 0) + (if b == Prev(p1, i) then 1 else 0)
      + (if b == Next(p2, j) then 1 else 0) + (if b == Prev(p2, j) then 1 else 0))
    ensures ValidParents(p1, p2)
    ensures EdgeTableOf(p1, p2)[p1[i]] == expected
  {
    PermutationFacts(p1, |p1|);
    PermutationFacts(p2, |p1|);
    EdgeTableValid(p1, p2);
    var row := EdgeTableOf(p1, p2)[p1[i]];
    assert |EdgeTableOf(p1, p2)| == |p1|;
    forall b | b in row || b in expected ensures b in row && b in expected && row[b] == expected[b] {
      assert b < |p1|;
      PermutationRow(p1, p2, i, j, b);
      assert Count(row, b) == Count(expected, b);
      assert Count(row, b) >= 1 && Count(expected, b) >= 1;
    }
    assert row.Keys == expected.Keys;
  }

  /** The parents [0, 1, 2] and [2, 1, 0] are permutations. */
  lemma ThreeAllelePermutations(p1: seq<nat>, p2: seq<nat>)
    requires p1 == [0, 1, 2] && p2 == [2, 1, 0]
    ensures IsPermutation(p1, 3) && IsPermutation(p2, 3)
  {
    assert Iota(3) == [0, 1, 2];
    assert multiset(p2) == multiset(p1);
  }

  /** Allele 0 sits between 1 and 2 in both tours. */
  lemma ThreeAlleleNeighbours(p1: seq<nat>, p2: seq<nat>)
    requires p1 == [0, 1, 2] && p2 == [2, 1, 0]
    ensures p1[0] == p2[2] == 0
    ensures Next(p1, 0) == 1 && Prev(p1, 0) == 2 && Next(p2, 2) == 2 && Prev(p2, 2) == 1
  {
  }

  /** In a tour of three alleles every allele neighbours the other two, and reversing the
      tour keeps the neighbours: with parents [0, 1, 2] and [2, 1, 0], row 0 is {1: 2, 2: 2}. */
  lemma EdgeTableExampleReversed(p1: seq<nat>, p2: seq<nat>)
    requires p1 == [0, 1, 2] && p2 == [2, 1, 0]
    ensures ValidParents(p1, p2)
    ensures EdgeTableOf(p1, p2)[0] == map[1 := 2, 2 := 2]
  {
    ThreeAllelePermutations(p1, p2);
    ThreeAlleleNeighbours(p1, p2);
    var expected: Row := map[1 := 2, 2 := 2];
    forall b | 0 <= b < 3 ensures Count(expected, b) ==
      (if b == Next(p1, 0) then 1 else 0) + (if b == Prev(p1, 0) then 1 else 0)
      + (if b == Next(p2, 2) then 1 else 0) + (if b == Prev(p2, 2) then 1 else 0)
    {
    }
    PermutationRowIs(p1, p2, 0, 2, expected);
  }

  /** The parents [0, 1, 2, 3, 4] and [0, 2, 4, 1, 3] are permutations. */
  lemma FiveAllelePermutations(p1: seq<nat>, p2: seq<nat>)
    requires p1 == [0, 1, 2, 3, 4] && p2 == [0, 2, 4, 1, 3]
    ensures IsPermutation(p1, 5) && IsPermutation(p2, 5)
  {
    assert Iota(5) == [0, 1, 2, 3, 4];
    assert multiset(p2) == multiset(p1);
  }

  /** Allele 0 sits at the front of both parents, between 1 and 4 in the first tour and
      between 2 and 3 in the second. */
  lemma FiveAlleleNeighbours(p1: seq<nat>, p2: seq<nat>)
    requires p1 == [0, 1, 2, 3, 4] && p2 == [0, 2, 4, 1, 3]
    ensures p1[0] == p2[0] == 0
    ensures Next(p1, 0) == 1 && Prev(p1, 0) == 4 && Next(p2, 0) == 2 && Prev(p2, 0) == 3
  {
  }

  /** When the two tours give an allele four different neighbours, its row holds each of
      them once. */
  lemma RowOfFourNeighbours(p1: seq<nat>, p2: seq<nat>, i: nat, j: nat)
    requires IsPermutation(p1, |p1|) && IsPermutation(p2, |p1|) && |p2| == |p1| >= 1
    requires i < |p1| && j < |p1| && p1[i] == p2[j]
    requires Next(p1, i) != Next(p2, j) && Next(p1, i) != Prev(p2, j)
    requires Prev(p1, i) != Next(p2, j) && Prev(p1, i) != Prev(p2, j)
    requires Next(p1, i) != Prev(p1, i) && Next(p2, j) != Prev(p2, j)
    ensures ValidParents(p1, p2)
    ensures EdgeTableOf(p1, p2)[p1[i]] ==
      map[Next(p1, i) := 1, Next(p2, j) := 1, Prev(p2, j) := 1, Prev(p1, i) := 1]
  {
    PermutationFacts(p1, |p1|);
    PermutationFacts(p2, |p1|);
    var expected: Row := map[Next(p1, i) := 1, Next(p2, j) := 1, Prev(p2, j) := 1, Prev(p1, i) := 1];
    PermutationRowIs(p1, p2, i, j, expected);
  }

  /** With parents [0, 1, 2, 3, 4] and [0, 2, 4, 1, 3], allele 0 neighbours all four
      others, once each. */
  lemma EdgeTableExampleFive(p1: seq<nat>, p2: seq<nat>)
    requires p1 == [0, 1, 2, 3, 4] && p2 == [0, 2, 4, 1, 3]
    ensures ValidParents(p1, p2)
    ensures EdgeTableOf(p1, p2)[0] == map[1 := 1, 2 := 1, 3 := 1, 4 := 1]
  {
    FiveAllelePermutations(p1, p2);
    FiveAlleleNeighbours(p1, p2);
    RowOfFourNeighbours(p1, p2, 0, 0);
  }

  // ---------------------------------------------------------------------------
  // try_select_adjacent

  /** The first loop of `try_select_adjacent`: the keys of the row in the map's own
      (unspecified) order, stopping at a neighbour shared by both parents. */
  method FindShared(row: Row) returns (r: Option<nat>)
    ensures r.Some? ==> r.value in row && row[r.value] == 2
    ensures r.None? <==> forall u :: u in row ==> row[u] != 2
  {
    var unseen := row.Keys;
    while unseen != {}
      invariant unseen <= row.Keys
      invariant forall u :: u in row && u !in unseen ==> row[u] != 2
      decreases |unseen|
    {
      var u :| u in unseen;
      if row[u] == 2 {
        return Some(u);
      }
      unseen := unseen - {u};
    }
    return None;
  }

  /** `keys.map(|v| table[v].len()).filter(|len| len != 0).min()`. */
  method MinNonEmptyLength(table: array<Row>, keys: set<nat>) returns (r: Option<nat>)
    requires forall u :: u in keys ==> u < table.Length
    ensures r.None? <==> forall u :: u in keys ==> |table[u]| == 0
    ensures r.Some? ==> r.value != 0 && exists u :: u in keys && |table[u]| == r.value
    ensures r.Some? ==> forall u :: u in keys && |table[u]| != 0 ==> r.value <= |table[u]|
  {
    r := None;
    var unseen := keys;
    while unseen != {}
      invariant unseen <= keys
      invariant r.None? ==> forall u :: u in keys && u !in unseen ==> |table[u]| == 0
      invariant r.Some? ==> r.value != 0 && exists u :: u in keys && u !in unseen && |table[u]| == r.value
      invariant r.Some? ==> forall u :: u in keys && u !in unseen && |table[u]| != 0 ==> r.value <= |table[u]|
      decreases |unseen|
    {
      var u :| u in unseen;
      var len := |table[u]|;
      if len != 0 && (r.None? || len < r.value) {
        r := Some(len);
      }
      unseen := unseen - {u};
    }
  }

  /** `keys.filter(|v| table[v].len() == len).collect::<Vec<_>>()`, in the map's order. */
  method KeysWithLength(table: array<Row>, keys: set<nat>, len: nat) returns (r: seq<nat>)
    requires forall u :: u in keys ==> u < table.Length
    ensures forall k :: 0 <= k < |r| ==> r[k] in keys && |table[r[k]]| == len
    ensures forall u :: u in keys && |table[u]| == len ==> u in r
  {
    r := [];
    var unseen := keys;
    while unseen != {}
      invariant unseen <= keys
      invariant forall k :: 0 <= k < |r| ==> r[k] in keys && |table[r[k]]| == len
      invariant forall u :: u in keys && u !in unseen && |table[u]| == len ==> u in r
      decreases |unseen|
    {
      var u :| u in unseen;
      if |table[u]| == len {
        r := r + [u];
      }
      unseen := unseen - {u};
    }
  }

  /** `try_select_adjacent`: a neighbour of the vertex that both parents share if there is
      one; otherwise one of the neighbours whose own row is shortest among the non-empty
      ones; `None` only when there is no shared neighbour and every neighbour's row is
      empty. Which of several candidates is returned is left open (map order, `choose`). */
  method TrySelectAdjacent(table: array<Row>, vertex: nat) returns (r: Option<nat>)
    requires vertex < table.Length
    requires forall u :: u in table[vertex] ==> u < table.Length
    ensures r.Some? ==> r.value in table[vertex]
    ensures (exists u :: u in table[vertex] && table[vertex][u] == 2) ==>
      r.Some? && table[vertex][r.value] == 2
    ensures (forall u :: u in table[vertex] ==> table[vertex][u] != 2) ==>
      (r.None? <==> forall u :: u in table[vertex] ==> |table[u]| == 0)
    ensures (forall u :: u in table[vertex] ==> table[vertex][u] != 2) && r.Some? ==>
      |table[r.value]| != 0
      && forall u :: u in table[vertex] && |table[u]| != 0 ==> |table[r.value]| <= |table[u]|
  {
    var row := table[vertex];
    var shared := FindShared(row);
    if shared.Some? {
      return shared;
    }
    var min := MinNonEmptyLength(table, row.Keys);
    if min.Some? {
      var candidates := KeysWithLength(table, row.Keys, min.value);
      var w :| w in row.Keys && |table[w]| == min.value;
      assert w in candidates;
      var k :| 0 <= k < |candidates|;
      return Some(candidates[k]);
    }
    return None;
  }

  // ---------------------------------------------------------------------------
  // select_random

  /** `candidates.iter().collect::<Vec<_>>()`: the members in the set's own order. */
  method Listing(candidates: set<nat>) returns (r: seq<nat>)
    ensures |r| == |candidates|
    ensures forall k :: 0 <= k < |r| ==> r[k] in candidates
    ensures forall u :: u in candidates ==> u in r
  {
    r := [];
    var unseen := candidates;
    while unseen != {}
      invariant unseen <= candidates
      invariant |r| + |unseen| == |candidates|
      invariant forall k :: 0 <= k < |r| ==> r[k] in candidates && r[k] !in unseen
      invariant forall u :: u in candidates && u !in unseen ==> u in r
      decreases |unseen|
    {
      var u :| u in unseen;
      r := r + [u];
      unseen := unseen - {u};
    }
  }

  /** `select_random`: `gen_range(0..len)` panics on an empty set; otherwise the member at
      the drawn position of the set's listing. */
  method SelectRandom(candidates: set<nat>) returns (r: Outcome<nat>)
    ensures r.Panic? <==> candidates == {}
    ensures r.Panic? ==> r.message == "cannot sample empty range"
    ensures r.Done? ==> r.value in candidates
  {
    if |candidates| == 0 {
      return Panic("cannot sample empty range");
    }
    var idx :| 0 <= idx < |candidates|;
    var listed := Listing(candidates);
    return Done(listed[idx]);
  }

  // ---------------------------------------------------------------------------
  // remove_edge

  /** The table after `remove_edge(x)`: x is dropped from every row; x's own row stays. */
  function Removed(t: seq<Row>, x: nat): seq<Row> {
    seq(|t|, a requires 0 <= a < |t| => t[a] - {x})
  }

  /** After removal no row lists x, the number of rows is unchanged, and every other count
      is as before, including those in x's own row, so x's neighbours can still be found. */
  lemma RemovedSpec(t: seq<Row>, x: nat)
    ensures |Removed(t, x)| == |t|
    ensures forall a :: 0 <= a < |t| ==> x !in Removed(t, x)[a]
    ensures forall a, b :: 0 <= a < |t| && b != x ==> Count(Removed(t, x)[a], b) == Count(t[a], b)
  {
  }

  /** Removing the same allele twice is the same as removing it once. */
  lemma RemovedIdempotent(t: seq<Row>, x: nat)
    ensures Removed(Removed(t, x), x) == Removed(t, x)
  {
    forall a | 0 <= a < |t| ensures Removed(Removed(t, x), x)[a] == Removed(t, x)[a] {
      assert Removed(t, x)[a] - {x} == Removed(t, x)[a];
    }
  }

  /** Removal keeps keys below the number of rows and counts positive. */
  lemma RemovedValid(t: seq<Row>, x: nat)
    requires ValidTable(t)
    ensures ValidTable(Removed(t, x))
  {
  }

  /** `remove_edge`: each row in turn loses the key x. */
  method RemoveEdge(table: array<Row>, x: nat)
    modifies table
    ensures table[..] == Removed(old(table[..]), x)
  {
    var i := 0;
    while i < table.Length
      invariant 0 <= i <= table.Length
      invariant forall a :: 0 <= a < i ==> table[a] == old(table[a]) - {x}
      invariant forall a :: i <= a < table.Length ==> table[a] == old(table[a])
    {
      table[i] := table[i] - {x};
      i := i + 1;
    }
  }
}
