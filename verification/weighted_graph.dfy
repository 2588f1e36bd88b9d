/** The complete weighted graph over the input points (src/weighted_graph.rs). The
    weights live in a dense n*n buffer stored row by row; only the cells above the
    diagonal are ever written. The Euclidean distance, computed in floating point by
    the source, is the caller-supplied function `distance`. */
module WeightedGraphs {
  import opened Common

  /** Position of cell (i, j) of an n-by-n matrix stored row by row: row i starts after
      the i full rows before it. The source's `utils::flat_index` is not part of this
      model; this row-major layout is the one the row slices of `print` read back. */
  function FlatIndex(n: nat, i: nat, j: nat): nat
    decreases i
  {
    if i == 0 then j else n + FlatIndex(n, i - 1, j)
  }

  /** The layout is the usual `i * n + j`. */
  lemma {:induction false} FlatIndexRowMajor(n: nat, i: nat, j: nat)
    ensures FlatIndex(n, i, j) == i * n + j
    decreases i
  {
    if i > 0 {
      FlatIndexRowMajor(n, i - 1, j);
      assert i * n == (i - 1) * n + n;
    }
  }

  lemma MulMono(x: nat, y: nat, n: nat)
    requires x <= y
    ensures x * n <= y * n
  {
  }

  /** A cell in an earlier row comes before every cell of a later row. */
  lemma FlatIndexOrder(n: nat, a: nat, b: nat, c: nat, d: nat)
    requires a < c && b < n
    ensures FlatIndex(n, a, b) < FlatIndex(n, c, d)
  {
    FlatIndexRowMajor(n, a, b);
    FlatIndexRowMajor(n, c, d);
    MulMono(a + 1, c, n);
  }

  /** Within one row, the cells are consecutive. */
  lemma FlatIndexColumn(n: nat, i: nat, j: nat)
    ensures FlatIndex(n, i, j) == FlatIndex(n, i, 0) + j
  {
    FlatIndexRowMajor(n, i, j);
    FlatIndexRowMajor(n, i, 0);
  }

  /** Every cell of the n-by-n matrix lies inside the buffer. */
  lemma FlatIndexBound(n: nat, i: nat, j: nat)
    requires i < n && j < n
    ensures FlatIndex(n, i, j) < n * n
  {
    FlatIndexOrder(n, i, j, n, 0);
    FlatIndexRowMajor(n, n, 0);
  }

  /** Distinct cells of the n-by-n matrix have distinct positions. */
  lemma FlatIndexDistinct(n: nat, a: nat, b: nat, c: nat, d: nat)
    requires b < n && d < n && (a != c || b != d)
    ensures FlatIndex(n, a, b) != FlatIndex(n, c, d)
  {
    if a < c {
      FlatIndexOrder(n, a, b, c, d);
    } else if c < a {
      FlatIndexOrder(n, c, d, a, b);
    } else {
      FlatIndexColumn(n, a, b);
      FlatIndexColumn(n, c, d);
    }
  }

  /** Flat positions of cells (i, i+1) … (i, j-1), in the order the inner loop writes them. */
  function RowCells(n: nat, i: nat, j: nat): (r: seq<nat>)
    ensures |r| == if j > i + 1 then j - i - 1 else 0
  {
    seq<nat>(if j > i + 1 then j - i - 1 else 0, k requires 0 <= k => FlatIndex(n, i, i + 1 + k))
  }

  /** Flat positions written for rows 0 … i-1. */
  function RowsBefore(n: nat, i: nat): seq<nat> {
    if i == 0 then [] else RowsBefore(n, i - 1) + RowCells(n, i - 1, n)
  }

  /** Every flat position the construction writes, in order. */
  function UpperTriangle(n: nat): seq<nat> {
    RowsBefore(n, n)
  }

  predicate StrictlyIncreasing(s: seq<nat>) {
    forall p, q :: 0 <= p < q < |s| ==> s[p] < s[q]
  }

  /** Writing cell (i, j) extends the cells written so far in row i. */
  lemma RowCellsStep(n: nat, i: nat, j: nat)
    requires i < j
    ensures RowCells(n, i, j + 1) == RowCells(n, i, j) + [FlatIndex(n, i, j)]
  {
    var r, s := RowCells(n, i, j + 1), RowCells(n, i, j) + [FlatIndex(n, i, j)];
    forall k | 0 <= k < |r| ensures r[k] == s[k] {
      if k == |r| - 1 {
        assert i + 1 + k == j;
      }
    }
  }

  lemma RowsBeforeStep(n: nat, i: nat)
    requires 0 < i <= n
    ensures RowsBefore(n, i) == RowsBefore(n, i - 1) + RowCells(n, i - 1, n)
    ensures FlatIndex(n, i, 0) == n + FlatIndex(n, i - 1, 0)
  {
  }

  /** Every position written in row i-1 lies in that row of the buffer. */
  lemma RowCellInRow(n: nat, i: nat, k: nat)
    requires 0 < i <= n && k < |RowCells(n, i - 1, n)|
    ensures FlatIndex(n, i - 1, 0) + i + k == RowCells(n, i - 1, n)[k] < FlatIndex(n, i, 0)
  {
    FlatIndexColumn(n, i - 1, i + k);
  }

  /** The rows written so far are strictly increasing and lie before row i. */
  lemma {:induction false} RowsBeforeIncreasing(n: nat, i: nat)
    requires i <= n
    ensures StrictlyIncreasing(RowsBefore(n, i))
    ensures forall x :: x in RowsBefore(n, i) ==> x < FlatIndex(n, i, 0)
  {
    if i > 0 {
      var prev, row := RowsBefore(n, i - 1), RowCells(n, i - 1, n);
      RowsBeforeIncreasing(n, i - 1);
      RowsBeforeStep(n, i);
      forall k | 0 <= k < |row| ensures FlatIndex(n, i - 1, 0) <= row[k] < FlatIndex(n, i, 0) {
        RowCellInRow(n, i, k);
      }
      forall p, q | 0 <= p < q < |prev + row| ensures (prev + row)[p] < (prev + row)[q] {
        if q >= |prev| {
          if p >= |prev| {
            RowCellInRow(n, i, p - |prev|);
            RowCellInRow(n, i, q - |prev|);
          } else {
            assert prev[p] in prev;
          }
        }
      }
    }
  }

  /** Rows 0 … i-1 include cell (a, b) when a < i and a < b. */
  lemma {:induction false} RowsBeforeHas(n: nat, i: nat, a: nat, b: nat)
    requires i <= n && a < i && a < b < n
    ensures FlatIndex(n, a, b) in RowsBefore(n, i)
  {
    RowsBeforeStep(n, i);
    if a == i - 1 {
      assert RowCells(n, a, n)[b - i] in RowCells(n, a, n);
    } else {
      RowsBeforeHas(n, i - 1, a, b);
    }
  }

  /** Rows 0 … i-1 include every cell above the diagonal in those rows. */
  lemma RowsBeforeCovers(n: nat, i: nat)
    requires i <= n
    ensures forall a: nat, b: nat :: a < i && a < b < n ==> FlatIndex(n, a, b) in RowsBefore(n, i)
  {
    forall a: nat, b: nat | a < i && a < b < n ensures FlatIndex(n, a, b) in RowsBefore(n, i) {
      RowsBeforeHas(n, i, a, b);
    }
  }

  /** x is the position of a cell above the diagonal in one of rows 0 … i-1. */
  ghost predicate UpperCell(n: nat, i: nat, x: nat) {
    exists a: nat, b: nat :: a < i && a < b < n && x == FlatIndex(n, a, b)
  }

  lemma UpperCellWiden(n: nat, i: nat, x: nat)
    requires UpperCell(n, i, x)
    ensures UpperCell(n, i + 1, x)
  {
    var a: nat, b: nat :| a < i && a < b < n && x == FlatIndex(n, a, b);
    assert a < i + 1;
  }

  lemma UpperCellOf(n: nat, i: nat, a: nat, b: nat)
    requires a < i && a < b < n
    ensures UpperCell(n, i, FlatIndex(n, a, b))
  {
  }

  /** Whatever rows 0 … i-1 hold is a cell above the diagonal in one of those rows. */
  lemma {:induction false} RowsBeforeMember(n: nat, i: nat, x: nat)
    requires i <= n && x in RowsBefore(n, i)
    ensures UpperCell(n, i, x)
  {
    RowsBeforeStep(n, i);
    var prev, row := RowsBefore(n, i - 1), RowCells(n, i - 1, n);
    if x in prev {
      RowsBeforeMember(n, i - 1, x);
      UpperCellWiden(n, i - 1, x);
    } else {
      var k :| 0 <= k < |row| && row[k] == x;
      UpperCellOf(n, i, i - 1, i + k);
    }
  }

  /** Rows 0 … i-1 hold nothing but cells above the diagonal in those rows. */
  lemma RowsBeforeOnly(n: nat, i: nat)
    requires i <= n
    ensures forall x :: x in RowsBefore(n, i) ==> UpperCell(n, i, x)
  {
    forall x | x in RowsBefore(n, i) ensures UpperCell(n, i, x) {
      RowsBeforeMember(n, i, x);
    }
  }

  /** The construction writes each cell above the diagonal, writes nothing else, and
      never writes a cell twice. */
  lemma UpperTriangleWrites(n: nat)
    ensures StrictlyIncreasing(UpperTriangle(n))
    ensures forall i: nat, j: nat :: i < j < n ==> FlatIndex(n, i, j) in UpperTriangle(n)
    ensures forall x :: x in UpperTriangle(n) ==> UpperCell(n, n, x)
  {
    RowsBeforeIncreasing(n, n);
    RowsBeforeCovers(n, n);
    RowsBeforeOnly(n, n);
  }

  /** Rows 0 … i-1 hold (n-1) + (n-2) + … + (n-i) cells above the diagonal. */
  lemma {:induction false} RowsBeforeLength(n: nat, i: nat)
    requires i <= n
    ensures 2 * |RowsBefore(n, i)| == i * (2 * n - i - 1)
  {
    if i > 0 {
      RowsBeforeLength(n, i - 1);
      RowsBeforeStep(n, i);
      assert i * (2 * n - i - 1) == (i - 1) * (2 * n - (i - 1) - 1) + 2 * (n - i);
    }
  }

  /** The construction writes n(n-1)/2 cells: (n-1) + (n-2) + … + 1. */
  lemma UpperTriangleLength(n: nat)
    ensures 2 * |UpperTriangle(n)| == n * (n - 1)
  {
    RowsBeforeLength(n, n);
  }

  /** The buffer holds the weight of every cell (a, b) with a < b that comes before
      cell (i, j) in row-major order, and 0.0 in every other cell. */
  ghost predicate FilledUpTo(m: array<real>, points: seq<Point>, distance: (Point, Point) -> real, i: nat, j: nat)
    reads m
  {
    var n := |points|;
    forall a: nat, b: nat :: a < n && b < n ==>
      FlatIndex(n, a, b) < m.Length
      && m[FlatIndex(n, a, b)] ==
        if a < b && (a < i || (a == i && b < j)) then distance(points[a], points[b]) else 0.0
  }

  /** Before row i is written, nothing in it has been: no cell (i, b) with b <= i lies
      above the diagonal. */
  lemma FilledRowStart(m: array<real>, points: seq<Point>, distance: (Point, Point) -> real, i: nat)
    ensures FilledUpTo(m, points, distance, i, 0) <==> FilledUpTo(m, points, distance, i, i + 1)
  {
  }

  /** Once row i is written up to its last column, the next row can begin. */
  lemma FilledRowEnd(m: array<real>, points: seq<Point>, distance: (Point, Point) -> real, i: nat)
    ensures FilledUpTo(m, points, distance, i, |points|) <==> FilledUpTo(m, points, distance, i + 1, 0)
  {
  }

  /** One write of the inner loop of `from_points`: cell (i, j) receives its weight. */
  method WriteCell(m: array<real>, points: seq<Point>, distance: (Point, Point) -> real, i: nat, j: nat)
    requires i < j < |points| && m.Length == |points| * |points|
    requires FilledUpTo(m, points, distance, i, j)
    modifies m
    ensures FilledUpTo(m, points, distance, i, j + 1)
  {
    var n := |points|;
    FlatIndexBound(n, i, j);
    m[FlatIndex(n, i, j)] := distance(points[i], points[j]);
    forall a: nat, b: nat | a < n && b < n
      ensures FlatIndex(n, a, b) < m.Length
      ensures m[FlatIndex(n, a, b)] ==
        if a < b && (a < i || (a == i && b < j + 1)) then distance(points[a], points[b]) else 0.0
    {
      FlatIndexBound(n, a, b);
      if a != i || b != j {
        FlatIndexDistinct(n, a, b, i, j);
        assert m[FlatIndex(n, a, b)] == old(m[FlatIndex(n, a, b)]);
      }
    }
  }

  /** One pass of the inner loop of `from_points`: the cells (i, i+1) … (i, n-1) receive
      their weights, in order, and no other cell changes. */
  method FillRow(m: array<real>, points: seq<Point>, distance: (Point, Point) -> real, i: nat)
    returns (ghost written: seq<nat>)
    requires i < |points| && m.Length == |points| * |points|
    requires FilledUpTo(m, points, distance, i, 0)
    modifies m
    ensures FilledUpTo(m, points, distance, i + 1, 0)
    ensures written == RowCells(|points|, i, |points|)
  {
    var n := |points|;
    written := [];
    FilledRowStart(m, points, distance, i);
    var j := i + 1;
    while j < n
      invariant i + 1 <= j <= n
      invariant written == RowCells(n, i, j)
      invariant FilledUpTo(m, points, distance, i, j)
    {
      WriteCell(m, points, distance, i, j);
      RowCellsStep(n, i, j);
      written := written + [FlatIndex(n, i, j)];
      j := j + 1;
    }
    FilledRowEnd(m, points, distance, i);
  }

  /** A fresh zero-filled n*n buffer holds no weights yet. */
  lemma ZeroFilled(m: array<real>, points: seq<Point>, distance: (Point, Point) -> real)
    requires m.Length == |points| * |points|
    requires forall k :: 0 <= k < m.Length ==> m[k] == 0.0
    ensures FilledUpTo(m, points, distance, 0, 0)
  {
    var n := |points|;
    forall a: nat, b: nat | a < n && b < n ensures FlatIndex(n, a, b) < m.Length {
      FlatIndexBound(n, a, b);
    }
  }

  /** The outer loop of `from_points`: rows 0 … n-1 in turn. */
  method FillRows(m: array<real>, points: seq<Point>, distance: (Point, Point) -> real)
    returns (ghost log: seq<nat>)
    requires m.Length == |points| * |points|
    requires FilledUpTo(m, points, distance, 0, 0)
    modifies m
    ensures FilledUpTo(m, points, distance, |points|, 0)
    ensures log == UpperTriangle(|points|)
  {
    var n := |points|;
    log := [];
    var i := 0;
    while i < n
      invariant 0 <= i <= n
      invariant log == RowsBefore(n, i)
      invariant FilledUpTo(m, points, distance, i, 0)
    {
      ghost var row := FillRow(m, points, distance, i);
      log := log + row;
      i := i + 1;
    }
  }

  /** A complete graph over the points, with the weights in a dense row-major matrix. */
  class WeightedGraph {
    var matrix: array<real>
    var numVertices: nat
    /** The flat positions written while the matrix was built, in order. */
    ghost var Writes: seq<nat>

    ghost predicate Valid()
      reads this
    {
      matrix.Length == numVertices * numVertices
    }

    /** `WeightedGraph::from_points`: a zero-filled n*n buffer in which the nested loop
        writes the distance of points i and j into cell (i, j) for every i < j. The
        diagonal and the cells below it keep 0.0, so the stored matrix is upper-triangular
        and not symmetric. Each cell above the diagonal is written exactly once. */
    constructor FromPoints(points: seq<Point>, distance: (Point, Point) -> real)
      ensures Valid() && fresh(matrix)
      ensures NumVertices() == |points|
      ensures forall i: nat, j: nat :: i < |points| && j < |points| ==>
        FlatIndex(|points|, i, j) < matrix.Length
        && matrix[FlatIndex(|points|, i, j)] == if i < j then distance(points[i], points[j]) else 0.0
      ensures Writes == UpperTriangle(|points|)
    {
      var n := |points|;
      var m := new real[n * n](_ => 0.0);
      ZeroFilled(m, points, distance);
      ghost var log := FillRows(m, points, distance);
      matrix := m;
      numVertices := n;
      Writes := log;
    }

    /** `num_vertices`: the number of points the graph was built from, which is the side
        of the square matrix. */
    function NumVertices(): (n: nat)
      reads this
      ensures Valid() ==> matrix.Length == n * n
    {
      numVertices
    }
  }
}
