# A verified model of a genetic TSP solver's core

The project models the core of a small Rust program that attacks the travelling
salesman problem with a genetic algorithm. A tour is a permutation genotype: the order
in which the cities 0 … n-1 are visited. The core covers five parts of the program:

- **Edge table.** Edge-recombination crossover builds an edge table from two parent
  tours. Row v maps each neighbour u of city v to the number of times v and u are
  adjacent in the two parent cycles; for permutation tours of at least three cities this
  is the number of parents in which they are adjacent (`PermutationRow`). The core also includes the queries and the deletion that the child
  construction uses on the table (`EdgeTables`, in `edge_table.dfy`).
- **Genotype operators.** A random tour, inversion mutation, and the front half of edge
  crossover (`Genotypes`, in `genotype.dfy`).
- **Weighted graph.** The complete graph over the input points, with the distances
  stored in a dense row-major n*n buffer of which only the strict upper triangle is
  written (`WeightedGraphs`, in `weighted_graph.dfy`).
- **File parser.** The parser of the city file: a count line, a heading line, then one
  `<label> <x> <y>` line per city (`FileParser`, in `file_parser.dfy`).
- **Command-line configuration.** Reading the file name, the population size and the
  number of evaluations from the arguments (`Configuration`, in `config.dfy`).

The model keeps the source's own form:

- The edge table is an `array` of finite maps (`Vec<HashMap<usize, usize>>`). It is
  filled and pruned in place by methods, and each method is proved equal to a
  specification function on sequences (`EdgeTableOf`, `AddEdge`, `Removed`). The
  properties of the table are lemmas about those functions.
- The distance matrix is a class whose constructor runs the nested loop over an `array`.
  A ghost log records every position the loop writes.
- Shuffling and reversing work in place on arrays.
- The parsers are functions, except the point loop of `parse_file`, which is a method.

The supporting modules are:

- `Common` (`common.dfy`): `Option`, `Result` and `Outcome`.
- `Permutations` (`permutations.dfy`): what it means to be a permutation of 0 … n-1.
- `Text` (`text.dfy`): the pieces of Rust's `str` API the parsers call, written out:
  `lines`, `split`, `split_whitespace`, `trim` and `parse::<usize>`.

Conventions:

- A panic the model keeps is the value `Outcome.Panic(message)`, carrying the message
  the program would print. Out-of-range indexing is excluded by preconditions instead
  (see "## Left out"). A Rust error is `Result.Err(message)`.
- Random draws are either explicit parameters or nondeterministic choices (`:|`).
- Floating-point values are `real`. The Euclidean distance and `str::parse::<f64>` are
  caller-supplied functions.

## Model

| member | source | states |
|---|---|---|
| Configuration.FromArgs | src/config.rs:12-40 | Each failure gives its own message, checked in source order: "file name not provided", "pop size not provided", "could not parse pop size", "num evals not provided", "could not parse num evals". The result is `Ok` exactly when arguments 2 and 3 parse as `usize` with population size > 1 and evaluations > 0, and then it holds arguments 1, 2 and 3. It panics exactly when both parse but an assert fails, the population-size assert first. |
| Configuration.FromArgsIgnoresOtherArgs | src/config.rs:14-39 | For every argument list, the result does not depend on argument 0; once arguments 1 to 3 are present, it does not depend on any later argument either. |
| Configuration.FromArgsRoundTrip | src/config.rs:31-39 | Writing a valid configuration out as decimal arguments and reading it back gives the same configuration. |
| Text.ParseShowNat | src/config.rs:19 | `parse::<usize>` of the decimal rendering of any `usize` gives that value back. |
| Text.SplitHasSecond | src/file_parser.rs:34-37 | `split(" : ")` has a second piece exactly when the separator occurs in the line. |
| Text.JoinSplit | src/file_parser.rs:34-35 | Joining the pieces of `split` with the separator rebuilds the line, so no character is lost or invented. |
| Text.TrimPadded | src/file_parser.rs:38 | `trim` removes exactly the whitespace around a word. |
| Text.WordsOfJoin | src/file_parser.rs:49-51 | `split_whitespace` of words joined by single spaces gives back those words. |
| Text.LinesOfUnlines | src/file_parser.rs:7 | `lines` of a file written line by line gives back its lines. |
| FileParser.GetNumPointsCases | src/file_parser.rs:31-45 | A missing line gives "file was empty". A line without " : " gives "first line not formatted properly". A second field that does not parse after trimming gives "could not parse number of dimensions". Otherwise the result is `Ok` with the parsed number. |
| FileParser.GetNumPointsOfHeader | src/file_parser.rs:31-45 | A line `<key> : <count>`, with a key free of ':' and whitespace around the count, declares that count. |
| FileParser.GetNumPointsExample | src/file_parser.rs:78-82 | "DIMENSIONS : 123" declares 123. |
| FileParser.GetPointCases | src/file_parser.rs:47-72 | The errors come in this order: no field 1, then no field 2 (even when field 1 does not parse), then an unparseable x, then an unparseable y. Otherwise the point is the parses of fields 1 and 2. |
| FileParser.GetPointOfFields | src/file_parser.rs:49-60 | For a line of single-space-separated fields, the point depends only on fields 1 and 2. Field 0 and later fields are ignored. |
| FileParser.GetPointExample | src/file_parser.rs:84-88 | "column1 123 321" gives the parses of "123" and "321". |
| FileParser.ParsePoints | src/file_parser.rs:14-16 | The result is `Ok` exactly when every line is a valid point, and then it holds one point per line, in order. On an error, the error is that of the first bad line. |
| FileParser.ParseLines | src/file_parser.rs:6-18 | A bad count line is reported first. The second line is never looked at. Every later line becomes one point, in order, and the first bad line aborts with its error. The declared count is not compared with the number of points. |
| FileParser.ParseContents | src/file_parser.rs:7-18 | `parse_file` on the contents of a file: the same outcomes as `ParseLines` on `Lines` of the contents. |
| FileParser.FileLines | src/file_parser.rs:7-12 | For a file written line by line, the count line is its first line and the points are read from its third line on. |
| WeightedGraphs.FlatIndexRowMajor | src/weighted_graph.rs:48 | The flat position of cell (i, j) is i*n + j, the row-major layout the row slices of `print` read back. |
| WeightedGraphs.FlatIndexBound | src/weighted_graph.rs:27-31 | Every cell of the n-by-n matrix lies inside the n² buffer. |
| WeightedGraphs.FlatIndexDistinct | src/weighted_graph.rs:29-33 | Distinct cells have distinct flat positions. |
| WeightedGraphs.WriteCell | src/weighted_graph.rs:31-32 | One write gives cell (i, j) its distance and changes no other cell. |
| WeightedGraphs.FillRow | src/weighted_graph.rs:30-33 | The inner loop gives cells (i, i+1) … (i, n-1) their distances, in that order, and changes nothing else. |
| WeightedGraphs.FillRows | src/weighted_graph.rs:29-34 | The nested loop leaves the distance in every cell above the diagonal and 0.0 in every other cell, and writes the positions of the upper triangle, in order. |
| WeightedGraphs.WeightedGraph.FromPoints | src/weighted_graph.rs:15-40 | The graph has one vertex per point and an n² buffer. Cell (i, j) holds the distance of points i and j when i < j, and 0.0 on and below the diagonal. The write log is the upper triangle. |
| WeightedGraphs.WeightedGraph.NumVertices | src/weighted_graph.rs:42-44 | The vertex count is the side of the square matrix. |
| WeightedGraphs.UpperTriangleWrites | src/weighted_graph.rs:29-33 | The write log is strictly increasing, so no cell is written twice. It holds every cell (i, j) with i < j and nothing else. |
| WeightedGraphs.UpperTriangleLength | src/weighted_graph.rs:17-24 | The loop writes n(n-1)/2 cells: (n-1) + (n-2) + … + 1. |
| EdgeTables.AddEdgeCounts | src/genotype/utils.rs:26-33 | Inserting (v, u) adds one to the count of u in row v and one to the count of v in row u (two when v == u), makes them keys, and changes nothing else. |
| EdgeTables.AddToEdgeTable | src/genotype/utils.rs:26-33 | The in-place update equals the symmetric increment `AddEdge`. |
| EdgeTables.ConstructEdgeTable | src/genotype/utils.rs:6-22 | The built table equals `EdgeTableOf`: n empty rows, then the consecutive pairs of both parents, interleaved, then each parent's wrap-around pair. |
| EdgeTables.AddAllCount | src/genotype/utils.rs:12-19 | After any sequence of insertions, the count of b in row a has grown by the number of inserted edges joining a and b, in either orientation. |
| EdgeTables.EdgeTableCounts | src/genotype/utils.rs:8-19 | The table has one row per allele. The count of b in row a is the number of parent edges joining a and b, so the table is symmetric in counts and in keys, and b is a key of row a exactly when that number is positive. |
| EdgeTables.EdgeTableValid | src/genotype/utils.rs:6-22 | Every key is an allele and every stored count is positive. |
| EdgeTables.AddEdgeTotal | src/genotype/utils.rs:26-33 | Each insertion adds two to the sum of all counts. |
| EdgeTables.EdgeTableTotal | src/genotype/utils.rs:12-19 | The counts of the built table add up to 4n. |
| EdgeTables.LoopEdgesOcc | src/genotype/utils.rs:12-15 | Interleaving the two parents' consecutive pairs does not change how often a pair occurs. |
| EdgeTables.TourLinks | src/genotype/utils.rs:12-19 | In a tour without repeats, an allele is joined to its two cycle neighbours and to nothing else. |
| EdgeTables.PermutationRow | src/genotype/utils.rs:6-22 | For permutation parents, the count of b in an allele's row is the number of times b is that allele's next or previous allele, summed over the two tours; with at least three alleles, this is the number of tours in which b is its neighbour. |
| EdgeTables.PermutationRowKeys | src/genotype/utils.rs:6-22 | For permutation parents of at least three alleles, the keys of an allele's row are its neighbours in both tours, each counted once or twice. |
| EdgeTables.PermutationRowShape | src/genotype/utils.rs:6-22 | For permutation parents of at least three alleles, every row has two to four keys with counts 1 or 2. |
| EdgeTables.PermutationRowIs | src/genotype/utils.rs:6-22 | A row of the table of permutation parents equals any map that has the counts `PermutationRow` gives and no other keys. |
| EdgeTables.RowOfFourNeighbours | src/genotype/utils.rs:106-115 | When the two tours give an allele four different neighbours, its row holds each of them once. |
| EdgeTables.EdgeTableExampleReversed | src/genotype/utils.rs:96-104 | Parents [0, 1, 2] and [2, 1, 0] give row 0 = {1: 2, 2: 2}. |
| EdgeTables.EdgeTableExampleFive | src/genotype/utils.rs:106-115 | Parents [0, 1, 2, 3, 4] and [0, 2, 4, 1, 3] give row 0 = {1: 1, 2: 1, 3: 1, 4: 1}. |
| EdgeTables.FindShared | src/genotype/utils.rs:43-48 | Returns a key of the row with count 2, and `None` exactly when there is none. |
| EdgeTables.MinNonEmptyLength | src/genotype/utils.rs:51-55 | Gives the least non-zero row length among the neighbours, and `None` exactly when every neighbour's row is empty. |
| EdgeTables.KeysWithLength | src/genotype/utils.rs:58-62 | Lists exactly the neighbours whose row has the given length. |
| EdgeTables.TrySelectAdjacent | src/genotype/utils.rs:39-67 | The result is a key of the vertex's row. If some neighbour has count 2, the result has count 2. Otherwise the result's row is non-empty and no longer than any other non-empty neighbour row, and `None` comes back exactly when every neighbour's row is empty. |
| EdgeTables.Listing | src/genotype/utils.rs:71-73 | The listing of a set holds each member once and nothing else. |
| EdgeTables.SelectRandom | src/genotype/utils.rs:69-77 | An empty set panics in `gen_range`. Otherwise the result is a member of the set. |
| EdgeTables.RemoveEdge | src/genotype/utils.rs:82-86 | The in-place loop equals `Removed`: x is dropped from every row. |
| EdgeTables.RemovedSpec | src/genotype/utils.rs:79-86 | After removal no row has the key x. The number of rows is unchanged, and so is every other count, including those in x's own row. |
| EdgeTables.RemovedIdempotent | src/genotype/utils.rs:82-86 | Removing the same allele twice is the same as removing it once. |
| EdgeTables.RemovedValid | src/genotype/utils.rs:82-86 | Removal keeps every key an allele and every count positive. |
| Genotypes.Shuffle | src/genotype.rs:20 | Shuffling only rearranges: the multiset of alleles is unchanged. |
| Genotypes.Random | src/genotype.rs:14-25 | Zero alleles panics. Otherwise the result has length n and holds each of 0 … n-1 exactly once. |
| Permutations.PermutationFacts | src/genotype.rs:7-11 | A permutation of 0 … n-1 has length n, holds only values below n, holds each of them, and holds none twice. |
| Genotypes.ReverseRange | src/genotype.rs:41 | The in-place reversal of `[lo, hi)` equals `Inverted`. |
| Genotypes.InvertedAt | src/genotype.rs:37-41 | Positions outside `[lo, hi)` keep their allele, and position k inside gets the allele at lo + hi - 1 - k. |
| Genotypes.InvertedPermutes | src/genotype.rs:32-45 | Inversion preserves the multiset of alleles, so a permutation stays a permutation. |
| Genotypes.InvertedEmptyRange | src/genotype.rs:35-41 | Two equal draws leave the tour unchanged. |
| Genotypes.InvertedKeepsLast | src/genotype.rs:35-41 | The last allele never moves, because the range ends at a drawn position below the length. |
| Genotypes.InvertedTwice | src/genotype.rs:41 | Inverting the same range twice restores the tour. |
| Genotypes.InversionMutation | src/genotype.rs:31-46 | An empty tour panics in `gen_range`. Otherwise the result is the tour with the range between the smaller and the larger draw reversed, with the end excluded. |
| Genotypes.InversionMutationKeeps | src/genotype.rs:31-46 | Whatever the draws, a mutated permutation is a permutation and keeps its last allele. |
| Genotypes.EdgeCrossover | src/genotype.rs:48-59 | Parents of different lengths panic with the source's message, and two empty parents panic in the table construction. Otherwise the child is `construct_child` applied to the edge table of the two parents. |

## Left out

- I/O and process plumbing are not modelled: `extract_contents` (`fs::read_to_string`),
  `run`, `main`, the `print` methods and the `eprintln` in `select_random`. `ParseContents`
  takes the contents `extract_contents` would return and splits them with `Text.Lines`.
- Floating point: `f64` is `real`. The Euclidean distance and `str::parse::<f64>` are
  function parameters, so rounding, NaN and the accepted float syntax are not modelled.
- `construct_child` is not part of this model. `EdgeCrossover` takes it as the parameter
  `constructChild`, and nothing is claimed about the child it builds.
- Randomness: `shuffle`, `gen_range` and `choose` are nondeterministic choices or explicit
  draw parameters, so uniformity is not modelled. The iteration order of a `HashMap` or
  `HashSet` is likewise an arbitrary choice.
- `utils::flat_index`, called at src/weighted_graph.rs:31, is defined in none of the
  source files. `WeightedGraphs.FlatIndex` assumes it is the row-major position i*n + j,
  the layout that `print` (src/weighted_graph.rs:48) reads back. `utils::distance`
  (src/weighted_graph/utils.rs) is the parameter `distance`.
- `usize` is taken to be 64 bits wide, which fixes the largest value `parse::<usize>`
  accepts. Arithmetic overflow elsewhere (n*n in `from_points`) is not modelled.
- Out-of-range indexing panics in the source (an allele at or above n in
  `construct_edge_table`, a vertex or key outside the table in `add_to_edge_table` and
  `try_select_adjacent`, src/genotype/utils.rs:13-19, 28, 31, 41, 53, 61). The model
  excludes it by preconditions (`ValidParents`, the index bounds of `AddEdge`,
  `AddToEdgeTable` and `TrySelectAdjacent`, and `Below` on `EdgeCrossover` for parents of
  equal length). Every table built from valid parents meets them (`EdgeTableValid`,
  `RemovedValid`).
- Allocation failure is not modelled.
- FileParser.ParseLines: `Vec::with_capacity(num_points)` (src/file_parser.rs:10) panics
  with "capacity overflow" for a huge declared count before any point is read; the
  model returns the points instead.
- Genotypes.EdgeCrossover: the panic message for two empty parents is the one a debug
  build gives when `num_alleles - 1` underflows. A release build wraps instead, and
  that behaviour is not modelled.
- EdgeTables.Total: sums the counts of keys below the number of rows only. By
  `EdgeTableValid` these are all the keys of a built table.
- `data()` is the `data` field of the `Genotype` datatype and has no member of its own.
- The inversion range: the code reverses the half-open range `clone[pos1..pos2]`, and
  the model follows it, which is why `InvertedKeepsLast` holds.
