# Viterbi decoders of HanLP

A model of `com.hankcs.hanlp.algoritm.Viterbi`, the class of decoders HanLP uses
to tag words and roles with a hidden Markov model. The class has four decoders,
each an arg-min over additive log-domain costs:

- `compute(int[] obs, int[] states, start_p, trans_p, emit_p)` is textbook
  Viterbi. It keeps a cost table `V` and one kept path per state, then reads
  back the path of the cheapest final state (module `ArrayViterbi`).
- `compute(List<Vertex>, TransformMatrixDictionary<Nature>)` walks a chain of
  word vertices greedily. The start vertex's guessed nature is the anchor.
  Every later vertex is confirmed in place with the first cheapest of its
  natures, given the nature confirmed before it (module `VertexChain`).
- `computeEnumSimply` runs the same greedy walk over role-tag items and returns
  one label per item (module `EnumViterbi`).
- `computeEnum` relaxes a full cost row per item. At each step it reports the
  predecessor label of the single cheapest transition into the next item, so
  it returns one label fewer than there are items (module `EnumViterbi`).

Shared pieces:

- `ArgMin`: the scan-and-keep-first-minimum rule. Every scan uses a strict
  comparison, so ties go to the earliest candidate.
- `Transform`: the transition matrix, step costs, and the greedy walk
  `Greedy`, which the two greedy decoders share.

Every method is proved against a specification function:

- `Decode` for the array decoder.
- `Confirmed` for the vertex chain.
- `Simply` for `computeEnumSimply`.
- `Tags` for `computeEnum`.

The lemmas then prove what those functions promise:

- Optimality of the textbook decoder against every state sequence.
- The first-minimum choice of the greedy walk, and a concrete chain on which
  greedy choice is not optimal.
- The row minimum in `computeEnum`, and the lexicographically first global
  minimum behind its `perfect_j`.

Costs are integers. The `Double.MAX_VALUE` a scan starts from is `None` of an
`Option`, and every finite cost is below it.

Two consequences of the loop bounds are worth stating. `computeEnum` returns one
label fewer than there are items: each loop step appends a key of the previous
item, so the last item never contributes one (`EnumViterbi.Tags`).
`computeEnumSimply` works with a single item and returns its first key, so
`EnumViterbi.ComputeEnumSimply` requires only one item.

## Model

| member | source | states |
|---|---|---|
| ArgMin.PickFirstMinimum | src/main/java/com/hankcs/hanlp/algoritm/Viterbi.java:120-129 | the arg-min scan (also lines 248-257) returns an index holding a cost no larger than any entry and strictly smaller than every entry before it, i.e. the first minimum |
| ArgMin.FirstMinIsFirst | src/main/java/com/hankcs/hanlp/algoritm/Viterbi.java:122-129 | the index a left-to-right scan with a strict comparison keeps is a minimum, and every earlier entry is strictly larger |
| ArgMin.MinAtFirstMin | src/main/java/com/hankcs/hanlp/algoritm/Viterbi.java:122-129 | the cost the scan keeps is the cost at the index it keeps |
| ArrayViterbi.Compute | src/main/java/com/hankcs/hanlp/algoritm/Viterbi.java:38-94 | the returned array is the decoded sequence: the kept path of the first listed state with the smallest final score, or the never-written zero row `path[0]` when no state is listed |
| ArrayViterbi.StateCount | src/main/java/com/hankcs/hanlp/algoritm/Viterbi.java:40-45 | the table width is one more than the largest listed state, so every listed state indexes `V` and `path` |
| ArrayViterbi.Start | src/main/java/com/hankcs/hanlp/algoritm/Viterbi.java:49-53 | after initialisation every listed state has its start cost plus first emission in column 0, and its row starts with itself |
| ArrayViterbi.Scan | src/main/java/com/hankcs/hanlp/algoritm/Viterbi.java:59-76 | the scan over predecessors of one state ends with the cheapest `nprob` and the first listed predecessor achieving it |
| ArrayViterbi.Advance | src/main/java/com/hankcs/hanlp/algoritm/Viterbi.java:55-80 | one step keeps every other column and settles column `t`: each listed state holds its minimum score and `newpath` holds the kept path of its chosen predecessor followed by the state |
| ArrayViterbi.Forward | src/main/java/com/hankcs/hanlp/algoritm/Viterbi.java:55-80 | after the loop over steps 1 to T - 1, column T - 1 is settled: every listed state holds its minimum score and its row holds its kept path; with no listed state `path[0]` stays a zero row |
| ArrayViterbi.Settle | src/main/java/com/hankcs/hanlp/algoritm/Viterbi.java:82-91 | the final scan returns the first listed state whose last-column entry is smallest, and 0 when no state is listed |
| ArrayViterbi.ScoreIsMin | src/main/java/com/hankcs/hanlp/algoritm/Viterbi.java:63-75 | `V[t][y]` is the candidate cost of the predecessor the scan keeps, which is the minimum over listed predecessors |
| ArrayViterbi.SameStateSameRow | src/main/java/com/hankcs/hanlp/algoritm/Viterbi.java:49-79 | a state listed twice gets the same score and the same kept path both times, so rewriting its cell is harmless |
| ArrayViterbi.NextRow | src/main/java/com/hankcs/hanlp/algoritm/Viterbi.java:71-74 | storing the score and the copied predecessor row followed by `y` settles one more listed state and keeps the earlier ones settled |
| ArrayViterbi.BestChoiceCost | src/main/java/com/hankcs/hanlp/algoritm/Viterbi.java:55-80 | the kept path of every state after step `t` costs exactly its table entry `V[t][y]` |
| ArrayViterbi.ScoreIsLowerBound | src/main/java/com/hankcs/hanlp/algoritm/Viterbi.java:55-80 | no sequence of listed states costs less over its first `n` steps than the table entry of the state it is in at step `n - 1` |
| ArrayViterbi.FinalIsFirstMinimum | src/main/java/com/hankcs/hanlp/algoritm/Viterbi.java:82-91 | the final state has the smallest final score, and every state listed before it has a strictly larger one |
| ArrayViterbi.FinalIsLowerBound | src/main/java/com/hankcs/hanlp/algoritm/Viterbi.java:82-93 | no sequence of listed states over all observations costs less than the final scan's score |
| ArrayViterbi.DecodeOptimal | src/main/java/com/hankcs/hanlp/algoritm/Viterbi.java:28-94 | the returned path is a most likely sequence: no sequence of listed states over all observations has a smaller accumulated cost |
| ArrayViterbi.DecodeShape | src/main/java/com/hankcs/hanlp/algoritm/Viterbi.java:82-93 | the returned path has one entry per observation; with a listed state every entry is a listed state and the last is the state the final scan chose, with none every entry is 0 |
| ArrayViterbi.LastColumn | src/main/java/com/hankcs/hanlp/algoritm/Viterbi.java:82-91 | the last column of `V`, read in list order, is the final scores |
| ArrayViterbi.ReadRow | src/main/java/com/hankcs/hanlp/algoritm/Viterbi.java:93 | the row of `path` under the chosen state is the decoded sequence |
| Transform.CostRow | src/main/java/com/hankcs/hanlp/algoritm/Viterbi.java:115-119 | each cell of the fresh cost row (also lines 243-247) is `total` plus the transition from `pre` plus the candidate's emission |
| Transform.Choose | src/main/java/com/hankcs/hanlp/algoritm/Viterbi.java:115-130 | one greedy step returns the first cheapest candidate and its step cost, the new `total` |
| Transform.GreedyPrefix | src/main/java/com/hankcs/hanlp/algoritm/Viterbi.java:111-133 | walking further never changes an earlier pick |
| Transform.GreedyPick | src/main/java/com/hankcs/hanlp/algoritm/Viterbi.java:122-129 | the pick at every position is the first minimum of the cost row the walk sees there |
| Transform.GreedyPicksFirstMinimum | src/main/java/com/hankcs/hanlp/algoritm/Viterbi.java:122-129 | the pick at every position costs no more than any candidate there, and less than every candidate listed before it |
| Transform.GreedyTotal | src/main/java/com/hankcs/hanlp/algoritm/Viterbi.java:130 | the walk's `total` is the running sum of the transitions and emissions of the labels it picked |
| Transform.GreedyNotOptimal | src/main/java/com/hankcs/hanlp/algoritm/Viterbi.java:111-133 | a two-position chain on which the greedy walk pays 10 while another choice pays 1: the greedy decoders are not optimal |
| VertexChain.Vertex.ConfirmNature | src/main/java/com/hankcs/hanlp/algoritm/Viterbi.java:132 | confirming a nature records it on the vertex |
| VertexChain.ConfirmedAt | src/main/java/com/hankcs/hanlp/algoritm/Viterbi.java:130-132 | the nature confirmed on vertex `i + 1` is `pre` after the walk's step at that vertex |
| VertexChain.ConfirmedIsCandidate | src/main/java/com/hankcs/hanlp/algoritm/Viterbi.java:113-131 | each confirmed nature is one of its own vertex's natures, costs no more than any other after the nature confirmed before it, and less than every nature listed before it |
| VertexChain.ConfirmNext | src/main/java/com/hankcs/hanlp/algoritm/Viterbi.java:113-132 | one pass of the loop advances `total` and `pre` by one greedy step and confirms that nature on the vertex, changing nothing else |
| VertexChain.ConfirmAll | src/main/java/com/hankcs/hanlp/algoritm/Viterbi.java:106-133 | starting from `pre` = the start vertex's guessed nature and `total` = 0, every vertex after the start ends confirmed with the greedy walk's nature `Confirmed(m, vl)[i - 1]`, and the start vertex is unchanged |
| VertexChain.Compute | src/main/java/com/hankcs/hanlp/algoritm/Viterbi.java:102-134 | every vertex after the start ends confirmed with the greedy walk's nature, the start vertex is left as it was, and no other object changes |
| EnumViterbi.FrequencyOfKey | src/main/java/com/hankcs/hanlp/algoritm/Viterbi.java:246 | `getFrequency` (also at lines 170 and 194) answers the frequency the label map holds for a key, and 0 for a label it does not hold |
| EnumViterbi.Simply | src/main/java/com/hankcs/hanlp/algoritm/Viterbi.java:223-261 | `computeEnumSimply` reports one label per item |
| EnumViterbi.SimplyAt | src/main/java/com/hankcs/hanlp/algoritm/Viterbi.java:258-260 | the label reported for item `i + 1` is `pre` after the walk's step at that item |
| EnumViterbi.SimplyNext | src/main/java/com/hankcs/hanlp/algoritm/Viterbi.java:234-260 | one pass of the loop turns the greedy walk's `total` and `pre` after item `i` into the walk's `total` and `pre` after item `i + 1` |
| EnumViterbi.SimplyPicksFirstMinimum | src/main/java/com/hankcs/hanlp/algoritm/Viterbi.java:227-260 | the first label is the start item's first key, and each later label is a key of its own item that costs no more than any other key after the previous label, and less than every key before it |
| EnumViterbi.ComputeEnumSimply | src/main/java/com/hankcs/hanlp/algoritm/Viterbi.java:221-267 | the returned list is the greedy walk's labels, preceded by the start item's first key |
| EnumViterbi.Tags | src/main/java/com/hankcs/hanlp/algoritm/Viterbi.java:146-209 | `computeEnum` reports one label fewer than there are items |
| EnumViterbi.RelaxIsMin | src/main/java/com/hankcs/hanlp/algoritm/Viterbi.java:188-204 | `cost[i][k]` is the minimum over predecessors `j` of `cost[i-1][j]` plus the transition from `j`'s label plus `k`'s emission: no predecessor offers less, and one offers exactly that |
| EnumViterbi.PerfectIsFirstGlobalMin | src/main/java/com/hankcs/hanlp/algoritm/Viterbi.java:186-205 | `perfect_j` belongs to the cheapest transition over all pairs of cell and predecessor, and to the first such pair in loop order |
| EnumViterbi.RowIsLowerBound | src/main/java/com/hankcs/hanlp/algoritm/Viterbi.java:156-205 | no sequence of candidates ending with candidate `k` at a position costs less than cell `k` of that position's cost row |
| EnumViterbi.BestPath | src/main/java/com/hankcs/hanlp/algoritm/Viterbi.java:188-204 | following the cheapest predecessor of each cell back gives a sequence of candidates, one per position, ending with the chosen candidate |
| EnumViterbi.BestPathCost | src/main/java/com/hankcs/hanlp/algoritm/Viterbi.java:188-204 | cell `k` of each cost row is the cost of such a sequence, so each cell is the cheapest cost of reaching its candidate |
| EnumViterbi.TagsAt | src/main/java/com/hankcs/hanlp/algoritm/Viterbi.java:150-207 | the first label is the start item's first key, and the label appended at loop step `s + 1` is the key of item `s + 1` that `perfect_j` names |
| EnumViterbi.ScanStep | src/main/java/com/hankcs/hanlp/algoritm/Viterbi.java:195-203 | one inner step keeps the cell at the column's minimum so far and the running best at the scan's state; the nested test changes nothing because the best never exceeds the cell |
| EnumViterbi.RowStep | src/main/java/com/hankcs/hanlp/algoritm/Viterbi.java:188-205 | scanning one more cell's column advances the running best to the smallest cell so far with its first cheapest predecessor |
| EnumViterbi.ScanColumn | src/main/java/com/hankcs/hanlp/algoritm/Viterbi.java:190-204 | the inner scan returns the column's minimum as the cell, and the running best and `perfect_j` updated only on a cost below both |
| EnumViterbi.Relaxation | src/main/java/com/hankcs/hanlp/algoritm/Viterbi.java:186-205 | one step fills the next cost row with the relaxed minima and returns the `perfect_j` of the first global minimum |
| EnumViterbi.ChainOffered | src/main/java/com/hankcs/hanlp/algoritm/Viterbi.java:206 | requiring the items between the second and the second-to-last to be non-empty is enough for every `preEntryArray[perfect_j]` lookup |
| EnumViterbi.ComputeEnum | src/main/java/com/hankcs/hanlp/algoritm/Viterbi.java:144-211 | the returned list is the start item's first key, then per loop step the key of the previous item that `perfect_j` names |

## Left out

- Floating point: `Math.log`, the `1e-8` smoothing and `getTotalFrequency` are folded into the given function `Matrix.emission`, and costs are unbounded integers. The case where every cost is infinite or NaN, so that a scan never improves on `Double.MAX_VALUE`, is not modelled.
- The internals of TransformMatrixDictionary, EnumItem, Vertex and Nature are not part of this model. What stands for each:
  - Nature or role tag: its ordinal (`Transform.Label`).
  - TransformMatrixDictionary: `Transform.Matrix`, a square `seq<seq<int>>` of transition costs plus the given emission function.
  - EnumItem: the datatype `EnumViterbi.EnumItem`, whose label map is its entries in iteration order, with `getFrequency` as a first-match lookup.
  - Vertex: the class `VertexChain.Vertex`. Its nature and frequency arrays are constant fields, `guessNature()` is the given field `guess`, and `confirmNature` sets the field `confirmed`.
- VertexChain.Vertex.ConfirmNature: only sets the `confirmed` field. Whatever else `confirmNature` does to the vertex's attribute is not modelled. `VertexChain.Compute` therefore requires the vertices to be distinct objects.
- VertexChain.Compute: states the final state of every vertex, not that `confirmNature` is called exactly once per vertex.
- The full `cost[][]` tables of the three `TransformMatrixDictionary` decoders are not kept. Each method keeps only the row it is building, or also the row before it in `computeEnum`, which is all the code ever reads.
- ArrayViterbi.Advance: writes `V[t][y]` and `newpath[y]` once after each scan, not at every improvement. The stored values are the same, since the last write is at the last improvement.
- EnumViterbi.Relaxation: writes each cell `cost[i][k]` once after its column is scanned, not at every improvement. The stored cell is the same.
- ArrayViterbi.Compute: keeps `V` as an array of rows and `path` as an array of rows held as sequence values. The fresh zero rows and `System.arraycopy` are whole-row sequence operations.
- LinkedList, Iterator, entry-set copying and `HashMap` mechanics are left out. Lists are sequences, and `entryArray` is the item's entries in iteration order.
- The commented-out debug output at the end of `computeEnumSimply` is left out.
- The code performs no validation. What it needs to avoid an exception is stated as preconditions, no more: at least one observation once a state is listed, table entries in range for what is actually read, at least one vertex or item (two for `computeEnum`), and non-empty candidate sets where the code reads `nature[perfect_j]`, `entryArray[perfect_j]` or `preEntryArray[perfect_j]`. The one assumption beyond that is a square transition matrix (`Transform.Square`), the shape a TransformMatrixDictionary has, with one row and one column per ordinal. In particular, `ArrayViterbi.Valid` admits an empty list of states, for which `compute` returns the zero row `path[0]`, and with it an empty `obs`, for which that row is empty. It asks for transition rows only when there is a second observation. `EnumViterbi.Readable` and `VertexChain.Compute` ask for the start label to be in the matrix only when there is a second item or vertex.
