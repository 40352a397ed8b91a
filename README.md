# HouseRobber2D in Dafny

A model of the core of HouseRobber2D, a Go package that solves the 2D house
robber problem. The input is a grid of R rows and C columns of house values.
The goal is the most loot from houses no two of which are neighbours in a row
or in a column. The package has two solvers, and both are modelled.

- **Dynamic programming** (`SolveDP`, `SolveDP2`). `generate_alignments`
  enumerates the row patterns with no two adjacent ones. It does this with a
  little-endian binary counter, run for C * C steps.
  `generate_alignment_pairs` lists, for each pattern, the patterns that may
  stand directly below it: those whose dot product with it is 0. Then each row
  is relaxed over those pairs. `SolveDP2` also records each row's
  predecessors and walks them backwards to report one pattern per row.
- **Greedy "flow" sweep** (`SolveFlow`, `update_path`). It visits every cell
  with i + j even, row by row. Each such cell pushes the smaller of its value
  and a neighbour's value to each in-bounds neighbour, in the order up, left,
  right, down. Both cells lose that amount. The answer is the grid total minus
  everything pushed.

The project has four modules:

- `Align` (align.dfy): `hr2d/align.go`.
- `RowDP` (dp.dfy): `SolveDP` and `SolveDP2` of `hr2d/hr2d.go`.
- `Flow` (flow.dfy): `SolveFlow` and `update_path` of `hr2d/hr2d.go`.
- `Scenarios` (scenarios.dfy): the tables of `hr2d/hr2d_test.go`, worked
  through the model, plus two tables that expose the behaviour below.

Each loop of the Go code is a Dafny `method` with loop invariants. Each method
is proved against a specification function.

- The recurrences `Relax`, `Pred`, `Step`, `Best` and `Traceback` try
  predecessors in the code's own order. A score is replaced only on a strict
  improvement, and every running score starts from 0.
- The flow sweep is specified as a list of edges (`Sweep`). `After` folds that
  list over the table and `TotalPushed` sums what it pushes.
- The flow table is an `array2` that `UpdatePath` changes in place. The DP
  tables never change, so they are sequences.

The proofs establish these results about the code as written:

- **DP optimality.** On a non-negative table the DP answer is the best score
  over all stackings of the generated patterns. No stacking scores more
  (`DPUpperBound`). `SolveDP2`'s traceback is a stacking that reaches the
  answer (`DPAttained`).
- **The C * C bound.** The counter runs C * C times, not 2^C as the code's
  comment says. For C from 2 to 4 every valid pattern is still generated.
  With one column the pattern `[1]` is missing. With three columns the
  all-zero pattern appears twice. With six columns the valid pattern
  `[1, 0, 1, 0, 0, 1]` is missing.
- **The flow sweep is not a maximum flow.** On a non-negative table it
  conserves the total: the final sum is total − 2·pushed, and its answer lies
  between 0 and the total (`AfterConserves`, `FlowBounds`). On
  `[[0, 1, 1, 1], [0, 1, 0, 0]]` it answers 3, but no choice of non-adjacent
  houses is worth more than 2, and the dynamic programs answer exactly 2
  (`UnevenDP`, `FlowDisagreesWithDP`). So the header comment's claim that the flow method
  computes the maximum value does not hold for this code. No corrected flow
  algorithm is modelled, so this case is not in the Findings table.

## Model

| member | source | states |
|---|---|---|
| Align.Valid | hr2d/align.go:7-16 | the scan returns true exactly when no two neighbouring flags are both 1 |
| Align.Dot | hr2d/align.go:19-25 | the loop's total is the dot product of the pattern with the first len(pattern) values of the vector |
| Align.DotProductSymmetric | hr2d/align.go:19-25 | the dot product of two equal-length patterns does not depend on their order |
| Align.DotProductNonNegative | hr2d/align.go:19-25 | a 0/1 pattern dotted with non-negative values is non-negative |
| Align.ZeroDotMeansDisjoint | hr2d/align.go:52-59 | two 0/1 patterns have dot product 0 exactly when no column is 1 in both |
| Align.AddOneAndCarry | hr2d/align.go:39-45 | the flip-until-a-1 loop turns the array into Increment of its old contents |
| Align.IncrementValue | hr2d/align.go:39-45 | add-one-and-carry on a 0/1 counter keeps it 0/1 and adds 1 to its little-endian value, modulo 2^C |
| Align.IncrementAdvancesCounter | hr2d/align.go:34-46 | one add-one step takes the counter state after n steps to the state after n + 1 steps |
| Align.CounterMod | hr2d/align.go:34-46 | after n add-one steps from all zeros the counter's little-endian value is n mod 2^C, so it wraps around once n reaches 2^C |
| Align.CounterValue | hr2d/align.go:34-46 | the counter state n (with n < 2^C) has little-endian value n |
| Align.CounterOfValue | hr2d/align.go:34-46 | every 0/1 pattern of length C is the counter state of its own value |
| Align.GenerateAlignments | hr2d/align.go:31-48 | the output is the list of valid counter states among the first C * C, in order; each has C 0/1 flags with no adjacent ones, and the first is all zeros when C >= 1 |
| Align.EmittedMembers | hr2d/align.go:35-38 | a pattern is emitted exactly when it is valid and equals one of the counter states visited |
| Align.EmittedComplete | hr2d/align.go:29-35 | with at least 2^C steps every valid C-flag pattern is emitted |
| Align.SquareBoundCompleteFrom2To4 | hr2d/align.go:33 | for 2 <= C <= 4 the C * C bound still emits every valid pattern |
| Align.OneColumnOmitsSelection | hr2d/align.go:33-35 | for C = 1 the output is [[0]]: the valid pattern [1] is missing |
| Align.ThreeColumnsRepeatZeros | hr2d/align.go:33-46 | for C = 3 the 9 steps wrap the counter, and [0, 0, 0] is emitted twice |
| Align.SixColumnsOmitPattern | hr2d/align.go:33 | for C = 6 the valid pattern [1, 0, 1, 0, 0, 1] (value 37 >= 36) is never emitted |
| Align.CompatiblesMembers | hr2d/align.go:54-59 | pattern i's compatible list holds exactly the indices j whose pattern has dot product 0 with it, in increasing order |
| Align.GenerateAlignmentPairs | hr2d/align.go:52-62 | pairs[i] lists, in increasing order, exactly the indices j with Dot(alignments[i], alignments[j]) == 0 |
| Align.CompatibilitySymmetric | hr2d/align.go:56 | j may stack under i exactly when i may stack under j |
| Align.ZeroPatternStacksWithAll | hr2d/align.go:56 | the all-zero pattern is compatible with every pattern |
| RowDP.Patterns | hr2d/align.go:31-48 | the generated list: all patterns have C flags, each is 0/1 with no adjacent ones, and for C >= 1 the first is all zeros |
| RowDP.RelaxIsMax | hr2d/hr2d.go:79-87 | the relaxed score of b is at least 0 and at least every compatible predecessor's score plus b's row score; the recorded predecessor is the first one that reaches it, or 0 when the score stayed 0 |
| RowDP.MaxOfIsMax | hr2d/hr2d.go:95-100 | the final scan returns a value >= 0 and >= every entry; the index it keeps is the first entry equal to it (or 0 when the maximum is 0) |
| RowDP.BestNonNegative | hr2d/hr2d.go:64-92 | on a non-negative table, with 0/1 patterns, every DP score is non-negative |
| RowDP.DPUpperBound | hr2d/hr2d.go:20-29 | no stacking of the patterns over all rows scores more than the DP answer |
| RowDP.DPAttained | hr2d/hr2d.go:157-176 | on a non-negative table (pattern 0 all zeros), the traceback is a stacking whose score equals the DP answer |
| RowDP.WalkAttains | hr2d/hr2d.go:168-174 | on a non-negative table (pattern 0 all zeros), walking the predecessors back from pattern b at row i gives a stacking scoring Best(i)[b] |
| RowDP.BestByPred | hr2d/hr2d.go:141-148 | on a non-negative table (pattern 0 all zeros), each DP score equals its recorded predecessor's previous score plus the row score |
| RowDP.StackingIsIndependent | hr2d/hr2d.go:5-11 | a stacking of valid patterns never robs two neighbours, in a row or in a column |
| RowDP.ScoreRow | hr2d/hr2d.go:64-66 | the array becomes each pattern's dot product with the given row; called on dp with table[0], this is the starting row of scores (SolveDP2 does the same at lines 123-125) |
| RowDP.RelaxFrom | hr2d/hr2d.go:81-86 | relaxing from predecessor a updates exactly the scores listed in pairs[a], to the next recurrence step; every other score is unchanged |
| RowDP.RelaxRows | hr2d/hr2d.go:80-87 | after all predecessors each dc[b] is the relaxed score of b |
| RowDP.ProcessRow | hr2d/hr2d.go:73-92 | one outer iteration turns dp into Step(dp, row) |
| RowDP.ForwardPass | hr2d/hr2d.go:61-100 | the answer is the final scan of Best at the last row, and is >= 0 |
| RowDP.MaxEntry | hr2d/hr2d.go:95-100 | the scan returns the max of dp and 0: it bounds every entry and is 0 or an entry |
| RowDP.SolveDP | hr2d/hr2d.go:50-103 | SolveDP returns MaxOf(Best(Patterns(C), table, R - 1)), which is >= 0 |
| RowDP.RelaxFromTracked | hr2d/hr2d.go:142-148 | like RelaxFrom, and the predecessor p[i][b] moves to a exactly when the score strictly improves |
| RowDP.RelaxRowsTracked | hr2d/hr2d.go:141-149 | after all predecessors, dc[b] and p[i][b] are the relaxed score and its predecessor |
| RowDP.ProcessRowTracked | hr2d/hr2d.go:132-154 | one outer iteration turns dp into Step(dp, row) and fills p[i] with Preds(dp, row) |
| RowDP.ForwardPassTracked | hr2d/hr2d.go:121-155 | dp ends as Best at the last row, and every p[i] holds the recurrence's predecessors |
| RowDP.BestEntry | hr2d/hr2d.go:159-166 | the scan returns the max c and the first index a that attains it (0 if none beats 0) |
| RowDP.WalkBack | hr2d/hr2d.go:168-174 | the backward walk selects alignments[a] along the predecessor path |
| RowDP.WalkFrom | hr2d/hr2d.go:157-175 | final is the specified walk from a at the last row |
| RowDP.TracebackPass | hr2d/hr2d.go:121-176 | c is the DP answer and final is Traceback(table) |
| RowDP.SolveDP2 | hr2d/hr2d.go:106-177 | c equals SolveDP's answer and err is nil; on a non-negative table final is a stacking of generated patterns whose score is c |
| RowDP.CorrectedPatterns | hr2d/align.go:29-33 | the list built with 2^C counter steps: C-flag valid patterns, all zeros first |
| RowDP.CorrectedDPOptimal | hr2d/hr2d.go:11-29 | with the corrected list, no selection without robbed neighbours scores more than the DP answer, and on a non-negative table the traceback reaches it |
| Flow.Blocking | hr2d/hr2d.go:226-230 | the blocking flow is the smaller of the two values |
| Flow.UpdatePath | hr2d/hr2d.go:221-239 | returns min(u, v); when it is positive both cells lose it and nothing else changes, otherwise the table is unchanged |
| Flow.PushCells | hr2d/hr2d.go:232-236 | after one push exactly the two end cells have dropped by f (when f > 0), every other cell is unchanged |
| Flow.PushNonNegative | hr2d/hr2d.go:223-236 | on a non-negative table a push is >= 0, keeps every cell >= 0, and empties one of its two cells |
| Flow.PushSum | hr2d/hr2d.go:232-236 | a push lowers the grid total by twice what it pushes when that is positive, and leaves it unchanged otherwise |
| Flow.AfterConserves | hr2d/hr2d.go:198-213 | on a non-negative table any run of pushes between distinct cells keeps cells >= 0 and lowers the total by twice the flow |
| Flow.SweepShape | hr2d/hr2d.go:198-212 | every push of the sweep goes from an in-bounds cell with i + j even to an in-bounds neighbour |
| Flow.SweepComplete | hr2d/hr2d.go:198-212 | every such push is in the sweep |
| Flow.SumTable | hr2d/hr2d.go:185-191 | the double loop returns the grid total |
| Flow.PushIf | hr2d/hr2d.go:200-211 | one guarded update_path call extends the run of pushes by that edge when the guard holds |
| Flow.PushFromCell | hr2d/hr2d.go:200-211 | the four guarded calls for cell (i, j) apply its pushes up, left, right, down in that order |
| Flow.SweepRow | hr2d/hr2d.go:199-212 | the inner loop applies row i's pushes, from column i % 2 in steps of 2 |
| Flow.SolveFlow | hr2d/hr2d.go:180-218 | the table ends as the sweep applied to it, and the answer is the old total minus the sweep's flow |
| Flow.FlowBounds | hr2d/hr2d.go:198-217 | on a non-negative table the final cells stay >= 0, the final total is total − 2·flow, and 0 <= answer <= total |
| Scenarios.TwoColumnPatterns | hr2d/align.go:31-48 | generate_alignments(2) is [[0, 0], [1, 0], [0, 1]] |
| Scenarios.ThreeColumnPatterns | hr2d/align.go:31-48 | generate_alignments(3) is [0,0,0], [1,0,0], [0,1,0], [0,0,1], [1,0,1], [0,0,0] |
| Scenarios.TwoByTwoDP | hr2d/hr2d_test.go:30-42 | on [[5, 0], [10, 4]] the DP scores are [5, 10, 9] and the answer is 10 |
| Scenarios.TwoByTwoTraceback | hr2d/hr2d_test.go:10-28 | SolveDP2 reports [[0, 0], [1, 0]] for that table |
| Scenarios.TwoByTwoFlow | hr2d/hr2d_test.go:45-57 | the sweep pushes 9 out of 19, leaving [[0, 0], [1, 0]]; SolveFlow answers 10 |
| Scenarios.ThreeByThreeBest | hr2d/hr2d_test.go:80-93 | on the 3 x 3 table the DP scores after the last row are [60, 60, 80, 60, 70, 60] |
| Scenarios.ThreeByThreeDP | hr2d/hr2d_test.go:59-93 | the 3 x 3 table's DP answer is 80 |
| Scenarios.ThreeByThreeFlow | hr2d/hr2d_test.go:96-109 | the sweep pushes 70 out of 150; SolveFlow answers 80 |
| Scenarios.UnevenFlow | hr2d/hr2d.go:180-218 | on [[0, 1, 1, 1], [0, 1, 0, 0]] the sweep pushes 1 out of 4, so SolveFlow answers 3 |
| Scenarios.UnevenSelectionsScoreAtMostTwo | hr2d/hr2d.go:5-11 | on that table two stacked valid rows score at most 2 |
| Scenarios.UnevenDP | hr2d/hr2d.go:50-103 | on that table the DP answer is exactly 2: at most 2 by the traceback, at least 2 by the stacking [[0, 1, 0, 1], [0, 0, 0, 0]] |
| Scenarios.FlowDisagreesWithDP | hr2d/hr2d.go:31-43 | on that table SolveFlow answers 3 while both dynamic programs answer 2 |
| Scenarios.NegativeTableBreaksFlowBounds | hr2d/hr2d.go:180-218 | on [[-1, 2]] the sweep is the single edge (0,0)→(0,1), the table is left unchanged, and SolveFlow answers 2 while the total is 1 |
| Scenarios.OneByOneMissesHouse | hr2d/align.go:33 | on [[5]] the DP answer is 0, though the valid choice [[1]] scores 5; SolveFlow answers 5 |
| Scenarios.OneByOneCorrected | hr2d/align.go:29-33 | with the corrected list the DP answer on [[5]] is 5 |

## Left out

- Benchmarks and logging: `createBenchmarkTable`, the `Benchmark*` functions
  and `t.Logf` in `hr2d/hr2d_test.go`. They use randomness and I/O and decide
  nothing about the solvers.
- Go's `int` is 64 bits wide. The model uses unbounded integers, so sums and
  dot products never wrap.
- Go slices `[][]int` are modelled as rectangular. The DP reads
  `seq<seq<int>>` values with rows of exactly C entries. The flow solver uses
  an `array2<int>`, so rows that alias each other or differ in length are not
  modelled.
- `SolveDP` and `SolveDP2` read `table[0]` once per pattern, so Go panics
  when R = 0 and C >= 1. With R = 0 and C = 0 no pattern is generated,
  `table[0]` is never read, and SolveDP returns 0. Both methods require
  R >= 1, so that case is not modelled.
- Flow.AfterConserves, Flow.FlowBounds: proved only for non-negative tables,
  as are the DP results that need it (`DPAttained`, `BestNonNegative`).
  SolveFlow accepts any table, and with negative entries the bounds fail:
  on [[-1, 2]] the one update_path call returns -1 and changes nothing, and
  the answer is 2, above the total 1 (`NegativeTableBreaksFlowBounds`).
- SolveDP2: requires C >= 1. With no patterns the Go code indexes
  `alignments[a]` out of range and panics.
- SolveDP2 always returns a nil error. The model returns `None`.
- SolveDP2: row 0 of the predecessor table, left nil and never read in Go,
  is the empty sequence.
- Dot: requires the vector to be at least as long as the pattern. Go panics
  on a shorter vector.
- Flow.Push: also total on edges that leave the grid, where Go would panic.
  `SweepShape` and `SweepOnGrid` prove the sweep never makes such a push.
- The flow sweep is not compared with a true maximum flow or minimum cut.
  The only relation proved to the dynamic programme is the disagreement
  above.
- The nested loops of SolveDP, SolveDP2 and SolveFlow are split into one
  method per loop level: `ForwardPass`/`ForwardPassTracked` (rows),
  `ProcessRow`/`ProcessRowTracked` (one row), `RelaxRows`/`RelaxRowsTracked`
  (predecessors a), `RelaxFrom`/`RelaxFromTracked` (the b in pairs[a]),
  `SolveFlow` (rows) and `SweepRow` (cells of one row). The four
  update_path calls of one cell are `PushFromCell`, each guarded call is
  `PushIf`; neither has a loop. This keeps the proofs small. Each method
  performs the same updates, in the same order, as the Go code it replaces.
  The nested loops of `GenerateAlignmentPairs` and `SumTable` stay in one
  method each.

## Findings

| source | as written | input that shows it | evidently intended | confidence | as-written member | corrected member |
|---|---|---|---|---|---|---|
| hr2d/align.go:32-35 | `N := C * C` steps of the counter, while the comment says a C-bit number has 2^C combinations | the 1 x 1 table [[5]]: only [0] is generated, so SolveDP and SolveDP2 answer 0 instead of 5 | N = 2^C, so every valid pattern is generated and the DP is optimal over all allowed choices | high, proved on the model, not executed | Scenarios.OneByOneMissesHouse | RowDP.CorrectedDPOptimal |

The solver methods keep the code's C * C bound, because they model the code
as written. `RowDP.CorrectedPatterns` is the list the code was evidently
meant to build. `RowDP.CorrectedDPOptimal` states what the same dynamic
programme guarantees over that list, and `Scenarios.OneByOneCorrected`
checks it on the table above.
