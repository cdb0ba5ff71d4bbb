# AppleGame solver core in Dafny

AppleGame is a "sum-to-ten" puzzle: a rectangular board of digits, where a
move selects a rectangle whose digits add up to exactly 10 and clears it (every
cell inside becomes 0). The score is the number of non-zero cells cleared. The
Python program reads the board from the screen, searches for a good move
sequence with one of five budget-bounded solvers, and drags the mouse over
each chosen rectangle.

This project models the part of that program that computes things:

- **Board** (`board.dfy`): the board as `seq<seq<int>>` with a rectangularity
  predicate; rectangle sums as nested row sums and as 2-D prefix sums
  (inclusion–exclusion is proved); the move application that every solver
  repeats inline, as one function `Apply(grid, move) == (grid', cleared)`, and
  the copy-and-zero loop proved equal to it; replaying a move sequence; legality
  (every move sums to 10 on the board it is applied to).
- **Move generator** (`movegen.dfy`): `find_all_sum_10_areas`, which fills the
  prefix tables `ps`/`pc` (as `array2`), enumerates all rectangles and sorts
  them stably by `(priority, -area)`. It is proved to return every sum-10
  rectangle exactly once, with its true priority, in that order.
- **Adjacency filter** (`adjacency.dfy`): `contain_or_adjacent_to_zero` and the
  `possible_actions` filter with its fallback to the full list.
- **Solvers**:
  - `search_core.dfy` holds the stack entry `(grid, move_sequence, score)`,
    reachability from the initial board, and the child an entry gets from a
    candidate.
  - `exhaustive.dfy` models `exhaustive_solver`. It is a depth-first search
    with a call budget and a memo of boards. When the budget is not exhausted,
    its answer is proved to be the maximum over all legal move sequences.
  - `iterative.dfy` models `iterative_solver` and `n_iterative_solver`.
  - `r_iteration.dfy` models `r_iteration_solver`. When it stops because the
    stack drains, its answer is proved optimal.
  - `h_iteration.dfy` models `h_iteration_solver`:
    - its termination is proved with a decreasing potential over the stack;
    - its answer is proved never worse than the unique greedy descent.
- **Screen coordinates** (`cluster.dfy`, `drag.dfy`):
  - `cluster_positions`/`get_cluster_positions`, which group pixel
    coordinates into columns or rows;
  - `index_to_screen`;
  - the move filter and drag-point arithmetic of `solve`.

Every solver is proved to return a move sequence that is legal from the
initial board and whose replay scores exactly the returned score. That score
lies between the number of moves and the number of non-zero cells of the
initial board. Along every path, score plus remaining non-zero cells equals the
initial non-zero count.

Random draws (`random.randint`, `shuffle`) are modelled as nondeterministic
choices (`:|`) within their stated ranges. Every property holds whichever
values are drawn. Functions reached from `core.py` that are textual copies of
`util.py` functions (`index_to_screen`, `contain_or_adjacent_to_zero`) are
modelled once; the table cites the `util.py` lines.

## Model

| member | source | states |
|---|---|---|
| Board.PriorityMask | search.py:24 | the 0/1 indicator board: 1 exactly where the value is 0 or 1, same shape |
| Board.NonzeroMask | search.py:77-78 | the indicator of non-zero cells, same shape, whose block sums count the cells a move clears |
| Board.InclusionExclusion | search.py:34 | a rectangle sum equals the four-corner combination of 2-D prefix sums |
| Board.PrefixStep | search.py:25 | the prefix-sum recurrence used to fill `ps` and `pc` |
| Board.Apply | search.py:131-141 | the cleared board has the same shape and the count returned is the number of non-zero cells of the rectangle |
| Board.ApplyCount | search.py:131-141 | the count returned plus the non-zero cells left equals the board's non-zero count before the move |
| Board.ApplyCells | search.py:135-139 | after a move every cell inside the rectangle is 0 and every cell outside is unchanged |
| Board.ApplyClearsAtLeastOne | search.py:346-348 | a rectangle summing to 10 clears at least one cell, so the `add == 0` skip never fires for a candidate and the non-zero count strictly drops |
| Board.ApplyTwice | search.py:131-139 | applying the same move again changes nothing and clears nothing |
| Board.ClearRect | search.py:131-139 | the copy-and-zero loop with its counter returns exactly `Apply(g, m)`, without touching the parent board |
| Board.Replay | search.py:140-141 | replaying moves keeps the board's shape |
| Board.ReplayCount | search.py:140-141 | along a replay, the score plus the non-zero cells left equals the initial non-zero count |
| Board.ReplayAppend | search.py:140-141 | replaying one more move applies it to the replayed board and adds its count to the score |
| Board.LegalAppend | search.py:140-142 | a legal sequence followed by a sum-10 move on its resulting board is legal |
| Board.LegalFits | search.py:29-32 | every move of a legal sequence lies inside the board |
| Board.LegalScoresAtLeastLength | search.py:140-142 | a legal sequence scores at least one point per move |
| Board.AchievesBounds | search.py:80-82 | a recorded result scores between its number of moves and the initial non-zero count |
| MoveGen.PrefixTables | search.py:17-26 | the filled tables hold the prefix sums of the values and of the 0/1 indicator |
| MoveGen.RectQuery | search.py:34-36 | the four-corner lookups give the rectangle's exact sum and exact count of 0/1 cells |
| MoveGen.FindAllSum10Areas | search.py:4-41 | a candidate is in the output if and only if its rectangle is on the board, sums to 10 and carries its 0/1 count as priority; the output is strictly ordered by priority ascending, then area descending, then enumeration order (so it has no duplicates) |
| MoveGen.StableSort | search.py:40 | the sort returns a permutation of its input |
| MoveGen.StableSortRanked | search.py:40 | sorting the enumeration-ordered list by the key gives a strictly ranked list |
| MoveGen.InsertStableRanked | search.py:40 | inserting an element enumerated after all others keeps the list strictly ranked |
| MoveGen.RankedTransitive | search.py:40 | the output order is transitive |
| MoveGen.RankedUnique | search.py:40 | two strictly ranked lists holding the same candidates are equal, so the sorted output is determined by its set of candidates |
| MoveGen.RankedSortedByPriority | search.py:40 | a strictly ranked list is sorted by priority and has no repeated element |
| MoveGen.SortByPriority | search.py:69 | the stable sort by priority returns a permutation of its input |
| MoveGen.SortByPrioritySorted | search.py:69 | the result is sorted by priority |
| MoveGen.SortByPriorityIdentity | search.py:129 | sorting an already priority-sorted list by priority changes nothing |
| MoveGen.NoMoveOnEmptyBoard | search.py:4-41 | an all-zero board has no candidate |
| MoveGen.NoMoveWithoutCells | search.py:12-14 | a board without rows or columns has no candidate |
| Adjacency.ContainOrAdjacentToZero | util.py:32-51 | true exactly when a 0 lies inside the rectangle, left or right of one of its rows, or above or below one of its columns; every read stays on the board; core.py:125-144 is an identical copy |
| Adjacency.ContainsZeroIsNear | util.py:37-40 | a 0 inside the rectangle makes the test true |
| Adjacency.DiagonalNotExamined | util.py:41-50 | a 0 diagonally next to a corner is not examined: a one-cell rectangle whose only 0 is diagonal fails the test |
| Adjacency.OverlapWithClearedIsNear | util.py:37-40 | a rectangle overlapping one just cleared passes the test on the new board |
| Adjacency.NearEmptyOnly | search.py:125-126 | the comprehension keeps exactly the candidates that pass the test |
| Adjacency.NearEmptyOnlyRanked | search.py:125-126 | filtering keeps the output order |
| Adjacency.Preferred | search.py:125-128 | the filtered list, or the full list when nothing passes: empty only for an empty input, and a candidate is kept if and only if it passes or none passes |
| Adjacency.PreferredRanked | search.py:125-128 | the preferred list keeps the output order |
| Adjacency.PossibleActions | search.py:125-128 | the loop builds exactly the preferred list |
| Adjacency.PreferredSorted | search.py:125-129 | sorting the preferred list by priority leaves it unchanged |
| Adjacency.TopPreferred | search.py:125-130 | the first k of the sorted preferred list are each preferred, rank before every preferred candidate left out, include all preferred candidates when fewer than k are taken, and are empty (for k > 0) exactly when the board has no move |
| SearchCore.ListingUnique | search.py:4-41 | a board has exactly one listing of its candidates in output order, so the listing named in a pass's step is the generator's output |
| SearchCore.ReachedFacts | search.py:140-142 | a reachable entry has the board's shape, conserves score plus non-zero cells, and records an achievable score |
| SearchCore.ChildReached | search.py:130-142 | the child for a candidate is reachable, with strictly fewer non-zero cells and a strictly higher score |
| SearchCore.Expand | search.py:130-142 | the push loop yields the children of the first `width` candidates, in order |
| SearchCore.ChildrenReached | search.py:130-142 | all those children are reachable |
| SearchCore.PushReached | search.py:142 | pushing reachable entries keeps the whole stack reachable |
| SearchCore.PrefixReached | search.py:121-122 | popping entries keeps the remaining stack reachable |
| SearchCore.StartReached | search.py:91 | the initial entry is reachable |
| Exhaustive.ClosedFromChildren | search.py:330-351 | a board is fully explored once each board one candidate away is |
| Exhaustive.MemoSoundAfterNode | search.py:319-322 | remembering a fully explored board keeps every remembered board fully explored |
| Exhaustive.MemoSoundAfterChild | search.py:349 | a recursive call that stays within budget keeps the memo sound |
| Exhaustive.Dfs | search.py:312-332 | each call counts itself; past the budget it changes nothing else; it never changes a memo entry; within budget its board is fully explored afterwards, with the memo still sound |
| Exhaustive.Explore | search.py:335-351 | within budget, every board one candidate away is fully explored afterwards |
| Exhaustive.Visit | search.py:336-349 | one candidate is skipped when it clears nothing, or its board is fully explored within budget |
| Exhaustive.AllExplored | search.py:335-351 | having explored every listed candidate covers every candidate of the board |
| Exhaustive.ExhaustiveSolver | search.py:286-356 | `(0, [])` on a board without rows or columns; always an achievable result within the non-zero count; and when the budget was not exceeded no legal move sequence scores more |
| Iterative.PopAfterBest | search.py:121-122 | removes exactly max(0, min(r, len) − 1) entries from the top, keeping at least one of a non-empty stack; for r ≥ 1 the result is `Truncate(stack, r)` |
| Iterative.ExpandPreferred | search.py:125-142 | pushes the children of the first min(width, P) (P the length of the preferred list) entries of the preferred list, each a preferred candidate, all reachable |
| Iterative.PopOrStart | search.py:94-96 | returns the top entry and the stack without it, the initial entry when the stack was empty; both reachable |
| Iterative.Restart | search.py:99-117 | raises exactly when the initial board has no candidate; otherwise the stack becomes the single child of the initial board for a candidate |
| Iterative.IterativePass | search.py:94-143 | states the new stack and best for each branch: a dead end scoring below 100 leaves the best alone and raises exactly when the initial board has no move, otherwise the stack becomes the single child of the initial board for some candidate; another dead end that beats the best records it and truncates the rest by some r in 1..125; otherwise the best is unchanged and the stack is the rest plus the children of the first min(8, P) preferred candidates of the full candidate listing, in order; the stack stays reachable, the best achievable, 0 or at least 100, never lower |
| Iterative.IterativeSolver | search.py:87-144 | raises exactly when passes are allowed and the initial board has no candidate; otherwise an achievable score within the non-zero count that is 0 or at least 100; `(0, [])` when no pass is allowed |
| Iterative.Truncate | search.py:62 | keeps a bottom part of the stack, dropping max(0, min(r, len) − 1) entries for r ≥ 1, so a non-empty stack keeps at least one |
| Iterative.FirstPassSkipped | search.py:49-57 | the counter starts at 0, so the first pass is always skipped |
| Iterative.NIterativePass | search.py:51-83 | states the new stack and best for each branch: a skipped pass drops the popped entry and changes nothing else; a dead end that beats the best records it and truncates the rest by some r in 1..3125; otherwise the stack is the rest plus the children of the first min(5, P) preferred candidates, in order; the drawn digit is 0..9; the counter advances by a quarter exactly on a skip, otherwise by one; the stack stays reachable, the best achievable and never lower |
| Iterative.NIterativeSolver | search.py:44-84 | an achievable score within the non-zero count, after at most 4·guess_limit passes; `(0, [])` when guess_limit ≤ 0 |
| Iterative.Skipped | search.py:55 | the quarter-grid test `(d * quarters) % 40 <= 8` holds exactly when `d * (quarters / 4) mod 10 <= 2` on real numbers, with the floor-based modulo of Python floats |
| Iterative.QuarterMod | search.py:55 | the real modulo of `d * (q / 4)` by 10 is a quarter of `(d * q) % 40` |
| RIteration.LeadsFirstMove | search.py:162-174 | a board reachable from another by legal moves is reached through some first candidate |
| RIteration.LeadsFromDeadEnd | search.py:156 | nothing but itself is reachable from a board without candidates |
| RIteration.LeadsExtend | search.py:162-174 | applying a candidate to a reachable board gives a reachable board |
| RIteration.DeadEndBelow | search.py:153-175 | every reachable board leads on to a reachable dead end |
| RIteration.CoveredAtStart | search.py:151 | the initial stack covers every reachable dead end |
| RIteration.CoveredAfterDeadEnd | search.py:156-161 | popping a dead end and recording its score keeps every reachable dead end covered |
| RIteration.CoveredAfterExpand | search.py:162-174 | replacing an entry by all its children keeps every reachable dead end covered |
| RIteration.CoveredDrained | search.py:153 | once the stack is empty, no legal sequence scores more than the best |
| RIteration.RIterationSolver | search.py:147-176 | an achievable score within the non-zero count after at most max_iteration pops; `(0, [])` when none is allowed; optimal when the stack drained before the budget |
| RIteration.RPass | search.py:154-175 | states the new stack and best: a dead end is popped and recorded when it beats the best; otherwise the best is unchanged and the stack is the rest plus the children of every candidate of the full listing, in order; the stack stays reachable, the best achievable and never lower, and every reachable dead end covered |
| RIteration.ExpandAll | search.py:162-174 | pushes the children of every candidate, in order, keeping coverage |
| HIteration.GreedyCons | search.py:255-277 | a top choice followed by a greedy descent is a greedy descent |
| HIteration.GreedyLegal | search.py:215-280 | a greedy descent is a legal move sequence |
| HIteration.GreedyUnique | search.py:255-260 | the greedy descent from a board is unique |
| HIteration.Shuffle | search.py:234-235 | the shuffle returns a permutation |
| HIteration.Branch | search.py:232-253 | pushes the children of the first min(branches, P) (P the number of preferred candidates) shuffled preferred candidates, all reachable, each weighing less than the entry |
| HIteration.MaybeBranch | search.py:229-253 | pushes nothing unless steps is a positive multiple of n_iteration; then pushes min(branches, P) (P the number of preferred candidates) children of preferred candidates, all reachable, each weighing less than the entry |
| HIteration.DescendStep | search.py:216-280 | takes the top choice; branches only when steps is a positive multiple of n_iteration, then pushing min(branches, P) children of preferred candidates; the weight pushed plus the next board's weight is at most the entry's weight |
| HIteration.PopPush | search.py:207-252 | replacing the popped entry by entries that together weigh less than it strictly lowers the stack's weight |
| HIteration.TopChoiceFirst | search.py:255-260 | the first of the priority-sorted preferred list is the top choice |
| HIteration.Advance | search.py:263-277 | the step to the chosen child is reachable and strictly lowers the non-zero count |
| HIteration.Descend | search.py:215-280 | a descent ends at a reachable dead end along the greedy path, pushing strictly less weight than the entry it started from |
| HIteration.HIterationSolver | search.py:179-283 | terminates after at most (max(branches, 1) + 1)^N passes, N the initial non-zero count (the stack's weight strictly drops every pass), and answers an achievable score within the non-zero count that is never below the greedy descent's score |
| Cluster.SortedSet | util.py:10 | strictly increasing and holding exactly the input's values |
| Cluster.Group | util.py:11-19 | the clusters laid end to end are the sorted positions; each is non-empty with neighbours at most `threshold` apart, and consecutive clusters are more than `threshold` apart |
| Cluster.IndexClusters | util.py:21-24 | every clustered value is a key, mapped to the index of a cluster holding it |
| Cluster.BuildClusters | util.py:10-25 | the result is a clustering of the input: grouped as above, each representative the truncated mean of its cluster, every input position mapped to the index of its cluster and nothing else mapped |
| Cluster.ClusterPositions | util.py:4-25 | raises exactly on an empty input, otherwise a clustering of the input |
| Cluster.GetClusterPositions | core.py:98-118 | `([], {})` on an empty input, otherwise the same clustering |
| Cluster.IndexMonotone | util.py:21-24 | a smaller position never gets a larger cluster index |
| Cluster.GapsDecideCuts | util.py:13-18 | two neighbouring positions share a cluster exactly when they are at most `threshold` apart |
| Cluster.GapWithin | util.py:14-15 | neighbouring positions of one cluster are at most `threshold` apart |
| Cluster.GapBetween | util.py:16-18 | neighbouring positions of different clusters are more than `threshold` apart |
| Cluster.TruncDiv | util.py:20 | `int(a / b)` for b > 0: the quotient rounded toward zero, bracketed by the numerator from below for a ≥ 0 and from above for a < 0 |
| Cluster.TruncMean | util.py:20 | the truncated mean of an increasing cluster lies between its first and last element |
| Cluster.RepsIncreasing | util.py:20 | the representatives strictly increase, each within its own cluster's span |
| Cluster.TruncDivBounds | util.py:20 | truncated division keeps a value between bounds that bracket its numerator |
| Cluster.IndexToScreen | util.py:27-30 | `(None, None)` unless the column is below the length of `x_reps` and the row below the length of `y_reps`; the representative pair for in-range indices, with a negative index counting from the end as in Python; an `IndexError` for indices below minus the length; core.py:120-123 is an identical copy |
| Cluster.ScreenPointOfScannedCell | util.py:20-30 | a scanned cell maps back to a point inside the spans of its column and its row |
| Drag.Solve | core.py:18-32 | at most one drag per move, and the loop raises only on a non-empty move list |
| Drag.SolveExact | core.py:19-32 | the drags are exactly those of the kept moves (both corners located, top-left cell of the initial board non-zero), in sequence order, up to the first move whose lookup raises |
| Drag.SolveRaises | core.py:31 | the loop raises exactly when some move with located corners has its top-left cell outside the initial board |
| Drag.SolveAppend | core.py:19 | solving a concatenation drags what solving the parts in turn drags |
| Drag.SolveReadsInitialBoard | core.py:31-32 | the skip test reads the initial board: the same move twice is dragged twice although the first drag clears the cell |
| Drag.DragFor | core.py:25-28 | a drag starts 10 px up-left of the first corner's centre and ends 10 px down-right of the second's, spanning at least 20 px each way when the corners are ordered |

## Left out

- Screen capture, template matching (`scan`), `restart_game`, the mouse
  calls and `time.sleep` in `solve`, the `difficulty` argument (it only sets
  the sleep), the GUI, `main.py`/`main_old.py`, `send_data`, the Express server
  and the scoreboard page: I/O, concurrency and network code.
- The `print` calls of every solver.
- Probabilities of the random draws. `randint` and `shuffle` are nondeterministic choices within their ranges.
- Boards with rows of different lengths: every solver requires a rectangular board (Python would index past a short row).
- `grid_to_key`: the memo is keyed by the board value itself, which is the same identity as the tuple of tuples.
- The memo of `exhaustive_solver` never overwrites an entry. The score reaching a board is fixed by the board: it is the initial non-zero count minus the board's. So a revisit always has `score <= prev_best` and is pruned.
- `n_iterative_solver`'s float counter is modelled exactly in quarters. The test `randint(0, 9) * iteration % 10 <= 2` becomes `(d * quarters) % 40 <= 8`; on the quarter grid this equals the float test, which is exact for these values. The popped entry of a skipped pass is dropped, as in the source.
- `h_iteration_solver`'s `iteration` counter: it is incremented but never read (the docstring's `max_iteration` does not exist), so it is left out.
- `int(sum(c) / len(c))` is modelled as integer division truncated toward zero. Rounding of the float quotient for sums beyond 2^53 is not modelled.
- `Cluster.BuildClusters`: the `clusters` list is returned as a ghost value for the specification.
- `Drag.Solve`: assumes `pos_dict` values are 4-tuples. A negative corner index cannot occur because cells are natural numbers.
- `get_cluster_positions`'s second emptiness test on `sorted_pos` can never succeed after the first test; it has no counterpart.
- `Exhaustive.ExhaustiveSolver`: its optimality is stated only when the call counter stays within the budget, as the source promises nothing otherwise.
- `HIteration.HIterationSolver`: the replacement of `branches < 1` and `n_iteration < 1` by 1 and 10 (search.py:201-204) appears in no ensures; the clamped `branches` sizes the pass bound, and `n_iteration` only decides at which steps a descent branches.
- `HIteration.Descend`: the branching facts of each step are stated on `HIteration.DescendStep` and not repeated for the whole descent.
- `Iterative.IterativeSolver`: the `ValueError` of `randint(0, -1)` is returned as the `EmptyRange` outcome rather than raised.
