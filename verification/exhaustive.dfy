/**
 * `exhaustive_solver`: a depth-first search over every sequence of legal
 * moves, bounded by a budget of calls and pruned by a memo of the boards
 * already seen.
 */
module Exhaustive {
  import opened Board
  import opened MoveGen
  import opened SearchCore

  /** The variables the nested `dfs` shares with its enclosing solver. */
  datatype DfsState = DfsState(bestScore: int, bestSequence: seq<Move>, calls: int, memo: map<Grid, int>)

  /**
   * Board `k` is fully explored: whatever legal moves follow it, the total
   * score from `init` (the non-zero cells cleared since `init`) is at most
   * `best`.
   */
  ghost predicate Closed(init: Grid, k: Grid, best: int)
  {
    Rectangular(init) && SameShape(init, k) &&
    forall ms :: AllFit(ms, |k|, Cols(k)) && LegalFrom(k, ms) ==>
      NonzeroCount(init) - NonzeroCount(Replay(k, ms).0) <= best
  }

  /**
   * Every memo entry is a board of the right shape, and its value is the
   * score of any path that reaches it: the score is fixed by the board.
   */
  ghost predicate MemoExact(init: Grid, memo: map<Grid, int>)
    requires Rectangular(init)
  {
    forall k :: k in memo ==> SameShape(init, k) && memo[k] == NonzeroCount(init) - NonzeroCount(k)
  }

  /** Every remembered board with fewer than `bound` non-zero cells is fully explored. */
  ghost predicate MemoSound(init: Grid, memo: map<Grid, int>, best: int, bound: int)
    requires Rectangular(init) && MemoExact(init, memo)
  {
    forall k :: k in memo && NonzeroCount(k) < bound ==> Closed(init, k, best)
  }

  /** What holds of the shared variables between any two steps of the search. */
  ghost predicate Inv(init: Grid, st: DfsState)
  {
    Rectangular(init) && Achieves(init, st.bestSequence, st.bestScore) && MemoExact(init, st.memo)
  }

  /** The search only raises the best score and the call count, and never forgets or changes a memo entry. */
  ghost predicate Grows(st: DfsState, st': DfsState)
  {
    st'.bestScore >= st.bestScore && st'.calls >= st.calls &&
    forall k :: k in st.memo ==> k in st'.memo && st'.memo[k] == st.memo[k]
  }

  /** Every board remembered between `st` and `st'` has fewer than `bound` non-zero cells. */
  ghost predicate NewKeysBelow(init: Grid, st: DfsState, st': DfsState, bound: int)
  {
    forall k :: k in st'.memo && k !in st.memo ==> SameShape(init, k) && NonzeroCount(k) < bound
  }

  lemma GrowsTrans(init: Grid, a: DfsState, b: DfsState, c: DfsState, bound: int, bound': int)
    requires Grows(a, b) && Grows(b, c) && NewKeysBelow(init, a, b, bound) && NewKeysBelow(init, b, c, bound')
    requires bound' <= bound
    ensures Grows(a, c) && NewKeysBelow(init, a, c, bound)
  {
  }

  lemma ClosedMono(init: Grid, k: Grid, best: int, best': int)
    requires Closed(init, k, best) && best <= best'
    ensures Closed(init, k, best')
  {
  }

  /**
   * A board is fully explored once the score reaching it is recorded and
   * every board one legal move away is fully explored.
   */
  lemma ClosedFromChildren(init: Grid, grid: Grid, best: int)
    requires Rectangular(init) && SameShape(init, grid)
    requires NonzeroCount(init) - NonzeroCount(grid) <= best
    requires forall c :: IsCandidate(grid, c) ==> Closed(init, Apply(grid, c.ToMove()).0, best)
    ensures Closed(init, grid, best)
  {
    forall ms | AllFit(ms, |grid|, Cols(grid)) && LegalFrom(grid, ms)
      ensures NonzeroCount(init) - NonzeroCount(Replay(grid, ms).0) <= best
    {
      if ms != [] {
        var m := ms[0];
        var c := Candidate(RectPriority(grid, m), m.topLeft, m.bottomRight);
        assert c.ToMove() == m;
        assert IsCandidate(grid, c);
        var child := Apply(grid, m).0;
        AllFitTail(ms, |grid|, Cols(grid));
        assert Closed(init, child, best);
        assert LegalFrom(child, ms[1..]);
        assert Replay(grid, ms).0 == Replay(child, ms[1..]).0;
      }
    }
  }

  /** Raising the best score and adding explored boards keeps the memo sound. */
  lemma MemoSoundAfterChild(init: Grid, memo0: map<Grid, int>, best0: int, memo1: map<Grid, int>, best1: int,
                            bound: int, childBound: int)
    requires Rectangular(init) && MemoExact(init, memo0) && MemoExact(init, memo1)
    requires MemoSound(init, memo0, best0, bound) && MemoSound(init, memo1, best1, childBound)
    requires best0 <= best1
    requires forall k :: k in memo1 && k !in memo0 ==> NonzeroCount(k) < childBound
    ensures MemoSound(init, memo1, best1, bound)
  {
    forall k | k in memo1 && NonzeroCount(k) < bound ensures Closed(init, k, best1) {
      if NonzeroCount(k) >= childBound {
        ClosedMono(init, k, best0, best1);
      }
    }
  }

  /** Once the board itself is explored, the memo is sound one level higher. */
  lemma MemoSoundAfterNode(init: Grid, memo0: map<Grid, int>, best0: int, memo1: map<Grid, int>, best1: int, grid: Grid)
    requires Rectangular(init) && SameShape(init, grid) && MemoExact(init, memo0) && MemoExact(init, memo1)
    requires MemoSound(init, memo0, best0, NonzeroCount(grid) + 1) && MemoSound(init, memo1, best1, NonzeroCount(grid))
    requires Closed(init, grid, best1) && best0 <= best1
    requires forall k :: k in memo1 && k !in memo0 && k != grid ==> NonzeroCount(k) < NonzeroCount(grid)
    ensures MemoSound(init, memo1, best1, NonzeroCount(grid) + 1)
  {
    forall k | k in memo1 && NonzeroCount(k) < NonzeroCount(grid) + 1 ensures Closed(init, k, best1) {
      if NonzeroCount(k) == NonzeroCount(grid) && k != grid {
        ClosedMono(init, k, best0, best1);
      }
    }
  }

  /**
   * A board not pruned by the memo was never remembered: a remembered
   * board's value is exactly the score of any path to it.
   */
  lemma MemoRecord(init: Grid, memo: map<Grid, int>, grid: Grid, score: int)
    requires Rectangular(init) && SameShape(init, grid) && MemoExact(init, memo)
    requires score == NonzeroCount(init) - NonzeroCount(grid)
    requires !(grid in memo && score <= memo[grid])
    ensures grid !in memo && MemoExact(init, memo[grid := score])
  {
  }

  /** Remembering a board not yet in the memo only adds that key. */
  lemma RecordGrows(init: Grid, st: DfsState, st': DfsState, grid: Grid, score: int)
    requires SameShape(init, grid) && grid !in st.memo && st'.memo == st.memo[grid := score]
    requires st'.bestScore >= st.bestScore && st'.calls >= st.calls
    ensures Grows(st, st') && NewKeysBelow(init, st, st', NonzeroCount(grid) + 1)
  {
  }

  /** Remembering a new board and raising the best score keeps the boards below it explored. */
  lemma MemoSoundAfterRecord(init: Grid, memo0: map<Grid, int>, best0: int, memo1: map<Grid, int>, best1: int,
                             grid: Grid, score: int)
    requires Rectangular(init) && Rectangular(grid) && MemoExact(init, memo0) && MemoExact(init, memo1)
    requires MemoSound(init, memo0, best0, NonzeroCount(grid) + 1) && best0 <= best1
    requires grid !in memo0 && memo1 == memo0[grid := score]
    ensures MemoSound(init, memo1, best1, NonzeroCount(grid))
  {
    forall k | k in memo1 && NonzeroCount(k) < NonzeroCount(grid) ensures Closed(init, k, best1) {
      ClosedMono(init, k, best0, best1);
    }
  }

  /**
   * `dfs(grid, sequence, score)`. Counts the call and returns at once past
   * the budget; returns when the board was already seen with a score at
   * least as high; otherwise remembers the board, records a new best, and
   * explores the candidates of the board.
   */
  method Dfs(init: Grid, maxCalls: int, grid: Grid, sequence: seq<Move>, score: int, st: DfsState)
    returns (st': DfsState)
    requires Reached(init, State(grid, sequence, score)) && Rectangular(grid)
    requires Inv(init, st)
    requires st.calls <= maxCalls ==> MemoSound(init, st.memo, st.bestScore, NonzeroCount(grid) + 1)
    ensures Inv(init, st')
    ensures Grows(st, st') && st'.calls > st.calls && NewKeysBelow(init, st, st', NonzeroCount(grid) + 1)
    ensures st.calls + 1 > maxCalls ==> st' == st.(calls := st.calls + 1)
    ensures st'.calls <= maxCalls ==>
              MemoSound(init, st'.memo, st'.bestScore, NonzeroCount(grid) + 1) && Closed(init, grid, st'.bestScore)
    decreases NonzeroCount(grid), 2
  {
    st' := st.(calls := st.calls + 1);
    if st'.calls > maxCalls {
      return;
    }
    ReachedFacts(init, State(grid, sequence, score));
    NonzeroCountNonneg(grid);
    if grid in st'.memo && score <= st'.memo[grid] {
      return;
    }
    MemoRecord(init, st.memo, grid, score);
    st' := st'.(memo := st'.memo[grid := score]);
    if score > st'.bestScore {
      st' := st'.(bestScore := score, bestSequence := sequence);
    }
    MemoSoundAfterRecord(init, st.memo, st.bestScore, st'.memo, st'.bestScore, grid, score);
    RecordGrows(init, st, st', grid, score);
    var actions := FindAllSum10Areas(grid);
    if |actions| == 0 {
      ClosedFromChildren(init, grid, st'.bestScore);
      MemoSoundAfterNode(init, st.memo, st.bestScore, st'.memo, st'.bestScore, grid);
      return;
    }
    ghost var recorded := st';
    st' := Explore(init, maxCalls, grid, sequence, score, actions, st');
    GrowsTrans(init, st, recorded, st', NonzeroCount(grid) + 1, NonzeroCount(grid));
    if st'.calls <= maxCalls {
      ClosedFromChildren(init, grid, st'.bestScore);
      MemoSoundAfterNode(init, st.memo, st.bestScore, st'.memo, st'.bestScore, grid);
    }
  }

  /**
   * The loop of `dfs` over the candidates, returning as soon as the budget
   * is spent.
   */
  method Explore(init: Grid, maxCalls: int, grid: Grid, sequence: seq<Move>, score: int,
                 actions: seq<Candidate>, st: DfsState)
    returns (st': DfsState)
    requires Reached(init, State(grid, sequence, score)) && Rectangular(grid) && SameShape(init, grid)
    requires forall c :: c in actions <==> IsCandidate(grid, c)
    requires Inv(init, st) && st.calls <= maxCalls && st.bestScore >= score
    requires MemoSound(init, st.memo, st.bestScore, NonzeroCount(grid))
    ensures Inv(init, st')
    ensures Grows(st, st') && NewKeysBelow(init, st, st', NonzeroCount(grid))
    ensures st'.calls <= maxCalls ==>
              MemoSound(init, st'.memo, st'.bestScore, NonzeroCount(grid)) &&
              forall c :: IsCandidate(grid, c) ==> Closed(init, Apply(grid, c.ToMove()).0, st'.bestScore)
    decreases NonzeroCount(grid), 1
  {
    st' := st;
    for i := 0 to |actions|
      invariant Inv(init, st')
      invariant st'.calls <= maxCalls
      invariant Grows(st, st') && NewKeysBelow(init, st, st', NonzeroCount(grid))
      invariant MemoSound(init, st'.memo, st'.bestScore, NonzeroCount(grid))
      invariant forall j :: 0 <= j < i ==> Explored(init, grid, actions[j], st'.bestScore)
    {
      assert actions[i] in actions;
      ghost var before := st';
      st' := Visit(init, maxCalls, grid, sequence, score, actions[i], st');
      GrowsTrans(init, st, before, st', NonzeroCount(grid), NonzeroCount(grid));
      if st'.calls > maxCalls {
        return;
      }
      forall j | 0 <= j < i ensures Explored(init, grid, actions[j], st'.bestScore) {
        ExploredMono(init, grid, actions[j], before.bestScore, st'.bestScore);
      }
      assert forall j :: 0 <= j < i + 1 ==> Explored(init, grid, actions[j], st'.bestScore);
    }
    AllExplored(init, grid, actions, st'.bestScore);
  }

  /** Every candidate clears a cell, so when all were explored every board one move away is closed. */
  lemma AllExplored(init: Grid, grid: Grid, actions: seq<Candidate>, best: int)
    requires Rectangular(grid)
    requires forall c :: c in actions <==> IsCandidate(grid, c)
    requires forall j :: 0 <= j < |actions| ==> Explored(init, grid, actions[j], best)
    ensures forall c :: IsCandidate(grid, c) ==> Closed(init, Apply(grid, c.ToMove()).0, best)
  {
    forall c | IsCandidate(grid, c) ensures Closed(init, Apply(grid, c.ToMove()).0, best) {
      ApplyClearsAtLeastOne(grid, c.ToMove());
      var j :| 0 <= j < |actions| && actions[j] == c;
    }
  }

  /** Candidate `c` clears nothing on `grid`, or the board it leaves is fully explored. */
  ghost predicate Explored(init: Grid, grid: Grid, c: Candidate, best: int)
    requires Rectangular(grid)
  {
    FitsGrid(grid, c.ToMove()) &&
    (RectNonzero(grid, c.ToMove()) == 0 || Closed(init, Apply(grid, c.ToMove()).0, best))
  }

  lemma ExploredMono(init: Grid, grid: Grid, c: Candidate, best: int, best': int)
    requires Rectangular(grid)
    requires Explored(init, grid, c, best) && best <= best'
    ensures Explored(init, grid, c, best')
  {
  }

  /**
   * One pass of that loop: clear the rectangle on a copy of the board, skip
   * the candidate when nothing was cleared, and otherwise recurse into the
   * board it leaves.
   */
  method Visit(init: Grid, maxCalls: int, grid: Grid, sequence: seq<Move>, score: int,
               c: Candidate, st: DfsState)
    returns (st': DfsState)
    requires Reached(init, State(grid, sequence, score)) && Rectangular(grid) && SameShape(init, grid)
    requires IsCandidate(grid, c)
    requires Inv(init, st) && st.calls <= maxCalls
    requires MemoSound(init, st.memo, st.bestScore, NonzeroCount(grid))
    ensures Inv(init, st')
    ensures Grows(st, st') && NewKeysBelow(init, st, st', NonzeroCount(grid))
    ensures st'.calls <= maxCalls ==>
              MemoSound(init, st'.memo, st'.bestScore, NonzeroCount(grid)) && Explored(init, grid, c, st'.bestScore)
    decreases NonzeroCount(grid), 0
  {
    st' := st;
    var m := c.ToMove();
    var newGrid, add := ClearRect(grid, m);
    if add == 0 {
      return;
    }
    ChildReached(init, State(grid, sequence, score), c);
    NonzeroCountNonneg(newGrid);
    st' := Dfs(init, maxCalls, newGrid, sequence + [m], score + add, st);
    if st'.calls <= maxCalls {
      MemoSoundAfterChild(init, st.memo, st.bestScore, st'.memo, st'.bestScore,
                          NonzeroCount(grid), NonzeroCount(newGrid) + 1);
    }
  }

  /**
   * `exhaustive_solver(initial_grid, max_calls)`. On a board without rows or
   * columns it answers `(0, [])`; otherwise its answer is always achievable,
   * and when the search finished within its budget (`calls` is the final
   * value of the call counter) no legal move sequence scores more.
   */
  method ExhaustiveSolver(init: Grid, maxCalls: int) returns (bestScore: int, bestSequence: seq<Move>, ghost calls: int)
    requires Rectangular(init)
    ensures |init| == 0 || |init[0]| == 0 ==> bestScore == 0 && bestSequence == []
    ensures Achieves(init, bestSequence, bestScore) && 0 <= bestScore <= NonzeroCount(init)
    ensures calls <= maxCalls ==>
              forall ms :: AllFit(ms, |init|, Cols(init)) && LegalFrom(init, ms) ==> Replay(init, ms).1 <= bestScore
  {
    calls := 0;
    StartReached(init);
    NonzeroCountNonneg(init);
    if |init| == 0 || |init[0]| == 0 {
      return 0, [], calls;
    }
    var st := Dfs(init, maxCalls, init, [], 0, DfsState(0, [], 0, map[]));
    bestScore, bestSequence, calls := st.bestScore, st.bestSequence, st.calls;
    AchievesBounds(init, bestSequence, bestScore);
    if calls <= maxCalls {
      forall ms | AllFit(ms, |init|, Cols(init)) && LegalFrom(init, ms) ensures Replay(init, ms).1 <= bestScore {
        ReplayCount(init, ms);
      }
    }
  }
}
