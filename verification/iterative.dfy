/**
 * `iterative_solver` and `n_iterative_solver`: stack searches with a pass
 * budget that push the children of the first few preferred candidates and
 * cut the stack back at random after every new best.
 */
module Iterative {
  import opened Board
  import opened MoveGen
  import opened Adjacency
  import opened SearchCore

  /** The outcome of `iterative_solver`: its answer, or the `ValueError` of `randint(0, -1)`. */
  datatype Outcome = Solved(maxScore: int, moves: seq<Move>) | EmptyRange

  /**
   * After a new best, `for i in range(1, min(r, len(stack))): stack.pop()`:
   * removes `min(r, len) - 1` entries from the top (none when that is not
   * positive), so a non-empty stack keeps at least its bottom entry.
   */
  method PopAfterBest(stack: seq<State>, r: int) returns (rest: seq<State>)
    ensures |rest| <= |stack| && rest == stack[..|rest|]
    ensures |stack| - |rest| == Max(0, Min(r, |stack|) - 1)
    ensures |stack| > 0 ==> |rest| >= 1
    ensures r >= 1 ==> rest == Truncate(stack, r)
  {
    rest := stack;
    var i := 1;
    while i < Min(r, |stack|)
      invariant 1 <= i && (i <= Min(r, |stack|) || i == 1)
      invariant rest == stack[..|stack| - (i - 1)]
    {
      rest := rest[..|rest| - 1];
      i := i + 1;
    }
  }

  /**
   * `possible_actions`, the sort by priority and the push of the children of
   * the first `width` candidates: `chosen` are the `width` best preferred
   * candidates of the entry's board, and `children` their children in order.
   */
  method ExpandPreferred(init: Grid, current: State, available: seq<Candidate>, width: nat)
    returns (chosen: seq<Candidate>, children: seq<State>)
    requires Reached(init, current) && Rectangular(current.grid)
    requires forall c :: c in available <==> IsCandidate(current.grid, c)
    requires StrictlyRanked(available)
    ensures |chosen| == Min(width, |Preferred(current.grid, available)|)
    ensures chosen == Preferred(current.grid, available)[..|chosen|]
    ensures forall c :: c in chosen ==> PreferredCandidate(current.grid, c)
    ensures |children| == |chosen|
    ensures forall i :: 0 <= i < |children| ==> IsCandidate(current.grid, chosen[i]) && children[i] == Child(current, chosen[i])
    ensures AllReached(init, children)
  {
    var possible := PossibleActions(current.grid, available);
    PreferredSorted(current.grid, available);
    possible := SortByPriority(possible);
    chosen := possible[..Min(width, |possible|)];
    children := Expand(current, possible, width);
    ChosenChildren(init, current, available, width, chosen, children);
  }

  /** The children of the chosen preferred candidates are reachable children of candidates. */
  lemma ChosenChildren(init: Grid, current: State, available: seq<Candidate>, width: nat,
                       chosen: seq<Candidate>, children: seq<State>)
    requires Reached(init, current) && Rectangular(current.grid)
    requires forall c :: c in available <==> IsCandidate(current.grid, c)
    requires StrictlyRanked(available)
    requires var p := Preferred(current.grid, available); chosen == p[..Min(width, |p|)]
    requires |children| == |chosen|
    requires forall i :: 0 <= i < |children| ==>
               FitsGrid(current.grid, chosen[i].ToMove()) && children[i] == Child(current, chosen[i])
    ensures forall c :: c in chosen ==> PreferredCandidate(current.grid, c)
    ensures forall i :: 0 <= i < |children| ==> IsCandidate(current.grid, chosen[i])
    ensures AllReached(init, children)
  {
    TopPreferred(current.grid, available, width);
    forall i | 0 <= i < |children| ensures IsCandidate(current.grid, chosen[i]) {
      assert chosen[i] in chosen;
    }
    ChildrenReached(init, current, chosen, children);
  }

  /** The entry a pass pops: the top of the stack, or the initial entry when the stack is empty. */
  function Top(init: Grid, stack: seq<State>): State
  {
    if stack == [] then Start(init) else stack[|stack| - 1]
  }

  /** The stack a pass leaves after popping. */
  function Popped(stack: seq<State>): seq<State>
  {
    if stack == [] then [] else stack[..|stack| - 1]
  }

  /** `stack.pop()`, an empty stack being reseeded first with the initial board. */
  method PopOrStart(init: Grid, stack: seq<State>) returns (current: State, rest: seq<State>)
    requires Rectangular(init) && AllReached(init, stack)
    ensures current == Top(init, stack) && rest == Popped(stack)
    ensures Reached(init, current) && AllReached(init, rest)
  {
    if |stack| == 0 {
      StartReached(init);
      return Start(init), [];
    }
    current, rest := stack[|stack| - 1], stack[..|stack| - 1];
    PrefixReached(init, stack, |stack| - 1);
  }

  /**
   * The restart of `iterative_solver` after a dead end scoring under 100:
   * the stack becomes the single child of the initial board for a random
   * candidate `pick`; `failed` is the `ValueError` raised when the initial
   * board has no candidate.
   */
  method Restart(init: Grid) returns (stack: seq<State>, pick: Candidate, failed: bool)
    requires Rectangular(init)
    ensures failed <==> !HasMove(init)
    ensures !failed ==> IsCandidate(init, pick) && stack == [Child(Start(init), pick)]
    ensures AllReached(init, stack)
  {
    var emergency := FindAllSum10Areas(init);
    if |emergency| == 0 {
      return [], Candidate(0, Cell(0, 0), Cell(0, 0)), true;
    }
    var k :| 0 <= k < |emergency|;
    assert emergency[k] in emergency;
    pick := emergency[k];
    var move := pick.ToMove();
    var newGrid, addScore := ClearRect(init, move);
    StartReached(init);
    ChildReached(init, Start(init), pick);
    assert Child(Start(init), pick) == State(newGrid, [move], addScore);
    stack, failed := [State(newGrid, [move], addScore)], false;
  }

  /**
   * `iterative_solver(initial_grid, guess_limit)`. Each pass pops an entry
   * (reseeding an empty stack with the initial board). A dead end scoring
   * under 100 restarts the search from one random candidate of the initial
   * board, which raises `ValueError` when that board has none; a dead end
   * scoring 100 or more may become the new best, after which the stack is
   * cut back by a random amount. Otherwise the children of the first 8
   * preferred candidates are pushed.
   */
  method IterativeSolver(init: Grid, guessLimit: int) returns (res: Outcome)
    requires Rectangular(init)
    ensures res.EmptyRange? <==> guessLimit > 0 && !HasMove(init)
    ensures res.Solved? ==> Achieves(init, res.moves, res.maxScore) && 0 <= res.maxScore <= NonzeroCount(init)
    ensures res.Solved? ==> res.maxScore == 0 || res.maxScore >= 100
    ensures guessLimit <= 0 ==> res == Solved(0, [])
  {
    var maxScore := 0;
    var best: seq<Move> := [];
    var stack := [Start(init)];
    var iteration := 0;
    StartReached(init);
    while iteration < guessLimit
      invariant 0 <= iteration && (iteration <= guessLimit || iteration == 0)
      invariant AllReached(init, stack)
      invariant Achieves(init, best, maxScore)
      invariant maxScore == 0 || maxScore >= 100
      invariant iteration == 0 ==> stack == [Start(init)] && maxScore == 0 && best == []
      invariant iteration > 0 ==> HasMove(init)
      decreases guessLimit - iteration
    {
      var failed;
      stack, maxScore, best, failed := IterativePass(init, stack, maxScore, best);
      if failed {
        return EmptyRange;
      }
      iteration := iteration + 1;
    }
    AchievesBounds(init, best, maxScore);
    return Solved(maxScore, best);
  }

  /**
   * A dead end scoring `score` after moves `moves`, with `rest` left on the
   * stack: a higher score becomes the best and the stack is cut back by
   * `Truncate` for some draw `1 <= r <= cut`; otherwise nothing changes.
   */
  ghost predicate NewBest(score: int, moves: seq<Move>, rest: seq<State>, maxScore: int, best: seq<Move>,
                          stack': seq<State>, maxScore': int, best': seq<Move>, cut: int)
  {
    if score > maxScore then
      maxScore' == score && best' == moves && exists r :: 1 <= r <= cut && stack' == Truncate(rest, r)
    else
      maxScore' == maxScore && best' == best && stack' == rest
  }

  /**
   * What one pass of `iterative_solver` does with the entry it pops: a dead
   * end scoring under 100 restarts from the child of a random candidate of
   * the initial board (failing when there is none); another dead end may be
   * the new best, with a cut by at most 125; any other entry is replaced by
   * the children of its first 8 preferred candidates.
   */
  ghost predicate IterativeStep(init: Grid, stack: seq<State>, maxScore: int, best: seq<Move>,
                                stack': seq<State>, maxScore': int, best': seq<Move>, failed: bool)
  {
    var top, rest := Top(init, stack), Popped(stack);
    Rectangular(init) && Rectangular(top.grid) &&
    if !HasMove(top.grid) && top.score < 100 then
      maxScore' == maxScore && best' == best && (failed <==> !HasMove(init)) &&
      (!failed ==> exists c :: IsCandidate(init, c) && stack' == [Child(Start(init), c)])
    else if !HasMove(top.grid) then
      !failed && NewBest(top.score, top.moves, rest, maxScore, best, stack', maxScore', best', 125)
    else
      !failed && maxScore' == maxScore && best' == best &&
      exists available :: ListsCandidates(top.grid, available) &&
        var p := Preferred(top.grid, available); Pushed(top, rest, p, Min(8, |p|), stack')
  }

  /** One pass of the loop of `iterative_solver`; `failed` is the `ValueError`. */
  method IterativePass(init: Grid, stack: seq<State>, maxScore: int, best: seq<Move>)
    returns (stack': seq<State>, maxScore': int, best': seq<Move>, failed: bool)
    requires Rectangular(init) && AllReached(init, stack) && Achieves(init, best, maxScore)
    requires maxScore == 0 || maxScore >= 100
    ensures IterativeStep(init, stack, maxScore, best, stack', maxScore', best', failed)
    ensures AllReached(init, stack') && Achieves(init, best', maxScore')
    ensures maxScore' == 0 || maxScore' >= 100
    ensures maxScore' >= maxScore
    ensures failed ==> !HasMove(init)
    ensures !failed && (stack == [] || stack[|stack| - 1] == Start(init)) ==> HasMove(init)
  {
    maxScore', best', failed := maxScore, best, false;
    var current;
    current, stack' := PopOrStart(init, stack);
    ReachedFacts(init, current);
    var available := FindAllSum10Areas(current.grid);
    if |available| == 0 {
      assert !HasMove(current.grid);
      if current.score < 100 {
        var pick;
        stack', pick, failed := Restart(init);
        return;
      }
      if current.score > maxScore' {
        maxScore', best' := current.score, current.moves;
        var r :| 1 <= r <= 125;
        var rest := PopAfterBest(stack', r);
        PrefixReached(init, stack', |rest|);
        stack' := rest;
      }
      return;
    }
    assert IsCandidate(current.grid, available[0]);
    var chosen, children := ExpandPreferred(init, current, available, 8);
    PushedChildren(current, stack', Preferred(current.grid, available), chosen, children);
    assert ListsCandidates(current.grid, available);
    PushReached(init, stack', children);
    stack' := stack' + children;
  }

  /**
   * `stack[:len(stack) - min(r, len(stack)) + 1]`: keeps a bottom part of
   * the stack; with `r >= 1` it drops `min(r, len) - 1` entries, so a
   * non-empty stack keeps at least one.
   */
  function Truncate(stack: seq<State>, r: int): (rest: seq<State>)
    ensures |rest| <= |stack| && rest == stack[..|rest|]
    ensures |stack| > 0 ==> |rest| >= 1
    ensures 1 <= r ==> |stack| - |rest| == Max(0, Min(r, |stack|) - 1)
  {
    var keep := |stack| - Min(r, |stack|) + 1;
    stack[..Min(keep, |stack|)]
  }

  /**
   * `n_iterative_solver(initial_grid, guess_limit)`. The pass counter
   * `iteration` advances by 0.25 on a skipped pass and by 1 otherwise; here
   * it is counted in quarters. `passes` counts the passes of the loop.
   */
  method NIterativeSolver(init: Grid, guessLimit: int) returns (maxScore: int, best: seq<Move>, ghost passes: nat)
    requires Rectangular(init)
    ensures Achieves(init, best, maxScore) && 0 <= maxScore <= NonzeroCount(init)
    ensures passes <= Max(0, 4 * guessLimit)
    ensures guessLimit <= 0 ==> maxScore == 0 && best == []
  {
    maxScore, best := 0, [];
    var stack := [Start(init)];
    var quarters := 0;
    passes := 0;
    StartReached(init);
    while quarters < 4 * guessLimit
      invariant 0 <= quarters && passes <= quarters && passes <= Max(0, 4 * guessLimit)
      invariant AllReached(init, stack)
      invariant Achieves(init, best, maxScore)
      invariant passes == 0 ==> maxScore == 0 && best == []
      decreases 4 * guessLimit - quarters
    {
      passes := passes + 1;
      var digit, step;
      stack, maxScore, best, digit, step := NIterativePass(init, stack, maxScore, best, quarters);
      quarters := quarters + step;
    }
    AchievesBounds(init, best, maxScore);
  }

  /**
   * `randint(0, 9) * iteration % 10 <= 2` for the drawn digit `d` and the
   * counter `iteration == quarters / 4`, cleared of fractions: the pass is
   * skipped when `d * quarters` leaves a remainder of at most 8 modulo 40,
   * which is the test taken on exact real numbers.
   */
  function Skipped(d: int, quarters: int): (r: bool)
    ensures r <==> RealMod(d as real * (quarters as real / 4.0), 10.0) <= 2.0
  {
    QuarterMod(d, quarters);
    (d * quarters) % 40 <= 8
  }

  /** Python's `x % m` on floats for `m > 0`: `x - m * floor(x / m)`. */
  function RealMod(x: real, m: real): real
    requires m > 0.0
  {
    x - m * ((x / m).Floor as real)
  }

  /** `d * (q / 4) % 10` taken exactly is a quarter of `(d * q) % 40`. */
  lemma QuarterMod(d: int, q: int)
    ensures RealMod(d as real * (q as real / 4.0), 10.0) == ((d * q) % 40) as real / 4.0
  {
    var n := d * q;
    var k, r := n / 40, n % 40;
    assert n == 40 * k + r && 0 <= r < 40;
    assert (n as real) == d as real * q as real;
    var x := d as real * (q as real / 4.0);
    assert x == n as real / 4.0;
    assert x / 10.0 == k as real + r as real / 40.0;
    assert (x / 10.0).Floor == k;
  }

  /** The counter starts at 0, so the first pass is always skipped. */
  lemma FirstPassSkipped(d: int)
    ensures Skipped(d, 0)
  {
    assert d * 0 == 0;
  }

  /**
   * One pass of the loop of `n_iterative_solver`, `quarters` being the pass
   * counter in quarters. The pass is skipped when
   * `randint(0, 9) * iteration % 10 <= 2`, which for a drawn digit `d` is
   * `(d * quarters) % 40 <= 8`: the popped entry is dropped and the counter
   * advances by a quarter. A dead end may become the new best, after which
   * the stack is truncated at random; otherwise the children of the first 5
   * preferred candidates are pushed; either way the counter advances by one.
   */
  /**
   * What one pass of `n_iterative_solver` does with the entry it pops, for
   * the drawn digit `digit`: a skipped pass only drops it; otherwise a dead
   * end may be the new best, with a cut by at most 3125, and any other entry
   * is replaced by the children of its first 5 preferred candidates.
   */
  ghost predicate NIterativeStep(init: Grid, stack: seq<State>, maxScore: int, best: seq<Move>, quarters: int,
                                 stack': seq<State>, maxScore': int, best': seq<Move>, digit: int)
  {
    var top, rest := Top(init, stack), Popped(stack);
    Rectangular(top.grid) && 0 <= digit <= 9 &&
    if Skipped(digit, quarters) then
      stack' == rest && maxScore' == maxScore && best' == best
    else if !HasMove(top.grid) then
      NewBest(top.score, top.moves, rest, maxScore, best, stack', maxScore', best', 3125)
    else
      maxScore' == maxScore && best' == best &&
      exists available :: ListsCandidates(top.grid, available) &&
        var p := Preferred(top.grid, available); Pushed(top, rest, p, Min(5, |p|), stack')
  }

  method NIterativePass(init: Grid, stack: seq<State>, maxScore: int, best: seq<Move>, quarters: int)
    returns (stack': seq<State>, maxScore': int, best': seq<Move>, digit: int, step: int)
    requires Rectangular(init) && AllReached(init, stack) && Achieves(init, best, maxScore)
    ensures NIterativeStep(init, stack, maxScore, best, quarters, stack', maxScore', best', digit)
    ensures AllReached(init, stack') && Achieves(init, best', maxScore')
    ensures maxScore' >= maxScore
    ensures 0 <= digit <= 9 && (step == 1 || step == 4)
    ensures step == 1 <==> Skipped(digit, quarters)
    ensures quarters == 0 ==> step == 1
  {
    maxScore', best' := maxScore, best;
    var current;
    current, stack' := PopOrStart(init, stack);
    ReachedFacts(init, current);
    var available := FindAllSum10Areas(current.grid);
    digit :| 0 <= digit <= 9;
    FirstPassSkipped(digit);
    if Skipped(digit, quarters) {
      return stack', maxScore', best', digit, 1;
    }
    step := 4;
    if |available| == 0 {
      assert !HasMove(current.grid);
      if current.score > maxScore' {
        maxScore', best' := current.score, current.moves;
        var r :| 1 <= r <= 3125;
        PrefixReached(init, stack', |Truncate(stack', r)|);
        stack' := Truncate(stack', r);
      }
      return;
    }
    assert IsCandidate(current.grid, available[0]);
    var chosen, children := ExpandPreferred(init, current, available, 5);
    PushedChildren(current, stack', Preferred(current.grid, available), chosen, children);
    assert ListsCandidates(current.grid, available);
    PushReached(init, stack', children);
    stack' := stack' + children;
  }
}
