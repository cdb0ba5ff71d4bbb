/**
 * `r_iteration_solver`: a depth-first search over every candidate of every
 * board, bounded by a number of pops. When the stack drains before the
 * bound, every sequence of legal moves has been tried and the answer is
 * optimal.
 */
module RIteration {
  import opened Board
  import opened MoveGen
  import opened SearchCore

  /** Some sequence of legal moves turns board `a` into board `k`. */
  ghost predicate Leads(a: Grid, k: Grid)
  {
    Rectangular(a) && exists ms :: AllFit(ms, |a|, Cols(a)) && LegalFrom(a, ms) && Replay(a, ms).0 == k
  }

  /** A board on which no rectangle sums to 10: the end of every path through it. */
  ghost predicate DeadEnd(k: Grid)
  {
    Rectangular(k) && !HasMove(k)
  }

  lemma LeadsShape(a: Grid, k: Grid)
    requires Leads(a, k)
    ensures SameShape(a, k)
  {
  }

  lemma LeadsRefl(a: Grid)
    requires Rectangular(a)
    ensures Leads(a, a)
  {
    var ms: seq<Move> := [];
    assert AllFit(ms, |a|, Cols(a)) && LegalFrom(a, ms) && Replay(a, ms).0 == a;
  }

  /** A path between two different boards starts with a candidate of the first. */
  lemma LeadsFirstMove(a: Grid, k: Grid) returns (c: Candidate)
    requires Leads(a, k) && a != k
    ensures IsCandidate(a, c) && Leads(Apply(a, c.ToMove()).0, k)
  {
    var ms :| AllFit(ms, |a|, Cols(a)) && LegalFrom(a, ms) && Replay(a, ms).0 == k;
    assert ms != [];
    var m := ms[0];
    c := Candidate(RectPriority(a, m), m.topLeft, m.bottomRight);
    assert c.ToMove() == m;
    AllFitTail(ms, |a|, Cols(a));
    var b := Apply(a, m).0;
    assert AllFit(ms[1..], |b|, Cols(b)) && LegalFrom(b, ms[1..]) && Replay(b, ms[1..]).0 == k;
  }

  /** Nothing but the board itself lies beyond a dead end. */
  lemma LeadsFromDeadEnd(a: Grid, k: Grid)
    requires Leads(a, k) && DeadEnd(a)
    ensures k == a
  {
    if a != k {
      var c := LeadsFirstMove(a, k);
      assert false;
    }
  }

  /** A path extended by a candidate of the board it reaches is a path. */
  lemma LeadsExtend(init: Grid, k: Grid, c: Candidate)
    requires Leads(init, k) && Rectangular(k) && IsCandidate(k, c)
    ensures Leads(init, Apply(k, c.ToMove()).0)
  {
    var m := c.ToMove();
    var ms :| AllFit(ms, |init|, Cols(init)) && LegalFrom(init, ms) && Replay(init, ms).0 == k;
    assert SameShape(init, k);
    assert FitsGrid(init, m);
    ReplayAppend(init, ms, m);
    LegalAppend(init, ms, m);
    assert AllFit(ms + [m], |init|, Cols(init)) && LegalFrom(init, ms + [m])
      && Replay(init, ms + [m]).0 == Apply(k, m).0;
  }

  /** A path can be extended by legal moves until it reaches a dead end, clearing more on the way. */
  lemma DeadEndBelow(init: Grid, k': Grid) returns (k: Grid)
    requires Rectangular(init) && Leads(init, k')
    ensures DeadEnd(k) && Leads(init, k) && NonzeroCount(k) <= NonzeroCount(k')
    decreases NonzeroCount(k')
  {
    LeadsShape(init, k');
    NonzeroCountNonneg(k');
    if !HasMove(k') {
      return k';
    }
    var c :| IsCandidate(k', c);
    LeadsExtend(init, k', c);
    ApplyClearsAtLeastOne(k', c.ToMove());
    k := DeadEndBelow(init, Apply(k', c.ToMove()).0);
  }

  /**
   * Every dead end reachable from `init` either scores at most `best` or is
   * still reachable from some entry of the stack.
   */
  ghost predicate Covered(init: Grid, stack: seq<State>, best: int)
    requires Rectangular(init)
  {
    forall k :: DeadEnd(k) && Leads(init, k) ==>
      NonzeroCount(init) - NonzeroCount(k) <= best || exists i :: 0 <= i < |stack| && Leads(stack[i].grid, k)
  }

  lemma CoveredAtStart(init: Grid)
    requires Rectangular(init)
    ensures Covered(init, [Start(init)], 0)
  {
    forall k | DeadEnd(k) && Leads(init, k)
      ensures exists i :: 0 <= i < |[Start(init)]| && Leads([Start(init)][i].grid, k)
    {
      assert [Start(init)][0].grid == init;
    }
  }

  /** Popping a dead end whose score is recorded keeps the stack covering every dead end. */
  lemma CoveredAfterDeadEnd(init: Grid, rest: seq<State>, s: State, best: int, best': int)
    requires Rectangular(init) && Covered(init, rest + [s], best) && best <= best'
    requires Reached(init, s) && DeadEnd(s.grid) && s.score <= best'
    ensures Covered(init, rest, best')
  {
    var stack := rest + [s];
    ReachedFacts(init, s);
    forall k | DeadEnd(k) && Leads(init, k) && NonzeroCount(init) - NonzeroCount(k) > best'
      ensures exists i :: 0 <= i < |rest| && Leads(rest[i].grid, k)
    {
      var i :| 0 <= i < |stack| && Leads(stack[i].grid, k);
      if i == |rest| {
        LeadsFromDeadEnd(s.grid, k);
        assert false;
      }
      assert rest[i] == stack[i];
    }
  }

  /** Replacing a popped entry by the children of all its candidates keeps every dead end covered. */
  lemma CoveredAfterExpand(init: Grid, rest: seq<State>, s: State, available: seq<Candidate>, children: seq<State>, best: int)
    requires Rectangular(init) && Covered(init, rest + [s], best) && Rectangular(s.grid)
    requires forall c :: c in available <==> IsCandidate(s.grid, c)
    requires |children| == |available| > 0
    requires forall i :: 0 <= i < |children| ==> IsCandidate(s.grid, available[i]) && children[i] == Child(s, available[i])
    ensures Covered(init, rest + children, best)
  {
    var stack, next := rest + [s], rest + children;
    assert available[0] in available;
    forall k | DeadEnd(k) && Leads(init, k) && NonzeroCount(init) - NonzeroCount(k) > best
      ensures exists i :: 0 <= i < |next| && Leads(next[i].grid, k)
    {
      var i :| 0 <= i < |stack| && Leads(stack[i].grid, k);
      if i < |rest| {
        assert next[i] == stack[i];
      } else {
        var j := ChildLeads(s, available, children, k);
        assert next[|rest| + j] == children[j];
      }
    }
  }

  /** A path from a board to another one passes through one of its children. */
  lemma ChildLeads(s: State, available: seq<Candidate>, children: seq<State>, k: Grid) returns (j: int)
    requires Rectangular(s.grid) && Leads(s.grid, k) && s.grid != k
    requires forall c :: c in available <==> IsCandidate(s.grid, c)
    requires |children| == |available|
    requires forall i :: 0 <= i < |children| ==> IsCandidate(s.grid, available[i]) && children[i] == Child(s, available[i])
    ensures 0 <= j < |children| && Leads(children[j].grid, k)
  {
    var c := LeadsFirstMove(s.grid, k);
    assert c in available;
    j :| 0 <= j < |available| && available[j] == c;
    assert children[j].grid == Apply(s.grid, c.ToMove()).0;
  }

  /** Once the stack is empty, every legal sequence from `init` scores at most `best`. */
  lemma CoveredDrained(init: Grid, best: int)
    requires Rectangular(init) && Covered(init, [], best)
    ensures forall ms :: AllFit(ms, |init|, Cols(init)) && LegalFrom(init, ms) ==> Replay(init, ms).1 <= best
  {
    forall ms | AllFit(ms, |init|, Cols(init)) && LegalFrom(init, ms)
      ensures Replay(init, ms).1 <= best
    {
      var k' := Replay(init, ms).0;
      ReplayCount(init, ms);
      assert Leads(init, k');
      var k := DeadEndBelow(init, k');
    }
  }

  /**
   * `r_iteration_solver(initial_grid, max_iteration)`: pops entries while
   * the stack is non-empty and fewer than `max_iteration` have been popped.
   * A dead end may become the new best; any other entry is replaced by the
   * children of all its candidates, with no preference filter.
   * `iterations` is the solver's own counter of pops.
   */
  method RIterationSolver(init: Grid, maxIteration: int) returns (maxScore: int, best: seq<Move>, ghost iterations: nat)
    requires Rectangular(init)
    ensures Achieves(init, best, maxScore) && 0 <= maxScore <= NonzeroCount(init)
    ensures iterations <= Max(0, maxIteration)
    ensures maxIteration <= 0 ==> maxScore == 0 && best == []
    ensures iterations < maxIteration ==>
              forall ms :: AllFit(ms, |init|, Cols(init)) && LegalFrom(init, ms) ==> Replay(init, ms).1 <= maxScore
  {
    maxScore, best := 0, [];
    var stack := [Start(init)];
    var iteration := 0;
    StartReached(init);
    CoveredAtStart(init);
    while |stack| > 0 && iteration < maxIteration
      invariant 0 <= iteration <= Max(0, maxIteration)
      invariant AllReached(init, stack) && Achieves(init, best, maxScore)
      invariant Covered(init, stack, maxScore)
      invariant iteration == 0 ==> maxScore == 0 && best == []
      decreases maxIteration - iteration
    {
      stack, maxScore, best := RPass(init, stack, maxScore, best);
      iteration := iteration + 1;
    }
    iterations := iteration;
    AchievesBounds(init, best, maxScore);
    if iteration < maxIteration {
      CoveredDrained(init, maxScore);
    }
  }

  /**
   * What one pass of `r_iteration_solver` does: it pops the top entry; a
   * dead end becomes the best when it scores more, and any other entry is
   * replaced by the children of all its candidates, in the generator's order.
   */
  ghost predicate RStep(stack: seq<State>, maxScore: int, best: seq<Move>,
                        stack': seq<State>, maxScore': int, best': seq<Move>)
    requires |stack| > 0
  {
    var top, rest := stack[|stack| - 1], stack[..|stack| - 1];
    Rectangular(top.grid) &&
    if !HasMove(top.grid) then
      stack' == rest &&
      if top.score > maxScore then maxScore' == top.score && best' == top.moves
      else maxScore' == maxScore && best' == best
    else
      maxScore' == maxScore && best' == best &&
      exists available :: ListsCandidates(top.grid, available) && Pushed(top, rest, available, |available|, stack')
  }

  /** One pass of the loop of `r_iteration_solver`. */
  method RPass(init: Grid, stack: seq<State>, maxScore: int, best: seq<Move>)
    returns (stack': seq<State>, maxScore': int, best': seq<Move>)
    requires Rectangular(init) && |stack| > 0 && AllReached(init, stack) && Achieves(init, best, maxScore)
    requires Covered(init, stack, maxScore)
    ensures RStep(stack, maxScore, best, stack', maxScore', best')
    ensures AllReached(init, stack') && Achieves(init, best', maxScore') && maxScore' >= maxScore
    ensures Covered(init, stack', maxScore')
  {
    var current := stack[|stack| - 1];
    stack' := stack[..|stack| - 1];
    SplitLast(stack);
    PrefixReached(init, stack, |stack| - 1);
    ReachedFacts(init, current);
    maxScore', best' := maxScore, best;
    var available := FindAllSum10Areas(current.grid);
    if |available| == 0 {
      if current.score > maxScore' {
        maxScore', best' := current.score, current.moves;
      }
      CoveredAfterDeadEnd(init, stack', current, maxScore, maxScore');
      return;
    }
    assert IsCandidate(current.grid, available[0]);
    var children := ExpandAll(init, stack', current, available, maxScore);
    PushedChildren(current, stack', available, available, children);
    assert ListsCandidates(current.grid, available);
    stack' := stack' + children;
  }

  /** The children of all candidates of a popped entry that is not a dead end. */
  method ExpandAll(init: Grid, rest: seq<State>, current: State, available: seq<Candidate>, ghost best: int)
    returns (children: seq<State>)
    requires Rectangular(init) && AllReached(init, rest) && Reached(init, current) && Rectangular(current.grid)
    requires forall c :: c in available <==> IsCandidate(current.grid, c)
    requires |available| > 0 && Covered(init, rest + [current], best)
    ensures |children| == |available|
    ensures forall i :: 0 <= i < |children| ==> IsCandidate(current.grid, available[i]) && children[i] == Child(current, available[i])
    ensures AllReached(init, rest + children) && Covered(init, rest + children, best)
  {
    children := Expand(current, available, |available|);
    forall i | 0 <= i < |children| ensures IsCandidate(current.grid, available[i]) {
      assert available[i] in available;
    }
    ChildrenReached(init, current, available, children);
    PushReached(init, rest, children);
    CoveredAfterExpand(init, rest, current, available, children, best);
  }
}
