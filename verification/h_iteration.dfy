/**
 * `h_iteration_solver`: from each popped entry, a greedy descent that always
 * takes the best preferred candidate, pushing a few random alternatives onto
 * the stack every `n_iteration` steps. The search runs until the stack is
 * empty; it ends because each descent pushes less "weight" than it pops.
 */
module HIteration {
  import opened Board
  import opened MoveGen
  import opened Adjacency
  import opened SearchCore

  // ---------------------------------------------------------------------
  // The greedy descent
  // ---------------------------------------------------------------------

  /**
   * `c` is the move a descent takes on `g`: a preferred candidate that ranks
   * before every other preferred candidate.
   */
  ghost predicate TopChoice(g: Grid, c: Candidate)
    requires Rectangular(g)
  {
    PreferredCandidate(g, c) && forall d :: PreferredCandidate(g, d) && d != c ==> Ranked(c, d)
  }

  /** `ms` is the whole greedy descent from `g`: top choices all the way down to a dead end. */
  ghost predicate Greedy(g: Grid, ms: seq<Move>)
    requires Rectangular(g)
    decreases |ms|
  {
    if ms == [] then !HasMove(g)
    else exists c :: TopChoice(g, c) && c.ToMove() == ms[0] && Greedy(Apply(g, ms[0]).0, ms[1..])
  }

  lemma GreedyCons(g: Grid, c: Candidate, tail: seq<Move>)
    requires Rectangular(g) && TopChoice(g, c) && Greedy(Apply(g, c.ToMove()).0, tail)
    ensures Greedy(g, [c.ToMove()] + tail)
  {
    var ms := [c.ToMove()] + tail;
    assert ms[0] == c.ToMove() && ms[1..] == tail;
  }

  /** Every greedy descent from `g` extends `path` to a greedy descent from `g0`. */
  ghost predicate Continues(g0: Grid, path: seq<Move>, g: Grid)
  {
    Rectangular(g0) && Rectangular(g) && forall tail :: Greedy(g, tail) ==> Greedy(g0, path + tail)
  }

  lemma ContinuesStart(g0: Grid)
    requires Rectangular(g0)
    ensures Continues(g0, [], g0)
  {
    forall tail | Greedy(g0, tail) ensures Greedy(g0, [] + tail) {
      assert [] + tail == tail;
    }
  }

  /** At a dead end the path itself is the greedy descent. */
  lemma ContinuesEnd(g0: Grid, path: seq<Move>, g: Grid)
    requires Continues(g0, path, g) && !HasMove(g)
    ensures Greedy(g0, path)
  {
    assert Greedy(g, []);
    assert path + [] == path;
  }

  /**
   * If every greedy descent from `g` extends `path` to a greedy descent from
   * `g0`, then so does every greedy descent past `g`'s top choice `c`,
   * extending `path + [c]`.
   */
  lemma GreedyExtend(g0: Grid, path: seq<Move>, g: Grid, c: Candidate)
    requires Rectangular(g) && TopChoice(g, c) && Continues(g0, path, g)
    ensures Continues(g0, path + [c.ToMove()], Apply(g, c.ToMove()).0)
  {
    forall tail | Greedy(Apply(g, c.ToMove()).0, tail) ensures Greedy(g0, (path + [c.ToMove()]) + tail) {
      GreedyCons(g, c, tail);
      assert (path + [c.ToMove()]) + tail == path + ([c.ToMove()] + tail);
    }
  }

  /** A greedy descent is a legal sequence of moves. */
  lemma {:induction false} GreedyLegal(g: Grid, ms: seq<Move>)
    requires Rectangular(g) && Greedy(g, ms)
    ensures AllFit(ms, |g|, Cols(g)) && LegalFrom(g, ms)
    decreases |ms|
  {
    if ms != [] {
      var c :| TopChoice(g, c) && c.ToMove() == ms[0] && Greedy(Apply(g, ms[0]).0, ms[1..]);
      var h := Apply(g, ms[0]).0;
      GreedyLegal(h, ms[1..]);
      forall i | 0 <= i < |ms| ensures Fits(ms[i], |g|, Cols(g)) {
        if i > 0 {
          assert ms[i] == ms[1..][i - 1];
        }
      }
    }
  }

  /** Two candidates never rank before each other. */
  lemma RankedAsymmetric(a: Candidate, b: Candidate)
    requires Ranked(a, b)
    ensures !Ranked(b, a)
  {
  }

  /** The greedy descent from a board is unique: the greedy score is well defined. */
  lemma {:induction false} GreedyUnique(g: Grid, ms1: seq<Move>, ms2: seq<Move>)
    requires Rectangular(g) && Greedy(g, ms1) && Greedy(g, ms2)
    ensures ms1 == ms2
    decreases |ms1|
  {
    if ms1 != [] && ms2 != [] {
      var c1 :| TopChoice(g, c1) && c1.ToMove() == ms1[0] && Greedy(Apply(g, ms1[0]).0, ms1[1..]);
      var c2 :| TopChoice(g, c2) && c2.ToMove() == ms2[0] && Greedy(Apply(g, ms2[0]).0, ms2[1..]);
      if c1 != c2 {
        RankedAsymmetric(c1, c2);
        assert false;
      }
      GreedyUnique(Apply(g, ms1[0]).0, ms1[1..], ms2[1..]);
      assert ms1 == [ms1[0]] + ms1[1..] && ms2 == [ms2[0]] + ms2[1..];
    }
  }

  // ---------------------------------------------------------------------
  // The termination measure
  // ---------------------------------------------------------------------

  function Pow(w: nat, e: nat): nat
  {
    if e == 0 then 1 else w * Pow(w, e - 1)
  }

  lemma {:induction false} PowPositive(w: nat, e: nat)
    requires w >= 1
    ensures Pow(w, e) >= 1
  {
    if e > 0 {
      PowPositive(w, e - 1);
      assert w * Pow(w, e - 1) >= Pow(w, e - 1);
    }
  }

  lemma {:induction false} PowMono(w: nat, a: nat, b: nat)
    requires w >= 1 && a <= b
    ensures Pow(w, a) <= Pow(w, b)
    decreases b
  {
    if a < b {
      PowMono(w, a, b - 1);
      PowPositive(w, b - 1);
      assert w * Pow(w, b - 1) >= Pow(w, b - 1);
    }
  }

  /** An entry weighs `w` to the power of the non-zero cells left on its board. */
  function Weight(s: State, w: nat): nat
  {
    if Rectangular(s.grid) && NonzeroCount(s.grid) >= 0 then Pow(w, NonzeroCount(s.grid)) else 0
  }

  function Potential(stack: seq<State>, w: nat): nat
    decreases |stack|
  {
    if stack == [] then 0 else Potential(stack[..|stack| - 1], w) + Weight(stack[|stack| - 1], w)
  }

  lemma {:induction false} PotentialAppend(a: seq<State>, b: seq<State>, w: nat)
    ensures Potential(a + b, w) == Potential(a, w) + Potential(b, w)
    decreases |b|
  {
    if b == [] {
      assert a + b == a;
    } else {
      var init := b[..|b| - 1];
      PotentialAppend(a, init, w);
      assert (a + b)[..|a + b| - 1] == a + init;
    }
  }

  /** Replacing the top entry by entries lighter than it together lowers the potential. */
  lemma PopPush(stack: seq<State>, pushed: seq<State>, w: nat)
    requires |stack| > 0 && Rectangular(stack[|stack| - 1].grid)
    requires NonzeroCount(stack[|stack| - 1].grid) >= 0
    requires Potential(pushed, w) < Pow(w, NonzeroCount(stack[|stack| - 1].grid))
    ensures Potential(stack[..|stack| - 1] + pushed, w) < Potential(stack, w)
  {
    PotentialAppend(stack[..|stack| - 1], pushed, w);
  }

  /** Entries that each weigh at most `bound` weigh at most `|stack| * bound` together. */
  lemma {:induction false} PotentialBound(stack: seq<State>, w: nat, bound: nat)
    requires forall i :: 0 <= i < |stack| ==> Weight(stack[i], w) <= bound
    ensures Potential(stack, w) <= |stack| * bound
    decreases |stack|
  {
    if stack != [] {
      var front := stack[..|stack| - 1];
      forall i | 0 <= i < |front| ensures Weight(front[i], w) <= bound {
        assert front[i] == stack[i];
      }
      PotentialBound(front, w, bound);
      assert Weight(stack[|stack| - 1], w) <= bound;
      assert |stack| * bound == |front| * bound + bound;
    }
  }

  /**
   * One step of a descent from a board with `m` non-zero cells pushes at
   * most `branches` entries, each of weight at most `w^(m-1)`, and moves on
   * to a board of weight at most `w^(m-1)`: with `w == branches + 1` that is
   * at most `w^m` in all.
   */
  lemma StepBound(w: nat, branches: nat, m: nat, pushed: nat, k: nat, next: nat)
    requires w == branches + 1 && m >= 1 && k <= branches
    requires pushed <= k * Pow(w, m - 1) && next <= Pow(w, m - 1)
    ensures pushed + next <= Pow(w, m)
  {
    assert k * Pow(w, m - 1) <= branches * Pow(w, m - 1);
    assert Pow(w, m) == branches * Pow(w, m - 1) + Pow(w, m - 1);
  }

  // ---------------------------------------------------------------------
  // The solver
  // ---------------------------------------------------------------------

  /** `random_gen.shuffle(shuffled)`: the Fisher-Yates pass of `random.shuffle`. */
  method Shuffle(s: seq<Candidate>) returns (r: seq<Candidate>)
    ensures multiset(r) == multiset(s)
  {
    r := s;
    var i := |r| - 1;
    while i >= 1
      invariant i < |r| && multiset(r) == multiset(s)
    {
      var j :| 0 <= j <= i;
      r := r[i := r[j]][j := r[i]];
      i := i - 1;
    }
  }

  /**
   * The branching of a descent: shuffles the preferred candidates and pushes
   * the children of the first `branches` of them.
   */
  method Branch(init: Grid, current: State, possible: seq<Candidate>, branches: nat, ghost w: nat)
    returns (shuffled: seq<Candidate>, children: seq<State>)
    requires Reached(init, current) && Rectangular(current.grid)
    requires forall c :: c in possible ==> IsCandidate(current.grid, c)
    ensures multiset(shuffled) == multiset(possible) && |shuffled| == |possible|
    ensures |children| == Min(branches, |possible|)
    ensures forall i :: 0 <= i < |children| ==> IsCandidate(current.grid, shuffled[i]) && children[i] == Child(current, shuffled[i])
    ensures AllReached(init, children)
    ensures NonzeroCount(current.grid) >= 1 && w >= 1 ==> Potential(children, w) <= |children| * Pow(w, NonzeroCount(current.grid) - 1)
  {
    shuffled := Shuffle(possible);
    assert |shuffled| == |multiset(shuffled)| == |multiset(possible)| == |possible|;
    forall c | c in shuffled ensures IsCandidate(current.grid, c) {
      assert c in multiset(shuffled);
    }
    children := Expand(current, shuffled, branches);
    forall i | 0 <= i < |children| ensures IsCandidate(current.grid, shuffled[i]) {
      assert shuffled[i] in shuffled;
    }
    ChildrenReached(init, current, shuffled, children);
    ChildrenWeight(init, current, shuffled, children, w);
  }

  lemma ChildWeight(init: Grid, current: State, c: Candidate, w: nat)
    requires Reached(init, current) && Rectangular(current.grid) && IsCandidate(current.grid, c)
    requires NonzeroCount(current.grid) >= 1 && w >= 1
    ensures Weight(Child(current, c), w) <= Pow(w, NonzeroCount(current.grid) - 1)
  {
    var child := Child(current, c);
    ChildReached(init, current, c);
    ReachedFacts(init, child);
    NonzeroCountNonneg(child.grid);
    PowMono(w, NonzeroCount(child.grid), NonzeroCount(current.grid) - 1);
  }

  /** Every child of an entry weighs at most `w^(m-1)` when its board has `m` non-zero cells. */
  lemma ChildrenWeight(init: Grid, current: State, choices: seq<Candidate>, children: seq<State>, w: nat)
    requires Reached(init, current) && Rectangular(current.grid)
    requires |children| <= |choices|
    requires forall i :: 0 <= i < |children| ==> IsCandidate(current.grid, choices[i]) && children[i] == Child(current, choices[i])
    ensures NonzeroCount(current.grid) >= 1 && w >= 1 ==> Potential(children, w) <= |children| * Pow(w, NonzeroCount(current.grid) - 1)
  {
    var m := NonzeroCount(current.grid);
    if m >= 1 && w >= 1 {
      var bound := Pow(w, m - 1);
      ChildrenLighter(init, current, choices, children, w);
      PotentialBound(children, w, bound);
    }
  }

  lemma ChildrenLighter(init: Grid, current: State, choices: seq<Candidate>, children: seq<State>, w: nat)
    requires Reached(init, current) && Rectangular(current.grid)
    requires NonzeroCount(current.grid) >= 1 && w >= 1 && |children| <= |choices|
    requires forall i :: 0 <= i < |children| ==> IsCandidate(current.grid, choices[i]) && children[i] == Child(current, choices[i])
    ensures forall i :: 0 <= i < |children| ==> Weight(children[i], w) <= Pow(w, NonzeroCount(current.grid) - 1)
  {
    forall i | 0 <= i < |children| ensures Weight(children[i], w) <= Pow(w, NonzeroCount(current.grid) - 1) {
      ChildWeight(init, current, choices[i], w);
    }
  }

  /** `child` is the child of `current` for one of the candidates `possible`. */
  ghost predicate BranchChild(current: State, possible: seq<Candidate>, child: State)
  {
    Rectangular(current.grid) &&
    exists c :: c in possible && IsCandidate(current.grid, c) && child == Child(current, c)
  }

  /**
   * One step of a descent at `steps` steps: filters the candidates, branches
   * when `steps` is a positive multiple of `nIteration`, then sorts the
   * preferred candidates by priority and moves on with the first.
   */
  method DescendStep(init: Grid, current: State, available: seq<Candidate>, steps: int,
                     branches: nat, nIteration: int, ghost w: nat)
    returns (next: State, children: seq<State>, chosen: Candidate)
    requires Reached(init, current) && Rectangular(current.grid)
    requires forall c :: c in available <==> IsCandidate(current.grid, c)
    requires StrictlyRanked(available) && |available| > 0
    requires steps >= 0 && nIteration >= 1 && w == branches + 1
    ensures TopChoice(current.grid, chosen) && next == Child(current, chosen)
    ensures Reached(init, next) && 0 <= NonzeroCount(next.grid) < NonzeroCount(current.grid)
    ensures AllReached(init, children)
    ensures |children| <= branches
    ensures !(steps > 0 && steps % nIteration == 0) ==> children == []
    ensures steps > 0 && steps % nIteration == 0 ==>
              |children| == Min(branches, |Preferred(current.grid, available)|) &&
              forall i :: 0 <= i < |children| ==> BranchChild(current, Preferred(current.grid, available), children[i])
    ensures Potential(children, w) + Pow(w, NonzeroCount(next.grid)) <= Pow(w, NonzeroCount(current.grid))
  {
    var possible := PossibleActions(current.grid, available);
    children := MaybeBranch(init, current, available, possible, steps, branches, nIteration, w);
    possible := SortByPriority(possible);
    chosen := possible[0];
    TopChoiceFirst(current.grid, available);
    next := Advance(init, current, chosen);
    StepWeight(init, current, next, children, branches, w);
  }

  /**
   * The branching half of a step: when `steps` is a positive multiple of
   * `nIteration`, the children of the first `branches` preferred candidates
   * in shuffled order; otherwise none.
   */
  method MaybeBranch(init: Grid, current: State, available: seq<Candidate>, possible: seq<Candidate>,
                     steps: int, branches: nat, nIteration: int, ghost w: nat)
    returns (children: seq<State>)
    requires Reached(init, current) && Rectangular(current.grid)
    requires forall c :: c in available <==> IsCandidate(current.grid, c)
    requires possible == Preferred(current.grid, available)
    requires steps >= 0 && nIteration >= 1
    ensures AllReached(init, children)
    ensures |children| <= branches
    ensures !(steps > 0 && steps % nIteration == 0) ==> children == []
    ensures steps > 0 && steps % nIteration == 0 ==>
              |children| == Min(branches, |Preferred(current.grid, available)|) &&
              forall i :: 0 <= i < |children| ==> BranchChild(current, Preferred(current.grid, available), children[i])
    ensures NonzeroCount(current.grid) >= 1 && w >= 1 ==>
              Potential(children, w) <= |children| * Pow(w, NonzeroCount(current.grid) - 1)
  {
    children := [];
    assert Potential(children, w) == 0;
    if steps > 0 && steps % nIteration == 0 {
      PreferredAreCandidates(current.grid, available);
      var shuffled;
      shuffled, children := Branch(init, current, possible, branches, w);
      forall i | 0 <= i < |children| ensures BranchChild(current, possible, children[i]) {
        assert shuffled[i] in multiset(shuffled);
      }
    }
  }

  /** An empty list of all the candidates means the board is a dead end. */
  lemma NoCandidateListed(g: Grid, available: seq<Candidate>)
    requires Rectangular(g) && (forall c :: c in available <==> IsCandidate(g, c)) && |available| == 0
    ensures !HasMove(g)
  {
  }

  /** The candidates the filter keeps are candidates of the board. */
  lemma PreferredAreCandidates(g: Grid, available: seq<Candidate>)
    requires Rectangular(g) && forall c :: c in available <==> IsCandidate(g, c)
    ensures forall c :: c in Preferred(g, available) ==> IsCandidate(g, c)
  {
  }

  /** After the sort by priority, the first preferred candidate is the top choice. */
  lemma TopChoiceFirst(g: Grid, available: seq<Candidate>)
    requires Rectangular(g) && forall c :: c in available <==> IsCandidate(g, c)
    requires StrictlyRanked(available) && |available| > 0
    ensures |SortByPriority(Preferred(g, available))| > 0
    ensures TopChoice(g, SortByPriority(Preferred(g, available))[0])
  {
    TopPreferred(g, available, 1);
    var p := Preferred(g, available);
    assert p[0] in p[..1];
  }

  /** Clears the chosen rectangle on a copy of the entry's board. */
  method Advance(init: Grid, current: State, chosen: Candidate) returns (next: State)
    requires Reached(init, current) && Rectangular(current.grid) && IsCandidate(current.grid, chosen)
    ensures next == Child(current, chosen)
    ensures Reached(init, next) && 0 <= NonzeroCount(next.grid) < NonzeroCount(current.grid)
  {
    var m := chosen.ToMove();
    var newGrid, addScore := ClearRect(current.grid, m);
    next := State(newGrid, current.moves + [m], current.score + addScore);
    ChildReached(init, current, chosen);
    ReachedFacts(init, next);
    NonzeroCountNonneg(next.grid);
  }

  /** The weight a step pushes and moves on to is at most the weight it starts from. */
  lemma StepWeight(init: Grid, current: State, next: State, children: seq<State>, branches: nat, w: nat)
    requires Rectangular(current.grid) && Rectangular(next.grid) && w == branches + 1
    requires 0 <= NonzeroCount(next.grid) < NonzeroCount(current.grid)
    requires |children| <= branches
    requires NonzeroCount(current.grid) >= 1 && w >= 1 ==>
               Potential(children, w) <= |children| * Pow(w, NonzeroCount(current.grid) - 1)
    ensures Potential(children, w) + Pow(w, NonzeroCount(next.grid)) <= Pow(w, NonzeroCount(current.grid))
  {
    var k := NonzeroCount(current.grid);
    PowMono(w, NonzeroCount(next.grid), k - 1);
    StepBound(w, branches, k, Potential(children, w), |children|, Pow(w, NonzeroCount(next.grid)));
  }

  /**
   * What holds along a descent from `s0`: the current entry is reachable,
   * the pushed entries too, the weight pushed plus the current weight stays
   * within the weight of `s0`, and the moves taken so far are the start of
   * the greedy descent from `s0`.
   */
  ghost predicate Descent(init: Grid, s0: State, current: State, pushed: seq<State>, path: seq<Move>, w: nat)
  {
    Reached(init, s0) && Rectangular(s0.grid) && Reached(init, current) && Rectangular(current.grid) &&
    AllReached(init, pushed) &&
    0 <= NonzeroCount(current.grid) && 0 <= NonzeroCount(s0.grid) &&
    Potential(pushed, w) + Pow(w, NonzeroCount(current.grid)) <= Pow(w, NonzeroCount(s0.grid)) &&
    current.moves == s0.moves + path &&
    Continues(s0.grid, path, current.grid)
  }

  /** One turn of the inner loop: a step of the descent. */
  method DescendOnce(init: Grid, s0: State, current: State, available: seq<Candidate>, pushed: seq<State>,
                     ghost path: seq<Move>, steps: int, branches: nat, nIteration: int, ghost w: nat)
    returns (next: State, pushed': seq<State>, ghost path': seq<Move>)
    requires Descent(init, s0, current, pushed, path, w)
    requires forall c :: c in available <==> IsCandidate(current.grid, c)
    requires StrictlyRanked(available) && |available| > 0
    requires steps >= 0 && nIteration >= 1 && w == branches + 1
    ensures Descent(init, s0, next, pushed', path', w)
    ensures NonzeroCount(next.grid) < NonzeroCount(current.grid)
  {
    var children, chosen;
    next, children, chosen := DescendStep(init, current, available, steps, branches, nIteration, w);
    PushReached(init, pushed, children);
    PotentialAppend(pushed, children, w);
    GreedyExtend(s0.grid, path, current.grid, chosen);
    pushed', path' := pushed + children, path + [chosen.ToMove()];
  }

  /**
   * The inner `while True` loop: descends from `s0` until a dead end, which
   * is returned as `fin`; `pushed` are the entries pushed on the way and
   * `path` the moves taken, the greedy descent from `s0`'s board.
   */
  method Descend(init: Grid, s0: State, branches: nat, nIteration: int, ghost w: nat)
    returns (fin: State, pushed: seq<State>, ghost path: seq<Move>)
    requires Reached(init, s0) && Rectangular(s0.grid)
    requires nIteration >= 1 && w == branches + 1
    ensures Reached(init, fin) && Rectangular(fin.grid) && !HasMove(fin.grid)
    ensures AllReached(init, pushed)
    ensures NonzeroCount(s0.grid) >= 0 && Potential(pushed, w) < Pow(w, NonzeroCount(s0.grid))
    ensures fin.moves == s0.moves + path && Greedy(s0.grid, path)
  {
    NonzeroCountNonneg(s0.grid);
    var current := s0;
    var steps := 0;
    pushed, path := [], [];
    var available := FindAllSum10Areas(current.grid);
    ContinuesStart(s0.grid);
    while |available| > 0
      invariant Descent(init, s0, current, pushed, path, w)
      invariant forall c :: c in available <==> IsCandidate(current.grid, c)
      invariant StrictlyRanked(available)
      invariant steps >= 0
      decreases NonzeroCount(current.grid)
    {
      current, pushed, path := DescendOnce(init, s0, current, available, pushed, path, steps, branches, nIteration, w);
      steps := steps + 1;
      available := FindAllSum10Areas(current.grid);
    }
    NoCandidateListed(current.grid, available);
    ContinuesEnd(s0.grid, path, current.grid);
    PowPositive(w, NonzeroCount(current.grid));
    fin := current;
  }

  /**
   * `h_iteration_solver(initial_grid, branches, n_iteration)`. Clamps
   * `branches` below 1 to 1 and `n_iteration` below 1 to 10, then descends
   * from every popped entry, recording each dead end that beats the best.
   * The first descent is the greedy descent from the initial board, so the
   * answer is never worse than it.
   */
  method HIterationSolver(init: Grid, branches: int, nIteration: int)
    returns (maxScore: int, best: seq<Move>, ghost greedy: seq<Move>, ghost passes: nat)
    requires Rectangular(init)
    ensures Achieves(init, best, maxScore) && 0 <= maxScore <= NonzeroCount(init)
    ensures Greedy(init, greedy) && AllFit(greedy, |init|, Cols(init)) && Replay(init, greedy).1 <= maxScore
    ensures passes <= Pow(Max(branches, 1) + 1, NonzeroCount(init))
  {
    maxScore, best := 0, [];
    var stack := [Start(init)];
    var b: nat := if branches < 1 then 1 else branches;
    var n := if nIteration < 1 then 10 else nIteration;
    ghost var w := b + 1;
    assert w == Max(branches, 1) + 1;
    ghost var first := true;
    greedy := [];
    StartReached(init);
    passes := 0;
    NonzeroCountNonneg(init);
    assert Potential(stack, w) == Pow(w, NonzeroCount(init)) by {
      assert stack[..0] == [];
    }
    while |stack| > 0
      invariant AllReached(init, stack) && Achieves(init, best, maxScore)
      invariant passes + Potential(stack, w) <= Pow(w, NonzeroCount(init))
      invariant first ==> stack == [Start(init)]
      invariant !first ==> Greedy(init, greedy) && AllFit(greedy, |init|, Cols(init)) && Replay(init, greedy).1 <= maxScore
      decreases Potential(stack, w)
    {
      var current := stack[|stack| - 1];
      var rest := stack[..|stack| - 1];
      SplitLast(stack);
      PrefixReached(init, stack, |stack| - 1);
      ReachedFacts(init, current);
      var fin, pushed, path := Descend(init, current, b, n, w);
      if fin.score > maxScore {
        maxScore, best := fin.score, fin.moves;
      }
      ReachedFacts(init, fin);
      if first {
        assert fin.moves == path;
        GreedyLegal(init, path);
        greedy, first := path, false;
      }
      PushReached(init, rest, pushed);
      PopPush(stack, pushed, w);
      stack := rest + pushed;
      passes := passes + 1;
    }
    AchievesBounds(init, best, maxScore);
  }
}
