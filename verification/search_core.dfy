/**
 * What the stack solvers share: the stack entry `(grid, move_sequence,
 * score)`, the child an entry gets from a candidate, and the loop that
 * pushes the children of the first few candidates.
 */
module SearchCore {
  import opened Board
  import opened MoveGen

  /** A stack entry: a board, the moves that led to it and the score they earned. */
  datatype State = State(grid: Grid, moves: seq<Move>, score: int)

  /** `(initial_grid, [], 0)`, the entry every solver starts from. */
  function Start(init: Grid): State
  {
    State(init, [], 0)
  }

  function Min(a: int, b: int): int
  {
    if a <= b then a else b
  }

  function Max(a: int, b: int): int
  {
    if a >= b then a else b
  }

  /**
   * `s` is reachable from `init`: its moves are legal from `init`, and
   * replaying them gives exactly its board and its score.
   */
  ghost predicate Reached(init: Grid, s: State)
  {
    Rectangular(init) && AllFit(s.moves, |init|, Cols(init)) && LegalFrom(init, s.moves)
    && Replay(init, s.moves).0 == s.grid && Replay(init, s.moves).1 == s.score
  }

  /**
   * Along every path of every solver the score plus the non-zero cells left
   * equals the non-zero cells of the initial board, and the entry records an
   * achievable result no greater than that count.
   */
  lemma ReachedFacts(init: Grid, s: State)
    requires Reached(init, s)
    ensures SameShape(init, s.grid)
    ensures s.score + NonzeroCount(s.grid) == NonzeroCount(init)
    ensures Achieves(init, s.moves, s.score)
    ensures |s.moves| <= s.score <= NonzeroCount(init)
  {
    ReplayCount(init, s.moves);
    AchievesBounds(init, s.moves, s.score);
  }

  lemma StartReached(init: Grid)
    requires Rectangular(init)
    ensures Reached(init, Start(init))
  {
  }

  /** The entry pushed for candidate `c`: the cleared board, one more move, the increased score. */
  function Child(s: State, c: Candidate): State
    requires Rectangular(s.grid) && FitsGrid(s.grid, c.ToMove())
  {
    var (g, add) := Apply(s.grid, c.ToMove());
    State(g, s.moves + [c.ToMove()], s.score + add)
  }

  /**
   * A child of a reachable entry is reachable, holds strictly fewer non-zero
   * cells and has a strictly higher score.
   */
  lemma ChildReached(init: Grid, s: State, c: Candidate)
    requires Reached(init, s) && Rectangular(s.grid) && IsCandidate(s.grid, c)
    ensures Reached(init, Child(s, c))
    ensures NonzeroCount(Child(s, c).grid) < NonzeroCount(s.grid)
    ensures Child(s, c).score > s.score
  {
    var m := c.ToMove();
    ReachedFacts(init, s);
    ReplayAppend(init, s.moves, m);
    LegalAppend(init, s.moves, m);
    ApplyClearsAtLeastOne(s.grid, m);
    var a := Apply(s.grid, m);
    assert Child(s, c) == State(a.0, s.moves + [m], s.score + a.1);
    assert Replay(init, s.moves + [m]).0 == a.0;
    assert Replay(init, s.moves + [m]).1 == s.score + a.1;
  }

  /**
   * `for ... in choices[:width]`: clears each chosen rectangle on a copy of
   * the entry's board and collects the resulting entries in order.
   */
  method Expand(s: State, choices: seq<Candidate>, width: nat) returns (children: seq<State>)
    requires Rectangular(s.grid) && forall c :: c in choices ==> FitsGrid(s.grid, c.ToMove())
    ensures |children| == Min(width, |choices|)
    ensures forall i :: 0 <= i < |children| ==> children[i] == Child(s, choices[i])
  {
    children := [];
    for i := 0 to Min(width, |choices|)
      invariant |children| == i
      invariant forall k :: 0 <= k < i ==> children[k] == Child(s, choices[k])
    {
      var m := choices[i].ToMove();
      assert choices[i] in choices;
      var newGrid, addScore := ClearRect(s.grid, m);
      children := children + [State(newGrid, s.moves + [m], s.score + addScore)];
    }
  }

  /** The children of a reachable entry for candidates of its board are all reachable. */
  lemma ChildrenReached(init: Grid, s: State, choices: seq<Candidate>, children: seq<State>)
    requires Reached(init, s) && Rectangular(s.grid)
    requires |children| <= |choices|
    requires forall i :: 0 <= i < |children| ==> IsCandidate(s.grid, choices[i]) && children[i] == Child(s, choices[i])
    ensures forall i :: 0 <= i < |children| ==> Reached(init, children[i])
  {
    forall i | 0 <= i < |children| ensures Reached(init, children[i]) {
      ChildReached(init, s, choices[i]);
    }
  }

  /** Every entry of the stack is reachable from `init`. */
  ghost predicate AllReached(init: Grid, stack: seq<State>)
  {
    forall i :: 0 <= i < |stack| ==> Reached(init, stack[i])
  }

  lemma PushReached(init: Grid, stack: seq<State>, more: seq<State>)
    requires AllReached(init, stack) && AllReached(init, more)
    ensures AllReached(init, stack + more)
  {
    forall i | 0 <= i < |stack + more| ensures Reached(init, (stack + more)[i]) {
      if i >= |stack| {
        assert (stack + more)[i] == more[i - |stack|];
      }
    }
  }

  /** Popping entries off the top keeps every remaining entry reachable. */
  lemma PrefixReached(init: Grid, stack: seq<State>, n: int)
    requires AllReached(init, stack) && 0 <= n <= |stack|
    ensures AllReached(init, stack[..n])
  {
    forall i | 0 <= i < n ensures Reached(init, stack[..n][i]) {
      assert stack[..n][i] == stack[i];
    }
  }

  lemma SplitLast(stack: seq<State>)
    requires |stack| > 0
    ensures stack == stack[..|stack| - 1] + [stack[|stack| - 1]]
  {
  }

  /** `available` is the generator's output for `g`: every candidate of `g` once, in output order. */
  ghost predicate ListsCandidates(g: Grid, available: seq<Candidate>)
    requires Rectangular(g)
  {
    (forall c :: c in available <==> IsCandidate(g, c)) && StrictlyRanked(available)
  }

  /** A board has one listing of its candidates, so it is the generator's output. */
  lemma ListingUnique(g: Grid, a: seq<Candidate>, b: seq<Candidate>)
    requires Rectangular(g) && ListsCandidates(g, a) && ListsCandidates(g, b)
    ensures a == b
  {
    RankedUnique(a, b);
  }

  /**
   * `stack'` is `rest` followed by the children of `top` for the first `k`
   * entries of `choices`, in order, each a candidate of `top`'s board.
   */
  ghost predicate Pushed(top: State, rest: seq<State>, choices: seq<Candidate>, k: int, stack': seq<State>)
    requires Rectangular(top.grid)
  {
    0 <= k <= |choices| && |stack'| == |rest| + k && stack'[..|rest|] == rest &&
    forall i :: 0 <= i < k ==> IsCandidate(top.grid, choices[i]) && stack'[|rest| + i] == Child(top, choices[i])
  }

  /** Pushing the children of a prefix of `choices` onto `rest` is what `Pushed` describes. */
  lemma PushedChildren(top: State, rest: seq<State>, choices: seq<Candidate>, chosen: seq<Candidate>,
                       children: seq<State>)
    requires Rectangular(top.grid)
    requires |chosen| <= |choices| && chosen == choices[..|chosen|] && |children| == |chosen|
    requires forall i :: 0 <= i < |children| ==> IsCandidate(top.grid, chosen[i]) && children[i] == Child(top, chosen[i])
    ensures Pushed(top, rest, choices, |chosen|, rest + children)
  {
    var s := rest + children;
    assert s[..|rest|] == rest;
    forall i | 0 <= i < |chosen| ensures IsCandidate(top.grid, choices[i]) && s[|rest| + i] == Child(top, choices[i]) {
      assert chosen[i] == choices[i] && s[|rest| + i] == children[i];
    }
  }
}
