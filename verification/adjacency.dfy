/**
 * The "near an empty cell" preference: `contain_or_adjacent_to_zero` and the
 * filter the stack solvers build from it (`possible_actions`).
 */
module Adjacency {
  import opened Board
  import opened MoveGen

  /**
   * The cells the test examines for a rectangle: every cell of each of its
   * rows from one column left of it to one column right of it, and every
   * cell of each of its columns from one row above it to one row below it.
   * The four diagonal corner neighbours are not among them.
   */
  predicate Examined(m: Move, r: int, c: int)
  {
    var r1, c1, r2, c2 := m.topLeft.row, m.topLeft.col, m.bottomRight.row, m.bottomRight.col;
    (r1 <= r <= r2 && c1 - 1 <= c <= c2 + 1) || (c1 <= c <= c2 && r1 - 1 <= r <= r2 + 1)
  }

  /** Some examined cell that lies on the board holds 0. */
  predicate NearEmpty(g: Grid, m: Move)
  {
    exists r, c :: 0 <= r < |g| && 0 <= c < |g[r]| && Examined(m, r, c) && g[r][c] == 0
  }

  /**
   * `contain_or_adjacent_to_zero`: first scans the rectangle, then the cells
   * left and right of its rows, then the cells above and below its columns,
   * answering true at the first 0 met. The bounds guards keep every read on
   * the board.
   */
  method ContainOrAdjacentToZero(g: Grid, topLeft: Cell, bottomRight: Cell) returns (b: bool)
    requires Rectangular(g) && FitsGrid(g, Move(topLeft, bottomRight))
    ensures b <==> NearEmpty(g, Move(topLeft, bottomRight))
  {
    ghost var m := Move(topLeft, bottomRight);
    var r1, c1 := topLeft.row, topLeft.col;
    var r2, c2 := bottomRight.row, bottomRight.col;
    var nRows, nCols := |g|, |g[0]|;
    for r := r1 to r2 + 1
      invariant forall i, j :: r1 <= i < r && c1 <= j <= c2 ==> g[i][j] != 0
    {
      for c := c1 to c2 + 1
        invariant forall j :: c1 <= j < c ==> g[r][j] != 0
      {
        if g[r][c] == 0 {
          assert Examined(m, r, c);
          return true;
        }
      }
    }
    for r := r1 to r2 + 1
      invariant forall i :: r1 <= i < r && c1 > 0 ==> g[i][c1 - 1] != 0
      invariant forall i :: r1 <= i < r && c2 < nCols - 1 ==> g[i][c2 + 1] != 0
    {
      if c1 > 0 && g[r][c1 - 1] == 0 {
        assert Examined(m, r, c1 - 1);
        return true;
      }
      if c2 < nCols - 1 && g[r][c2 + 1] == 0 {
        assert Examined(m, r, c2 + 1);
        return true;
      }
    }
    var above, below := r1 - 1, r2 + 1;
    for c := c1 to c2 + 1
      invariant forall j :: c1 <= j < c && r1 > 0 ==> g[above][j] != 0
      invariant forall j :: c1 <= j < c && r2 < nRows - 1 ==> g[below][j] != 0
    {
      if r1 > 0 && g[above][c] == 0 {
        assert Examined(m, above, c);
        return true;
      }
      if r2 < nRows - 1 && g[below][c] == 0 {
        assert Examined(m, below, c);
        return true;
      }
    }
    forall r, c | 0 <= r < |g| && 0 <= c < |g[r]| && Examined(m, r, c)
      ensures g[r][c] != 0
    {
      if r1 <= r <= r2 && c1 <= c <= c2 {
      } else if r1 <= r <= r2 {
        assert c == c1 - 1 || c == c2 + 1;
      } else {
        assert r == r1 - 1 || r == r2 + 1;
      }
    }
    return false;
  }

  /** A rectangle that itself contains a 0 is near an empty cell. */
  lemma ContainsZeroIsNear(g: Grid, m: Move, r: int, c: int)
    requires Rectangular(g) && FitsGrid(g, m) && Inside(m, r, c) && g[r][c] == 0
    ensures NearEmpty(g, m)
  {
    assert Examined(m, r, c);
  }

  /**
   * Only the cross-shaped neighbourhood counts: on the board `[[0, 5], [5, 5]]`
   * the single cell at row 1, column 1 is not near an empty cell although
   * its diagonal neighbour is 0.
   */
  lemma DiagonalNotExamined()
    ensures !NearEmpty([[0, 5], [5, 5]], Move(Cell(1, 1), Cell(1, 1)))
  {
    var g := [[0, 5], [5, 5]];
    var m := Move(Cell(1, 1), Cell(1, 1));
    forall r, c | 0 <= r < |g| && 0 <= c < |g[r]| && Examined(m, r, c)
      ensures g[r][c] != 0
    {
      assert (r, c) != (0, 0);
    }
  }

  /**
   * After a move, every rectangle that overlaps the cleared one is near an
   * empty cell: the preference steers the solvers towards the holes they
   * have already made.
   */
  lemma OverlapWithClearedIsNear(g: Grid, m: Move, m2: Move, r: int, c: int)
    requires Rectangular(g) && FitsGrid(g, m) && FitsGrid(g, m2)
    requires Inside(m, r, c) && Inside(m2, r, c)
    ensures NearEmpty(Apply(g, m).0, m2)
  {
    ApplyCells(g, m);
    assert Examined(m2, r, c);
  }

  // ---------------------------------------------------------------------
  // possible_actions
  // ---------------------------------------------------------------------

  /** The candidates near an empty cell, in their original order. */
  function NearEmptyOnly(g: Grid, cs: seq<Candidate>): (r: seq<Candidate>)
    ensures forall c :: c in r <==> c in cs && NearEmpty(g, c.ToMove())
    ensures |r| <= |cs|
    decreases |cs|
  {
    if cs == [] then []
    else
      var init, last := cs[..|cs| - 1], cs[|cs| - 1];
      assert cs == init + [last];
      NearEmptyOnly(g, init) + (if NearEmpty(g, last.ToMove()) then [last] else [])
  }

  /** Keeping a subsequence keeps the output order of the generator. */
  lemma {:induction false} NearEmptyOnlyRanked(g: Grid, cs: seq<Candidate>)
    requires StrictlyRanked(cs)
    ensures StrictlyRanked(NearEmptyOnly(g, cs))
    decreases |cs|
  {
    if cs != [] {
      var init, last := cs[..|cs| - 1], cs[|cs| - 1];
      NearEmptyOnlyRanked(g, init);
      var t := NearEmptyOnly(g, init);
      forall y | y in t ensures Ranked(y, last) {
        var k :| 0 <= k < |init| && init[k] == y;
        assert cs[k] == y;
      }
    }
  }

  /**
   * `possible_actions`: the candidates near an empty cell, or every
   * candidate when none of them is.
   */
  function Preferred(g: Grid, cs: seq<Candidate>): (r: seq<Candidate>)
    ensures |r| == 0 <==> |cs| == 0
    ensures forall c :: c in r <==>
              c in cs && (NearEmpty(g, c.ToMove()) || forall d :: d in cs ==> !NearEmpty(g, d.ToMove()))
  {
    var near := NearEmptyOnly(g, cs);
    if near == [] then
      assert forall d :: d in cs ==> !NearEmpty(g, d.ToMove()) by {
        forall d | d in cs ensures !NearEmpty(g, d.ToMove()) {
        }
      }
      cs
    else
      assert near[0] in near;
      near
  }

  lemma PreferredRanked(g: Grid, cs: seq<Candidate>)
    requires StrictlyRanked(cs)
    ensures StrictlyRanked(Preferred(g, cs))
  {
    NearEmptyOnlyRanked(g, cs);
  }

  /** The solvers' sort by priority leaves the filtered list as it is. */
  lemma PreferredSorted(g: Grid, available: seq<Candidate>)
    requires StrictlyRanked(available)
    ensures SortByPriority(Preferred(g, available)) == Preferred(g, available)
  {
    var p := Preferred(g, available);
    PreferredRanked(g, available);
    RankedSortedByPriority(p);
    SortByPriorityIdentity(p);
  }

  /** The filtering loop of the stack solvers, with its fall-back to the full list. */
  method PossibleActions(g: Grid, available: seq<Candidate>) returns (possible: seq<Candidate>)
    requires Rectangular(g) && forall c :: c in available ==> FitsGrid(g, c.ToMove())
    ensures possible == Preferred(g, available)
  {
    possible := [];
    for i := 0 to |available|
      invariant possible == NearEmptyOnly(g, available[..i])
    {
      assert available[i] in available;
      var near := ContainOrAdjacentToZero(g, available[i].topLeft, available[i].bottomRight);
      assert available[..i + 1] == available[..i] + [available[i]];
      if near {
        possible := possible + [available[i]];
      }
    }
    assert available[..|available|] == available;
    if possible == [] {
      possible := available;
    }
  }

  // ---------------------------------------------------------------------
  // The choice among all candidates of a board
  // ---------------------------------------------------------------------

  /**
   * `c` is a move the solvers may pick on `g`: a candidate near an empty cell,
   * or any candidate when no candidate is near one.
   */
  ghost predicate PreferredCandidate(g: Grid, c: Candidate)
    requires Rectangular(g)
  {
    IsCandidate(g, c) &&
    (NearEmpty(g, c.ToMove()) || forall d :: IsCandidate(g, d) ==> !NearEmpty(g, d.ToMove()))
  }

  /**
   * The first `k` entries of the sorted, filtered list are exactly the `k`
   * best preferred candidates: each is preferred, every preferred candidate
   * left out ranks after all of them, and when fewer than `k` are taken none
   * is left out. The sort by priority that the solvers apply first leaves
   * the list as it is.
   */
  lemma TopPreferred(g: Grid, available: seq<Candidate>, k: nat)
    requires Rectangular(g)
    requires forall c :: c in available <==> IsCandidate(g, c)
    requires StrictlyRanked(available)
    ensures SortByPriority(Preferred(g, available)) == Preferred(g, available)
    ensures var p := Preferred(g, available); var top := p[..if k < |p| then k else |p|];
      && (forall c :: c in top ==> PreferredCandidate(g, c))
      && (forall d, i :: PreferredCandidate(g, d) && d !in top && 0 <= i < |top| ==> Ranked(top[i], d))
      && (|top| < k ==> forall d :: PreferredCandidate(g, d) ==> d in top)
      && (k > 0 ==> (|top| == 0 <==> !HasMove(g)))
  {
    var p := Preferred(g, available);
    PreferredSorted(g, available);
    PreferredRanked(g, available);
    var top := p[..if k < |p| then k else |p|];
    forall d | PreferredCandidate(g, d) ensures d in p {
    }
    forall d, i | PreferredCandidate(g, d) && d !in top && 0 <= i < |top|
      ensures Ranked(top[i], d)
    {
      var j :| 0 <= j < |p| && p[j] == d;
      assert top == p[..|top|];
      assert top[i] == p[i];
    }
  }
}
