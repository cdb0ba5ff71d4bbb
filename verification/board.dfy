/**
 * The puzzle board and the one operation every solver performs on it:
 * selecting a rectangle and clearing every non-zero cell inside it.
 *
 * A grid is a list of rows of small integers; 0 marks a cleared cell.
 * Rectangles are inclusive (top-left, bottom-right) cell pairs, as in the
 * solvers' `((r1, c1), (r2, c2))` tuples.
 */
module Board {

  type Grid = seq<seq<int>>

  /** A `(row, col)` position, 0-indexed. */
  datatype Cell = Cell(row: nat, col: nat)

  /** An inclusive rectangle `((r1, c1), (r2, c2))`. */
  datatype Move = Move(topLeft: Cell, bottomRight: Cell)

  /** Number of columns, read from the first row as the solvers do. */
  function Cols(g: Grid): nat
  {
    if |g| == 0 then 0 else |g[0]|
  }

  /** Every row has as many cells as the first. */
  predicate Rectangular(g: Grid)
  {
    forall i :: 0 <= i < |g| ==> |g[i]| == Cols(g)
  }

  predicate SameShape(g: Grid, h: Grid)
  {
    Rectangular(h) && |h| == |g| && Cols(h) == Cols(g)
  }

  /** The rectangle is well-formed and lies inside a `rows` x `cols` board. */
  predicate Fits(m: Move, rows: nat, cols: nat)
  {
    m.topLeft.row <= m.bottomRight.row < rows && m.topLeft.col <= m.bottomRight.col < cols
  }

  predicate FitsGrid(g: Grid, m: Move)
  {
    Fits(m, |g|, Cols(g))
  }

  predicate AllFit(ms: seq<Move>, rows: nat, cols: nat)
  {
    forall i :: 0 <= i < |ms| ==> Fits(ms[i], rows, cols)
  }

  predicate Inside(m: Move, r: int, c: int)
  {
    m.topLeft.row <= r <= m.bottomRight.row && m.topLeft.col <= c <= m.bottomRight.col
  }

  // ---------------------------------------------------------------------
  // Sums over blocks of cells
  // ---------------------------------------------------------------------

  /** Sum of `row[lo..hi)`. */
  function RowSum(row: seq<int>, lo: nat, hi: nat): int
    requires lo <= hi <= |row|
    decreases hi
  {
    if lo == hi then 0 else RowSum(row, lo, hi - 1) + row[hi - 1]
  }

  /** Sum of the cells in rows `[top, bottom)` and columns `[left, right)`. */
  function BlockSum(g: Grid, top: nat, bottom: nat, left: nat, right: nat): int
    requires Rectangular(g) && top <= bottom <= |g| && left <= right <= Cols(g)
    decreases bottom
  {
    if top == bottom then 0 else BlockSum(g, top, bottom - 1, left, right) + RowSum(g[bottom - 1], left, right)
  }

  /** `ps[a][b]` of the solvers' prefix tables: the sum of rows `[0, a)` and columns `[0, b)`. */
  function Prefix(g: Grid, a: nat, b: nat): int
    requires Rectangular(g) && a <= |g| && b <= Cols(g)
  {
    BlockSum(g, 0, a, 0, b)
  }

  /** 1 where a cell holds 0 or 1 (the cells counted by a candidate's priority), else 0. */
  function PriorityMask(g: Grid): (h: Grid)
    ensures |h| == |g| && (forall i :: 0 <= i < |g| ==> |h[i]| == |g[i]|)
    ensures forall i, j :: 0 <= i < |g| && 0 <= j < |g[i]| ==> h[i][j] == (if g[i][j] == 0 || g[i][j] == 1 then 1 else 0)
    ensures Rectangular(g) ==> SameShape(g, h)
  {
    seq(|g|, i requires 0 <= i < |g| => seq(|g[i]|, j requires 0 <= j < |g[i]| => if g[i][j] == 0 || g[i][j] == 1 then 1 else 0))
  }

  /** 1 where a cell is non-zero, else 0. */
  function NonzeroMask(g: Grid): (h: Grid)
    ensures |h| == |g| && (forall i :: 0 <= i < |g| ==> |h[i]| == |g[i]|)
    ensures forall i, j :: 0 <= i < |g| && 0 <= j < |g[i]| ==> h[i][j] == (if g[i][j] != 0 then 1 else 0)
    ensures Rectangular(g) ==> SameShape(g, h)
  {
    seq(|g|, i requires 0 <= i < |g| => seq(|g[i]|, j requires 0 <= j < |g[i]| => if g[i][j] != 0 then 1 else 0))
  }

  /** Sum of the values inside the rectangle. */
  function RectSum(g: Grid, m: Move): int
    requires Rectangular(g) && FitsGrid(g, m)
  {
    BlockSum(g, m.topLeft.row, m.bottomRight.row + 1, m.topLeft.col, m.bottomRight.col + 1)
  }

  /** Number of cells inside the rectangle whose value is 0 or 1. */
  function RectPriority(g: Grid, m: Move): int
    requires Rectangular(g) && FitsGrid(g, m)
  {
    BlockSum(PriorityMask(g), m.topLeft.row, m.bottomRight.row + 1, m.topLeft.col, m.bottomRight.col + 1)
  }

  /** Number of non-zero cells inside the rectangle. */
  function RectNonzero(g: Grid, m: Move): int
    requires Rectangular(g) && FitsGrid(g, m)
  {
    BlockSum(NonzeroMask(g), m.topLeft.row, m.bottomRight.row + 1, m.topLeft.col, m.bottomRight.col + 1)
  }

  /** Number of non-zero cells on the whole board. */
  function NonzeroCount(g: Grid): int
    requires Rectangular(g)
  {
    BlockSum(NonzeroMask(g), 0, |g|, 0, Cols(g))
  }

  lemma NonzeroCountNonneg(g: Grid)
    requires Rectangular(g)
    ensures NonzeroCount(g) >= 0
  {
    BlockSumNonneg(NonzeroMask(g), 0, |g|, 0, Cols(g));
  }

  // ---------------------------------------------------------------------
  // Lemmas about block sums
  // ---------------------------------------------------------------------

  lemma {:induction false} RowSumSplit(row: seq<int>, lo: nat, mid: nat, hi: nat)
    requires lo <= mid <= hi <= |row|
    ensures RowSum(row, lo, hi) == RowSum(row, lo, mid) + RowSum(row, mid, hi)
    decreases hi
  {
    if hi > mid {
      RowSumSplit(row, lo, mid, hi - 1);
    }
  }

  /** Splitting a block between two row ranges. */
  lemma {:induction false} RowBandSplit(g: Grid, top: nat, mid: nat, bottom: nat, left: nat, right: nat)
    requires Rectangular(g) && top <= mid <= bottom <= |g| && left <= right <= Cols(g)
    ensures BlockSum(g, top, bottom, left, right) == BlockSum(g, top, mid, left, right) + BlockSum(g, mid, bottom, left, right)
    decreases bottom
  {
    if bottom > mid {
      RowBandSplit(g, top, mid, bottom - 1, left, right);
    }
  }

  /** Splitting a block between two column ranges. */
  lemma {:induction false} ColBandSplit(g: Grid, top: nat, bottom: nat, left: nat, mid: nat, right: nat)
    requires Rectangular(g) && top <= bottom <= |g| && left <= mid <= right <= Cols(g)
    ensures BlockSum(g, top, bottom, left, right) == BlockSum(g, top, bottom, left, mid) + BlockSum(g, top, bottom, mid, right)
    decreases bottom
  {
    if bottom > top {
      ColBandSplit(g, top, bottom - 1, left, mid, right);
      RowSumSplit(g[bottom - 1], left, mid, right);
    }
  }

  /** Two grids that agree on a block have the same sum over it. */
  lemma {:induction false} BlockSumAgree(g: Grid, h: Grid, top: nat, bottom: nat, left: nat, right: nat)
    requires Rectangular(g) && SameShape(g, h)
    requires top <= bottom <= |g| && left <= right <= Cols(g)
    requires forall i, j :: top <= i < bottom && left <= j < right ==> g[i][j] == h[i][j]
    ensures BlockSum(g, top, bottom, left, right) == BlockSum(h, top, bottom, left, right)
    decreases bottom
  {
    if bottom > top {
      BlockSumAgree(g, h, top, bottom - 1, left, right);
      RowSumAgree(g[bottom - 1], h[bottom - 1], left, right);
    }
  }

  lemma {:induction false} RowSumAgree(a: seq<int>, b: seq<int>, lo: nat, hi: nat)
    requires lo <= hi <= |a| == |b|
    requires forall j :: lo <= j < hi ==> a[j] == b[j]
    ensures RowSum(a, lo, hi) == RowSum(b, lo, hi)
    decreases hi
  {
    if hi > lo {
      RowSumAgree(a, b, lo, hi - 1);
    }
  }

  /** A block of zeros sums to zero. */
  lemma {:induction false} BlockSumZero(g: Grid, top: nat, bottom: nat, left: nat, right: nat)
    requires Rectangular(g) && top <= bottom <= |g| && left <= right <= Cols(g)
    requires forall i, j :: top <= i < bottom && left <= j < right ==> g[i][j] == 0
    ensures BlockSum(g, top, bottom, left, right) == 0
    decreases bottom
  {
    if bottom > top {
      BlockSumZero(g, top, bottom - 1, left, right);
      RowSumZero(g[bottom - 1], left, right);
    }
  }

  lemma {:induction false} RowSumZero(a: seq<int>, lo: nat, hi: nat)
    requires lo <= hi <= |a|
    requires forall j :: lo <= j < hi ==> a[j] == 0
    ensures RowSum(a, lo, hi) == 0
    decreases hi
  {
    if hi > lo {
      RowSumZero(a, lo, hi - 1);
    }
  }

  /** With no negative cell, one cell of at least 1 makes the block sum at least 1. */
  lemma {:induction false} BlockSumPositive(g: Grid, top: nat, bottom: nat, left: nat, right: nat, r: nat, c: nat)
    requires Rectangular(g) && top <= bottom <= |g| && left <= right <= Cols(g)
    requires forall i, j :: top <= i < bottom && left <= j < right ==> g[i][j] >= 0
    requires top <= r < bottom && left <= c < right && g[r][c] >= 1
    ensures BlockSum(g, top, bottom, left, right) >= 1
    decreases bottom
  {
    if r < bottom - 1 {
      BlockSumPositive(g, top, bottom - 1, left, right, r, c);
      RowSumNonneg(g[bottom - 1], left, right);
    } else {
      BlockSumNonneg(g, top, bottom - 1, left, right);
      RowSumPositive(g[bottom - 1], left, right, c);
    }
  }

  lemma {:induction false} BlockSumNonneg(g: Grid, top: nat, bottom: nat, left: nat, right: nat)
    requires Rectangular(g) && top <= bottom <= |g| && left <= right <= Cols(g)
    requires forall i, j :: top <= i < bottom && left <= j < right ==> g[i][j] >= 0
    ensures BlockSum(g, top, bottom, left, right) >= 0
    decreases bottom
  {
    if bottom > top {
      BlockSumNonneg(g, top, bottom - 1, left, right);
      RowSumNonneg(g[bottom - 1], left, right);
    }
  }

  lemma {:induction false} RowSumNonneg(a: seq<int>, lo: nat, hi: nat)
    requires lo <= hi <= |a|
    requires forall j :: lo <= j < hi ==> a[j] >= 0
    ensures RowSum(a, lo, hi) >= 0
    decreases hi
  {
    if hi > lo {
      RowSumNonneg(a, lo, hi - 1);
    }
  }

  lemma {:induction false} RowSumPositive(a: seq<int>, lo: nat, hi: nat, c: nat)
    requires lo <= hi <= |a|
    requires forall j :: lo <= j < hi ==> a[j] >= 0
    requires lo <= c < hi && a[c] >= 1
    ensures RowSum(a, lo, hi) >= 1
    decreases hi
  {
    if c < hi - 1 {
      RowSumPositive(a, lo, hi - 1, c);
    } else {
      RowSumNonneg(a, lo, hi - 1);
    }
  }

  /**
   * The O(1) rectangle sum the move generator reads off a prefix table:
   * `ps[r2+1][c2+1] - ps[r1][c2+1] - ps[r2+1][c1] + ps[r1][c1]`.
   */
  lemma InclusionExclusion(g: Grid, top: nat, bottom: nat, left: nat, right: nat)
    requires Rectangular(g) && top <= bottom <= |g| && left <= right <= Cols(g)
    ensures BlockSum(g, top, bottom, left, right)
         == Prefix(g, bottom, right) - Prefix(g, top, right) - Prefix(g, bottom, left) + Prefix(g, top, left)
  {
    RowBandSplit(g, 0, top, bottom, 0, right);
    RowBandSplit(g, 0, top, bottom, 0, left);
    ColBandSplit(g, top, bottom, 0, left, right);
  }

  /** The recurrence that fills a prefix table cell by cell. */
  lemma PrefixStep(g: Grid, i: nat, j: nat)
    requires Rectangular(g) && i < |g| && j < Cols(g)
    ensures Prefix(g, i + 1, j + 1) == g[i][j] + Prefix(g, i, j + 1) + Prefix(g, i + 1, j) - Prefix(g, i, j)
  {
  }

  /** The border row and column of a prefix table are zero. */
  lemma {:induction false} PrefixBorder(g: Grid, a: nat, b: nat)
    requires Rectangular(g) && a <= |g| && b <= Cols(g)
    ensures a == 0 || b == 0 ==> Prefix(g, a, b) == 0
  {
    if a == 0 || b == 0 {
      BlockSumZeroWidth(g, 0, a, b);
    }
  }

  lemma {:induction false} BlockSumZeroWidth(g: Grid, top: nat, bottom: nat, b: nat)
    requires Rectangular(g) && top <= bottom <= |g| && b <= Cols(g)
    requires top == bottom || b == 0
    ensures BlockSum(g, top, bottom, 0, b) == 0
    decreases bottom
  {
    if bottom > top {
      BlockSumZeroWidth(g, top, bottom - 1, b);
    }
  }

  // ---------------------------------------------------------------------
  // Applying a move
  // ---------------------------------------------------------------------

  /**
   * Clearing a rectangle: a fresh grid with every cell inside the rectangle
   * set to 0, paired with the number of cells that were non-zero there (the
   * score the move earns). The argument grid is a value and stays as it was.
   */
  function Apply(g: Grid, m: Move): (res: (Grid, int))
    requires Rectangular(g) && FitsGrid(g, m)
    ensures SameShape(g, res.0)
    ensures res.1 == RectNonzero(g, m)
  {
    var h := seq(|g|, i requires 0 <= i < |g| =>
                   seq(|g[i]|, j requires 0 <= j < |g[i]| => if Inside(m, i, j) then 0 else g[i][j]));
    (h, RectNonzero(g, m))
  }

  /** The score of a move plus the non-zero cells it leaves is the non-zero count before it. */
  lemma ApplyCount(g: Grid, m: Move)
    requires Rectangular(g) && FitsGrid(g, m)
    ensures Apply(g, m).1 + NonzeroCount(Apply(g, m).0) == NonzeroCount(g)
  {
    ApplyCells(g, m);
    ApplyConserves(g, m, Apply(g, m).0);
  }

  /** Cells inside the rectangle become 0; every other cell keeps its value. */
  lemma ApplyCells(g: Grid, m: Move)
    requires Rectangular(g) && FitsGrid(g, m)
    ensures forall i, j :: 0 <= i < |g| && 0 <= j < Cols(g) ==>
              Apply(g, m).0[i][j] == (if Inside(m, i, j) then 0 else g[i][j])
  {
  }

  lemma ApplyConserves(g: Grid, m: Move, h: Grid)
    requires Rectangular(g) && FitsGrid(g, m) && SameShape(g, h)
    requires forall i, j :: 0 <= i < |g| && 0 <= j < Cols(g) ==> h[i][j] == (if Inside(m, i, j) then 0 else g[i][j])
    ensures RectNonzero(g, m) + NonzeroCount(h) == NonzeroCount(g)
  {
    var a, b := NonzeroMask(g), NonzeroMask(h);
    var rows, cols := |g|, Cols(g);
    var r1, r2, c1, c2 := m.topLeft.row, m.bottomRight.row + 1, m.topLeft.col, m.bottomRight.col + 1;
    assert |a| == |b| == rows && Cols(a) == Cols(b) == cols;
    FiveParts(a, rows, cols, r1, r2, c1, c2);
    FiveParts(b, rows, cols, r1, r2, c1, c2);
    BandsAgree(g, m, h);
    assert NonzeroCount(h) == BlockSum(b, 0, rows, 0, cols);
    assert NonzeroCount(g) == BlockSum(a, 0, rows, 0, cols);
  }

  /** A board's sum is the sum of the rectangle and of the four bands around it. */
  lemma FiveParts(x: Grid, rows: nat, cols: nat, r1: nat, r2: nat, c1: nat, c2: nat)
    requires Rectangular(x) && rows == |x| && cols == Cols(x) && r1 <= r2 <= rows && c1 <= c2 <= cols
    ensures BlockSum(x, 0, rows, 0, cols)
         == BlockSum(x, 0, r1, 0, cols) + BlockSum(x, r2, rows, 0, cols)
          + BlockSum(x, r1, r2, 0, c1) + BlockSum(x, r1, r2, c1, c2) + BlockSum(x, r1, r2, c2, cols)
  {
    RowBandSplit(x, 0, r1, rows, 0, cols);
    RowBandSplit(x, r1, r2, rows, 0, cols);
    ColBandSplit(x, r1, r2, 0, c1, cols);
    ColBandSplit(x, r1, r2, c1, c2, cols);
  }

  /** The four bands around the rectangle count the same before and after; the rectangle counts 0 after. */
  lemma BandsAgree(g: Grid, m: Move, h: Grid)
    requires Rectangular(g) && FitsGrid(g, m) && SameShape(g, h)
    requires forall i, j :: 0 <= i < |g| && 0 <= j < Cols(g) ==> h[i][j] == (if Inside(m, i, j) then 0 else g[i][j])
    ensures var a, b, rows, cols := NonzeroMask(g), NonzeroMask(h), |g|, Cols(g);
      var r1, r2, c1, c2 := m.topLeft.row, m.bottomRight.row + 1, m.topLeft.col, m.bottomRight.col + 1;
      && BlockSum(a, 0, r1, 0, cols) == BlockSum(b, 0, r1, 0, cols)
      && BlockSum(a, r2, rows, 0, cols) == BlockSum(b, r2, rows, 0, cols)
      && BlockSum(a, r1, r2, 0, c1) == BlockSum(b, r1, r2, 0, c1)
      && BlockSum(a, r1, r2, c2, cols) == BlockSum(b, r1, r2, c2, cols)
      && BlockSum(b, r1, r2, c1, c2) == 0
  {
    var a, b, rows, cols := NonzeroMask(g), NonzeroMask(h), |g|, Cols(g);
    var r1, r2, c1, c2 := m.topLeft.row, m.bottomRight.row + 1, m.topLeft.col, m.bottomRight.col + 1;
    MasksAgreeOutside(g, m, h);
    BlockSumAgree(a, b, 0, r1, 0, cols);
    BlockSumAgree(a, b, r2, rows, 0, cols);
    BlockSumAgree(a, b, r1, r2, 0, c1);
    BlockSumAgree(a, b, r1, r2, c2, cols);
    BlockSumZero(b, r1, r2, c1, c2);
  }

  /** Outside the rectangle the non-zero masks before and after agree; inside, the mask after is 0. */
  lemma MasksAgreeOutside(g: Grid, m: Move, h: Grid)
    requires Rectangular(g) && FitsGrid(g, m) && SameShape(g, h)
    requires forall i, j :: 0 <= i < |g| && 0 <= j < Cols(g) ==> h[i][j] == (if Inside(m, i, j) then 0 else g[i][j])
    ensures forall i, j :: 0 <= i < |g| && 0 <= j < Cols(g) && !Inside(m, i, j) ==> NonzeroMask(g)[i][j] == NonzeroMask(h)[i][j]
    ensures forall i, j :: 0 <= i < |g| && 0 <= j < Cols(g) && Inside(m, i, j) ==> NonzeroMask(h)[i][j] == 0
  {
  }

  /** A rectangle whose values sum to 10 holds a non-zero cell, so clearing it scores at least 1. */
  lemma ApplyClearsAtLeastOne(g: Grid, m: Move)
    requires Rectangular(g) && FitsGrid(g, m) && RectSum(g, m) == 10
    ensures Apply(g, m).1 >= 1
    ensures NonzeroCount(Apply(g, m).0) < NonzeroCount(g)
  {
    var r1, r2, c1, c2 := m.topLeft.row, m.bottomRight.row + 1, m.topLeft.col, m.bottomRight.col + 1;
    if forall i, j :: r1 <= i < r2 && c1 <= j < c2 ==> g[i][j] == 0 {
      BlockSumZero(g, r1, r2, c1, c2);
      assert false;
    }
    var i, j :| r1 <= i < r2 && c1 <= j < c2 && g[i][j] != 0;
    var a := NonzeroMask(g);
    BlockSumPositive(a, r1, r2, c1, c2, i, j);
    ApplyCount(g, m);
  }

  /** Clearing the same rectangle again changes nothing and scores 0. */
  lemma ApplyTwice(g: Grid, m: Move)
    requires Rectangular(g) && FitsGrid(g, m)
    ensures Apply(Apply(g, m).0, m) == (Apply(g, m).0, 0)
  {
    var h := Apply(g, m).0;
    var h2 := Apply(h, m).0;
    ApplyCells(g, m);
    ApplyCells(h, m);
    forall i | 0 <= i < |h| ensures h2[i] == h[i] {
      assert |h2[i]| == |h[i]|;
    }
    var a := NonzeroMask(h);
    forall i, j | m.topLeft.row <= i < m.bottomRight.row + 1 && m.topLeft.col <= j < m.bottomRight.col + 1
      ensures a[i][j] == 0
    {
      assert Inside(m, i, j);
    }
    BlockSumZero(a, m.topLeft.row, m.bottomRight.row + 1, m.topLeft.col, m.bottomRight.col + 1);
    assert h2 == h;
    assert Apply(h, m).1 == 0;
  }

  // ---------------------------------------------------------------------
  // Replaying a move sequence
  // ---------------------------------------------------------------------

  /** Applies the moves in order from `g`; the final grid and the total score. */
  function Replay(g: Grid, ms: seq<Move>): (res: (Grid, int))
    requires Rectangular(g) && AllFit(ms, |g|, Cols(g))
    ensures SameShape(g, res.0)
    decreases |ms|
  {
    if ms == [] then (g, 0)
    else
      var first := Apply(g, ms[0]);
      var rest := Replay(first.0, ms[1..]);
      (rest.0, first.1 + rest.1)
  }

  /** A replay's score plus the non-zero cells it leaves is the non-zero count of the starting board. */
  lemma {:induction false} ReplayCount(g: Grid, ms: seq<Move>)
    requires Rectangular(g) && AllFit(ms, |g|, Cols(g))
    ensures Replay(g, ms).1 + NonzeroCount(Replay(g, ms).0) == NonzeroCount(g)
    decreases |ms|
  {
    if ms != [] {
      AllFitTail(ms, |g|, Cols(g));
      ApplyCount(g, ms[0]);
      ReplayCount(Apply(g, ms[0]).0, ms[1..]);
    }
  }

  /** Every move of the sequence selects a rectangle summing to exactly 10 on the grid it is applied to. */
  predicate LegalFrom(g: Grid, ms: seq<Move>)
    requires Rectangular(g)
    decreases |ms|
  {
    ms == [] || (FitsGrid(g, ms[0]) && RectSum(g, ms[0]) == 10 && LegalFrom(Apply(g, ms[0]).0, ms[1..]))
  }

  lemma {:induction false} LegalFits(g: Grid, ms: seq<Move>)
    requires Rectangular(g) && LegalFrom(g, ms)
    ensures AllFit(ms, |g|, Cols(g))
    decreases |ms|
  {
    if ms != [] {
      LegalFits(Apply(g, ms[0]).0, ms[1..]);
      forall i | 0 <= i < |ms| ensures Fits(ms[i], |g|, Cols(g)) {
        if i > 0 { assert ms[i] == ms[1..][i - 1]; }
      }
    }
  }

  lemma AllFitTail(ms: seq<Move>, rows: nat, cols: nat)
    requires ms != [] && AllFit(ms, rows, cols)
    ensures Fits(ms[0], rows, cols) && AllFit(ms[1..], rows, cols)
  {
    forall i | 0 <= i < |ms[1..]| ensures Fits(ms[1..][i], rows, cols) { assert ms[1..][i] == ms[i + 1]; }
  }

  lemma AllFitAppend(ms: seq<Move>, m: Move, rows: nat, cols: nat)
    requires AllFit(ms, rows, cols) && Fits(m, rows, cols)
    ensures AllFit(ms + [m], rows, cols)
  {
    forall i | 0 <= i < |ms + [m]| ensures Fits((ms + [m])[i], rows, cols) {
      if i < |ms| { assert (ms + [m])[i] == ms[i]; }
    }
  }

  /** Replaying one more move extends the replay by that move's application. */
  lemma {:induction false} ReplayAppend(g: Grid, ms: seq<Move>, m: Move)
    requires Rectangular(g) && AllFit(ms, |g|, Cols(g)) && Fits(m, |g|, Cols(g))
    ensures AllFit(ms + [m], |g|, Cols(g))
    ensures Replay(g, ms + [m]).0 == Apply(Replay(g, ms).0, m).0
    ensures Replay(g, ms + [m]).1 == Replay(g, ms).1 + Apply(Replay(g, ms).0, m).1
    decreases |ms|
  {
    AllFitAppend(ms, m, |g|, Cols(g));
    if ms != [] {
      ReplayAppendStep(g, ms, m);
    } else {
      assert ms + [m] == [m];
    }
  }

  /** The inductive step of `ReplayAppend`: peel the first move off both replays. */
  lemma {:induction false} ReplayAppendStep(g: Grid, ms: seq<Move>, m: Move)
    requires Rectangular(g) && ms != [] && AllFit(ms, |g|, Cols(g)) && Fits(m, |g|, Cols(g))
    requires AllFit(ms + [m], |g|, Cols(g))
    ensures Replay(g, ms + [m]).0 == Apply(Replay(g, ms).0, m).0
    ensures Replay(g, ms + [m]).1 == Replay(g, ms).1 + Apply(Replay(g, ms).0, m).1
    decreases |ms|, 0
  {
    var tail := ms[1..];
    AllFitTail(ms, |g|, Cols(g));
    ReplayAppend(Apply(g, ms[0]).0, tail, m);
    ReplayCons(g, ms, ms[0], tail);
    assert ms + [m] == [ms[0]] + (tail + [m]);
    ReplayCons(g, ms + [m], ms[0], tail + [m]);
  }

  /** `Replay` on a sequence that starts with `a`: apply `a`, then replay the rest on the board it leaves. */
  lemma ReplayCons(g: Grid, ms: seq<Move>, a: Move, rest: seq<Move>)
    requires Rectangular(g) && ms == [a] + rest
    requires Fits(a, |g|, Cols(g)) && AllFit(rest, |g|, Cols(g)) && AllFit(ms, |g|, Cols(g))
    ensures Replay(g, ms).0 == Replay(Apply(g, a).0, rest).0
    ensures Replay(g, ms).1 == Apply(g, a).1 + Replay(Apply(g, a).0, rest).1
  {
    assert ms[0] == a && ms[1..] == rest;
  }

  /** A legal sequence extended by a move legal on the grid it reaches is legal. */
  lemma {:induction false} LegalAppend(g: Grid, ms: seq<Move>, m: Move)
    requires Rectangular(g) && LegalFrom(g, ms) && AllFit(ms, |g|, Cols(g))
    requires FitsGrid(g, m) && RectSum(Replay(g, ms).0, m) == 10
    ensures LegalFrom(g, ms + [m])
    decreases |ms|
  {
    if ms == [] {
      assert ms + [m] == [m];
      assert [m][1..] == [];
    } else {
      assert (ms + [m])[0] == ms[0];
      assert (ms + [m])[1..] == ms[1..] + [m];
      AllFitTail(ms, |g|, Cols(g));
      LegalAppend(Apply(g, ms[0]).0, ms[1..], m);
    }
  }

  /** Each legal move clears at least one cell, so a legal sequence scores at least its length. */
  lemma {:induction false} LegalScoresAtLeastLength(g: Grid, ms: seq<Move>)
    requires Rectangular(g) && LegalFrom(g, ms) && AllFit(ms, |g|, Cols(g))
    ensures Replay(g, ms).1 >= |ms|
    decreases |ms|
  {
    if ms != [] {
      ApplyClearsAtLeastOne(g, ms[0]);
      AllFitTail(ms, |g|, Cols(g));
      LegalScoresAtLeastLength(Apply(g, ms[0]).0, ms[1..]);
    }
  }

  /** `moves` is a legal sequence from `g` whose replay scores exactly `score`. */
  ghost predicate Achieves(g: Grid, moves: seq<Move>, score: int)
    requires Rectangular(g)
  {
    AllFit(moves, |g|, Cols(g)) && LegalFrom(g, moves) && Replay(g, moves).1 == score
  }

  /** Any achieved score lies between 0 and the number of non-zero cells of the board. */
  lemma AchievesBounds(g: Grid, moves: seq<Move>, score: int)
    requires Rectangular(g) && Achieves(g, moves, score)
    ensures |moves| <= score <= NonzeroCount(g)
  {
    LegalScoresAtLeastLength(g, moves);
    var fin := Replay(g, moves).0;
    ReplayCount(g, moves);
    BlockSumNonneg(NonzeroMask(fin), 0, |fin|, 0, Cols(fin));
  }

  // ---------------------------------------------------------------------
  // The inline clearing loop of the solvers
  // ---------------------------------------------------------------------

  /**
   * The inner loop of the clearing: zero `row[c1..c2]`, counting the cells
   * that were non-zero (`mask` is 1 exactly at those).
   */
  method ClearRow(row: seq<int>, c1: nat, c2: nat, ghost mask: seq<int>) returns (row': seq<int>, count: int)
    requires c1 <= c2 < |row| == |mask|
    requires forall j :: 0 <= j < |row| ==> mask[j] == (if row[j] != 0 then 1 else 0)
    ensures row' == Cleared(row, c1, c2)
    ensures count == RowSum(mask, c1, c2 + 1)
  {
    row', count := row, 0;
    for c := c1 to c2 + 1
      invariant |row'| == |row|
      invariant forall j :: 0 <= j < |row| ==> row'[j] == (if c1 <= j < c then 0 else row[j])
      invariant count == RowSum(mask, c1, c)
    {
      if row'[c] != 0 {
        count := count + 1;
      }
      row' := row'[c := 0];
    }
  }

  /** A row with columns `c1..c2` set to 0. */
  function Cleared(row: seq<int>, c1: nat, c2: nat): (r: seq<int>)
    ensures |r| == |row| && forall j :: 0 <= j < |row| ==> r[j] == (if c1 <= j <= c2 then 0 else row[j])
  {
    seq(|row|, j requires 0 <= j < |row| => if c1 <= j <= c2 then 0 else row[j])
  }

  /** Clearing columns `c1..c2` of rows `r1..r2` gives the board of `Apply`. */
  lemma ClearedRowsApply(g: Grid, m: Move, h: Grid)
    requires Rectangular(g) && FitsGrid(g, m) && |h| == |g|
    requires forall i :: 0 <= i < |g| ==>
               h[i] == (if m.topLeft.row <= i <= m.bottomRight.row then Cleared(g[i], m.topLeft.col, m.bottomRight.col) else g[i])
    ensures h == Apply(g, m).0
  {
    var a := Apply(g, m).0;
    ApplyCells(g, m);
    forall i | 0 <= i < |g| ensures h[i] == a[i] {
      assert |h[i]| == |a[i]|;
    }
  }

  /**
   * The nested loop every solver inlines: copy the grid, then for every cell
   * of the rectangle count it if it is non-zero and set it to 0.
   */
  method ClearRect(g: Grid, m: Move) returns (newGrid: Grid, addScore: int)
    requires Rectangular(g) && FitsGrid(g, m)
    ensures newGrid == Apply(g, m).0 && addScore == Apply(g, m).1
  {
    newGrid, addScore := ClearRows(g, m);
    ClearedAll(g, m, newGrid, addScore);
  }

  /** The outer loop of the clearing, row by row over the rectangle. */
  method ClearRows(g: Grid, m: Move) returns (h: Grid, count: int)
    requires Rectangular(g) && FitsGrid(g, m)
    ensures h == ClearedUpTo(g, m, m.bottomRight.row + 1)
    ensures count == BlockSum(NonzeroMask(g), m.topLeft.row, m.bottomRight.row + 1, m.topLeft.col, m.bottomRight.col + 1)
  {
    h, count := g, 0;
    ClearedStart(g, m);
    for r := m.topLeft.row to m.bottomRight.row + 1
      invariant h == ClearedUpTo(g, m, r)
      invariant count == BlockSum(NonzeroMask(g), m.topLeft.row, r, m.topLeft.col, m.bottomRight.col + 1)
    {
      h, count := ClearStep(g, m, r, h, count);
    }
  }

  lemma ClearedStart(g: Grid, m: Move)
    requires Rectangular(g) && FitsGrid(g, m)
    ensures g == ClearedUpTo(g, m, m.topLeft.row)
    ensures BlockSum(NonzeroMask(g), m.topLeft.row, m.topLeft.row, m.topLeft.col, m.bottomRight.col + 1) == 0
  {
    var e := ClearedUpTo(g, m, m.topLeft.row);
    assert forall i :: 0 <= i < |g| ==> e[i] == g[i];
  }

  lemma ClearedAll(g: Grid, m: Move, h: Grid, count: int)
    requires Rectangular(g) && FitsGrid(g, m)
    requires h == ClearedUpTo(g, m, m.bottomRight.row + 1)
    requires count == BlockSum(NonzeroMask(g), m.topLeft.row, m.bottomRight.row + 1, m.topLeft.col, m.bottomRight.col + 1)
    ensures h == Apply(g, m).0 && count == Apply(g, m).1
  {
    ClearedRowsApply(g, m, h);
  }

  /** The board of the clearing loop before row `r`: rows `r1..r-1` cleared, the others as in `g`. */
  function ClearedUpTo(g: Grid, m: Move, r: nat): (h: Grid)
  {
    seq(|g|, i requires 0 <= i < |g| =>
      if m.topLeft.row <= i < r then Cleared(g[i], m.topLeft.col, m.bottomRight.col) else g[i])
  }

  /** One pass of the outer clearing loop: clear row `r` and add its count. */
  method ClearStep(g: Grid, m: Move, r: nat, h: Grid, count: int) returns (h': Grid, count': int)
    requires Rectangular(g) && FitsGrid(g, m) && m.topLeft.row <= r <= m.bottomRight.row
    requires h == ClearedUpTo(g, m, r)
    requires count == BlockSum(NonzeroMask(g), m.topLeft.row, r, m.topLeft.col, m.bottomRight.col + 1)
    ensures h' == ClearedUpTo(g, m, r + 1)
    ensures count' == BlockSum(NonzeroMask(g), m.topLeft.row, r + 1, m.topLeft.col, m.bottomRight.col + 1)
  {
    ghost var mask := NonzeroMask(g);
    assert forall j :: 0 <= j < |g[r]| ==> mask[r][j] == (if g[r][j] != 0 then 1 else 0);
    var row, n := ClearRow(g[r], m.topLeft.col, m.bottomRight.col, mask[r]);
    h', count' := h[r := row], count + n;
    assert h' == ClearedUpTo(g, m, r + 1) by {
      var e := ClearedUpTo(g, m, r + 1);
      forall i | 0 <= i < |g| ensures h'[i] == e[i] { }
    }
  }
}
