/**
 * The part of `solve` that decides which moves of a found sequence are
 * dragged on screen and where each drag starts and ends. The mouse calls and
 * the pause between them are not part of this model.
 */
module Drag {
  import opened Board

  /** A located digit image: `(left, top, width, height)` in pixels. */
  datatype Box = Box(left: int, top: int, width: int, height: int)

  /** One mouse drag, from `(startX, startY)` to `(endX, endY)`. */
  datatype Drag = Drag(startX: int, startY: int, endX: int, endY: int)

  /** The drags performed, and whether the loop then stopped with an `IndexError`. */
  datatype Dragging = Dragging(drags: seq<Drag>, raised: bool)

  type PosDict = map<(int, int), Box>

  function Key(c: Cell): (int, int)
  {
    (c.row, c.col)
  }

  /**
   * The centre of a box, `left + width // 2`, `top + height // 2`; floor
   * division by 2 is Dafny's `/ 2`, since the divisor is positive.
   */
  function CentreX(b: Box): int
  {
    b.left + b.width / 2
  }

  function CentreY(b: Box): int
  {
    b.top + b.height / 2
  }

  /** Both corners of the move have a located box. */
  predicate Known(m: Move, posDict: PosDict)
  {
    Key(m.topLeft) in posDict && Key(m.bottomRight) in posDict
  }

  /** `initial_grid[r1][c1]` exists. */
  predicate CornerInGrid(m: Move, init: Grid)
  {
    m.topLeft.row < |init| && m.topLeft.col < |init[m.topLeft.row]|
  }

  /** The lookup `initial_grid[r1][c1]` of a move with known corners raises `IndexError`. */
  predicate Faulty(m: Move, posDict: PosDict, init: Grid)
  {
    Known(m, posDict) && !CornerInGrid(m, init)
  }

  /** The move is dragged: both corners located and the top-left cell of the initial board non-zero. */
  predicate Kept(m: Move, posDict: PosDict, init: Grid)
  {
    Known(m, posDict) && CornerInGrid(m, init) && init[m.topLeft.row][m.topLeft.col] != 0
  }

  /**
   * The drag for a move: from 10 pixels above and left of the first
   * corner's centre to 10 below and right of the second's; when the first
   * centre is above and left of the second, the dragged box holds both
   * centres with that margin and spans at least 20 pixels each way.
   */
  function DragFor(m: Move, posDict: PosDict): (d: Drag)
    requires Known(m, posDict)
    ensures var b1, b2 := posDict[Key(m.topLeft)], posDict[Key(m.bottomRight)];
      d.startX + 10 == CentreX(b1) && CentreX(b2) + 10 == d.endX &&
      d.startY + 10 == CentreY(b1) && CentreY(b2) + 10 == d.endY
    ensures var b1, b2 := posDict[Key(m.topLeft)], posDict[Key(m.bottomRight)];
      CentreX(b1) <= CentreX(b2) && CentreY(b1) <= CentreY(b2) ==>
        d.endX - d.startX >= 20 && d.endY - d.startY >= 20
  {
    var b1, b2 := posDict[Key(m.topLeft)], posDict[Key(m.bottomRight)];
    Drag(CentreX(b1) - 10, CentreY(b1) - 10, CentreX(b2) + 10, CentreY(b2) + 10)
  }

  /**
   * `solve(move_sequence, pos_dict, initial_grid, difficulty)` as a
   * filter-map over the moves: a move with a corner missing from `pos_dict`
   * is skipped, so is one whose top-left cell of the initial board is 0;
   * the others are dragged in order. A missing `initial_grid[r1][c1]`
   * raises, ending the loop. At most one drag per move; `SolveExact` and
   * `SolveRaises` say which drags and when the loop raises.
   */
  function Solve(moves: seq<Move>, posDict: PosDict, init: Grid): (r: Dragging)
    ensures |r.drags| <= |moves|
    ensures r.raised ==> moves != []
    decreases |moves|
  {
    if moves == [] then Dragging([], false)
    else
      var m := moves[0];
      if !Known(m, posDict) then Solve(moves[1..], posDict, init)
      else if !CornerInGrid(m, init) then Dragging([], true)
      else if init[m.topLeft.row][m.topLeft.col] == 0 then Solve(moves[1..], posDict, init)
      else
        var r := Solve(moves[1..], posDict, init);
        Dragging([DragFor(m, posDict)] + r.drags, r.raised)
  }

  /**
   * The drags are exactly those of the kept moves, in sequence order, up to
   * the first move that raises: `idx` lists the positions of the dragged moves.
   */
  lemma {:induction false} SolveExact(moves: seq<Move>, posDict: PosDict, init: Grid) returns (idx: seq<nat>)
    ensures Lists(moves, posDict, init, Solve(moves, posDict, init).drags, idx)
    decreases |moves|
  {
    if moves == [] {
      idx := [];
    } else if Faulty(moves[0], posDict, init) {
      ListsFault(moves, posDict, init);
      idx := [];
    } else {
      var rest := SolveExact(moves[1..], posDict, init);
      if Kept(moves[0], posDict, init) {
        ListsKeep(moves, posDict, init, Solve(moves[1..], posDict, init).drags, rest);
        idx := [0] + Shift(rest);
      } else {
        ListsSkip(moves, posDict, init, Solve(moves[1..], posDict, init).drags, rest);
        idx := Shift(rest);
      }
    }
  }

  /** The loop raises exactly when some move has known corners and a top-left cell outside the board. */
  lemma {:induction false} SolveRaises(moves: seq<Move>, posDict: PosDict, init: Grid)
    ensures Solve(moves, posDict, init).raised <==> exists i :: 0 <= i < |moves| && Faulty(moves[i], posDict, init)
    decreases |moves|
  {
    if moves != [] {
      var rest := moves[1..];
      SolveRaises(rest, posDict, init);
      if exists i :: 0 <= i < |rest| && Faulty(rest[i], posDict, init) {
        var i :| 0 <= i < |rest| && Faulty(rest[i], posDict, init);
        assert moves[i + 1] == rest[i];
      }
      if exists i :: 0 <= i < |moves| && Faulty(moves[i], posDict, init) {
        var i :| 0 <= i < |moves| && Faulty(moves[i], posDict, init);
        if i > 0 {
          assert rest[i - 1] == moves[i];
        }
      }
    }
  }

  /** No move before position `i` raises. */
  ghost predicate NoFaultBefore(moves: seq<Move>, posDict: PosDict, init: Grid, i: int)
  {
    forall j :: 0 <= j < i && j < |moves| ==> !Faulty(moves[j], posDict, init)
  }

  /**
   * `idx` lists, strictly increasing, the positions of the moves that give
   * `drags`: each is kept and has no raising move before it, and every kept
   * move with no raising move before it is listed.
   */
  ghost predicate Lists(moves: seq<Move>, posDict: PosDict, init: Grid, drags: seq<Drag>, idx: seq<nat>)
  {
    |idx| == |drags| &&
    (forall k :: 0 <= k < |idx| ==> idx[k] < |moves| && Kept(moves[idx[k]], posDict, init) &&
                                    drags[k] == DragFor(moves[idx[k]], posDict) &&
                                    NoFaultBefore(moves, posDict, init, idx[k])) &&
    (forall k, l :: 0 <= k < l < |idx| ==> idx[k] < idx[l]) &&
    (forall i :: 0 <= i < |moves| && Kept(moves[i], posDict, init) && NoFaultBefore(moves, posDict, init, i) ==> i in idx)
  }

  function Shift(idx: seq<nat>): (r: seq<nat>)
    ensures |r| == |idx| && forall k :: 0 <= k < |idx| ==> r[k] == idx[k] + 1
  {
    seq(|idx|, k requires 0 <= k < |idx| => idx[k] + 1)
  }

  lemma NoFaultShift(moves: seq<Move>, posDict: PosDict, init: Grid, i: int)
    requires moves != [] && !Faulty(moves[0], posDict, init) && 1 <= i
    ensures NoFaultBefore(moves, posDict, init, i) <==> NoFaultBefore(moves[1..], posDict, init, i - 1)
  {
    assert forall j :: 1 <= j < |moves| ==> moves[j] == moves[1..][j - 1];
  }

  /** A first move that is skipped shifts the listing of the rest by one. */
  lemma ListsSkip(moves: seq<Move>, posDict: PosDict, init: Grid, drags: seq<Drag>, idx: seq<nat>)
    requires moves != [] && !Kept(moves[0], posDict, init) && !Faulty(moves[0], posDict, init)
    requires Lists(moves[1..], posDict, init, drags, idx)
    ensures Lists(moves, posDict, init, drags, Shift(idx))
  {
    var rest, sh := moves[1..], Shift(idx);
    forall k | 0 <= k < |sh|
      ensures sh[k] < |moves| && Kept(moves[sh[k]], posDict, init) && drags[k] == DragFor(moves[sh[k]], posDict)
      ensures NoFaultBefore(moves, posDict, init, sh[k])
    {
      assert moves[sh[k]] == rest[idx[k]];
      NoFaultShift(moves, posDict, init, sh[k]);
    }
    forall i | 0 <= i < |moves| && Kept(moves[i], posDict, init) && NoFaultBefore(moves, posDict, init, i)
      ensures i in sh
    {
      assert i > 0 && moves[i] == rest[i - 1];
      NoFaultShift(moves, posDict, init, i);
      var k :| 0 <= k < |idx| && idx[k] == i - 1;
      assert sh[k] == i;
    }
  }

  /** A first move that is dragged puts position 0 in front of the shifted listing of the rest. */
  lemma ListsKeep(moves: seq<Move>, posDict: PosDict, init: Grid, drags: seq<Drag>, idx: seq<nat>)
    requires moves != [] && Kept(moves[0], posDict, init)
    requires Lists(moves[1..], posDict, init, drags, idx)
    ensures Lists(moves, posDict, init, [DragFor(moves[0], posDict)] + drags, [0] + Shift(idx))
  {
    var ix := [0] + Shift(idx);
    KeepItems(moves, posDict, init, drags, idx);
    KeepComplete(moves, posDict, init, drags, idx);
    KeepOrdered(idx);
  }

  lemma KeepOrdered(idx: seq<nat>)
    requires forall k, l :: 0 <= k < l < |idx| ==> idx[k] < idx[l]
    ensures var ix := [0] + Shift(idx); forall k, l :: 0 <= k < l < |ix| ==> ix[k] < ix[l]
  {
    var ix := [0] + Shift(idx);
    forall k, l | 0 <= k < l < |ix| ensures ix[k] < ix[l] {
      if k > 0 {
        assert ix[k] == idx[k - 1] + 1 && ix[l] == idx[l - 1] + 1;
      }
    }
  }

  lemma KeepItems(moves: seq<Move>, posDict: PosDict, init: Grid, drags: seq<Drag>, idx: seq<nat>)
    requires moves != [] && Kept(moves[0], posDict, init)
    requires Lists(moves[1..], posDict, init, drags, idx)
    ensures var ix, ds := [0] + Shift(idx), [DragFor(moves[0], posDict)] + drags;
      forall k :: 0 <= k < |ix| ==>
        ix[k] < |moves| && Kept(moves[ix[k]], posDict, init) &&
        ds[k] == DragFor(moves[ix[k]], posDict) && NoFaultBefore(moves, posDict, init, ix[k])
  {
    var rest, sh := moves[1..], Shift(idx);
    var ix, ds := [0] + sh, [DragFor(moves[0], posDict)] + drags;
    forall k | 0 <= k < |ix|
      ensures ix[k] < |moves| && Kept(moves[ix[k]], posDict, init) && ds[k] == DragFor(moves[ix[k]], posDict)
      ensures NoFaultBefore(moves, posDict, init, ix[k])
    {
      if k > 0 {
        assert ix[k] == sh[k - 1] && ds[k] == drags[k - 1];
        assert moves[sh[k - 1]] == rest[idx[k - 1]];
        NoFaultShift(moves, posDict, init, ix[k]);
      }
    }
  }

  lemma KeepComplete(moves: seq<Move>, posDict: PosDict, init: Grid, drags: seq<Drag>, idx: seq<nat>)
    requires moves != [] && Kept(moves[0], posDict, init)
    requires Lists(moves[1..], posDict, init, drags, idx)
    ensures forall i :: 0 <= i < |moves| && Kept(moves[i], posDict, init) && NoFaultBefore(moves, posDict, init, i) ==>
              i in [0] + Shift(idx)
  {
    var rest, ix := moves[1..], [0] + Shift(idx);
    forall i | 0 <= i < |moves| && Kept(moves[i], posDict, init) && NoFaultBefore(moves, posDict, init, i)
      ensures i in ix
    {
      if i > 0 {
        assert moves[i] == rest[i - 1];
        NoFaultShift(moves, posDict, init, i);
        var k :| 0 <= k < |idx| && idx[k] == i - 1;
        assert ix[k + 1] == i;
      }
    }
  }

  /** When the first move raises, nothing is dragged and nothing can be listed. */
  lemma ListsFault(moves: seq<Move>, posDict: PosDict, init: Grid)
    requires moves != [] && Faulty(moves[0], posDict, init)
    ensures Lists(moves, posDict, init, [], [])
  {
    forall i | 0 <= i < |moves| && Kept(moves[i], posDict, init) && NoFaultBefore(moves, posDict, init, i)
      ensures false
    {
    }
  }

  /** Solving two move lists one after the other drags what solving their concatenation drags. */
  lemma {:induction false} SolveAppend(a: seq<Move>, b: seq<Move>, posDict: PosDict, init: Grid)
    ensures var ra, rb := Solve(a, posDict, init), Solve(b, posDict, init);
      Solve(a + b, posDict, init) == if ra.raised then ra else Dragging(ra.drags + rb.drags, rb.raised)
    decreases |a|
  {
    if a != [] {
      var m := a[0];
      assert (a + b)[0] == m && (a + b)[1..] == a[1..] + b;
      SolveAppend(a[1..], b, posDict, init);
      var ra, rb, rest := Solve(a, posDict, init), Solve(b, posDict, init), Solve(a[1..], posDict, init);
      if !Known(m, posDict) {
        assert ra == rest;
      } else if !CornerInGrid(m, init) {
        assert ra == Dragging([], true);
      } else if init[m.topLeft.row][m.topLeft.col] == 0 {
        assert ra == rest;
      } else {
        assert ra == Dragging([DragFor(m, posDict)] + rest.drags, rest.raised);
        if !rest.raised {
          assert ra.drags + rb.drags == [DragFor(m, posDict)] + (rest.drags + rb.drags);
        }
      }
    } else {
      assert a + b == b;
    }
  }

  /**
   * The skip test reads the initial board, not the board after the earlier
   * moves: the same move twice is dragged twice, although the first drag
   * clears the cell the test reads.
   */
  lemma SolveReadsInitialBoard()
    ensures var init := [[4, 6]];
      var m := Move(Cell(0, 0), Cell(0, 1));
      var posDict := map[(0, 0) := Box(100, 200, 40, 40), (0, 1) := Box(150, 200, 40, 40)];
      Apply(init, m).0[0][0] == 0 &&
      Solve([m, m], posDict, init) == Dragging([Drag(110, 210, 180, 230), Drag(110, 210, 180, 230)], false)
  {
    var init := [[4, 6]];
    var m := Move(Cell(0, 0), Cell(0, 1));
    var posDict := map[(0, 0) := Box(100, 200, 40, 40), (0, 1) := Box(150, 200, 40, 40)];
    assert Fits(m, 1, 2);
    ApplyCells(init, m);
    var d := DragFor(m, posDict);
    assert d == Drag(110, 210, 180, 230);
    assert Solve([m], posDict, init) == Dragging([d], false) by {
      assert [m][1..] == [];
    }
    assert [m, m][1..] == [m];
  }
}
