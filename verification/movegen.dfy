/**
 * The move generator: every rectangle of the board whose values sum to
 * exactly 10, each tagged with its priority (the number of cells inside
 * valued 0 or 1), ordered by priority ascending and area descending.
 */
module MoveGen {
  import opened Board

  /** `(priority, (r1, c1), (r2, c2))`. */
  datatype Candidate = Candidate(priority: int, topLeft: Cell, bottomRight: Cell)
  {
    function ToMove(): Move
    {
      Move(topLeft, bottomRight)
    }
  }

  function Area(c: Candidate): int
  {
    (c.bottomRight.col - c.topLeft.col + 1) * (c.bottomRight.row - c.topLeft.row + 1)
  }

  /** `c` is a rectangle of `g` summing to 10, and its priority is the count of 0/1 cells inside it. */
  predicate IsCandidate(g: Grid, c: Candidate)
    requires Rectangular(g)
  {
    FitsGrid(g, c.ToMove()) && RectSum(g, c.ToMove()) == 10 && c.priority == RectPriority(g, c.ToMove())
  }

  /** Some rectangle of `g` sums to 10. */
  ghost predicate HasMove(g: Grid)
    requires Rectangular(g)
  {
    exists c :: IsCandidate(g, c)
  }

  // ---------------------------------------------------------------------
  // Orders
  // ---------------------------------------------------------------------

  /** The sort key `(priority, -area)` compares `a` strictly before `b`. */
  predicate KeyLess(a: Candidate, b: Candidate)
  {
    a.priority < b.priority || (a.priority == b.priority && Area(a) > Area(b))
  }

  predicate SameKey(a: Candidate, b: Candidate)
  {
    a.priority == b.priority && Area(a) == Area(b)
  }

  /** The order in which the four nested loops meet rectangles: by r1, then r2, then c1, then c2. */
  predicate EnumBefore(c: Candidate, r1: int, r2: int, c1: int, c2: int)
  {
    c.topLeft.row < r1 ||
    (c.topLeft.row == r1 && (c.bottomRight.row < r2 ||
    (c.bottomRight.row == r2 && (c.topLeft.col < c1 ||
    (c.topLeft.col == c1 && c.bottomRight.col < c2)))))
  }

  predicate EnumLess(a: Candidate, b: Candidate)
  {
    EnumBefore(a, b.topLeft.row, b.bottomRight.row, b.topLeft.col, b.bottomRight.col)
  }

  /**
   * The order of the generator's output: by the sort key, and, among equal
   * keys, in enumeration order (the sort is stable).
   */
  predicate Ranked(a: Candidate, b: Candidate)
  {
    KeyLess(a, b) || (SameKey(a, b) && EnumLess(a, b))
  }

  predicate StrictlyRanked(s: seq<Candidate>)
  {
    forall i, j :: 0 <= i < j < |s| ==> Ranked(s[i], s[j])
  }

  predicate StrictlyEnumerated(s: seq<Candidate>)
  {
    forall i, j :: 0 <= i < j < |s| ==> EnumLess(s[i], s[j])
  }

  predicate SortedByPriority(s: seq<Candidate>)
  {
    forall i, j :: 0 <= i < j < |s| ==> s[i].priority <= s[j].priority
  }

  lemma RankedTransitive(a: Candidate, b: Candidate, c: Candidate)
    requires Ranked(a, b) && Ranked(b, c)
    ensures Ranked(a, c)
  {
  }

  /** Output order implies priority order, the order the solvers' `sort(key=priority)` asks for. */
  lemma RankedSortedByPriority(s: seq<Candidate>)
    requires StrictlyRanked(s)
    ensures SortedByPriority(s)
    ensures forall i, j :: 0 <= i < j < |s| ==> s[i] != s[j]
  {
  }

  lemma HeadIn(t: seq<Candidate>)
    requires t != []
    ensures t[0] in t
  {
  }

  /** Two strictly ranked lists holding the same candidates are the same list. */
  lemma {:induction false} RankedUnique(s: seq<Candidate>, t: seq<Candidate>)
    requires StrictlyRanked(s) && StrictlyRanked(t)
    requires forall c :: c in s <==> c in t
    ensures s == t
    decreases |s|
  {
    if s == [] {
      if t != [] {
        HeadIn(t);
        assert false;
      }
    } else {
      assert s[0] in t;
      assert t[0] in s;
      if s[0] != t[0] {
        var i :| 0 <= i < |s| && s[i] == t[0];
        var j :| 0 <= j < |t| && t[j] == s[0];
        assert Ranked(s[0], t[0]) && Ranked(t[0], s[0]);
        RankedTransitive(s[0], t[0], s[0]);
        assert false;
      }
      RankedSortedByPriority(s);
      RankedSortedByPriority(t);
      forall c | c in s[1..] ensures c in t[1..] {
        var k :| 0 <= k < |s| - 1 && s[1..][k] == c;
        assert s[k + 1] == c && c in t;
        var j :| 0 <= j < |t| && t[j] == c;
        assert j != 0 && t[1..][j - 1] == c;
      }
      forall c | c in t[1..] ensures c in s[1..] {
        var k :| 0 <= k < |t| - 1 && t[1..][k] == c;
        assert t[k + 1] == c && c in s;
        var i :| 0 <= i < |s| && s[i] == c;
        assert i != 0 && s[1..][i - 1] == c;
      }
      RankedUnique(s[1..], t[1..]);
      assert s == [s[0]] + s[1..] && t == [t[0]] + t[1..];
    }
  }

  // ---------------------------------------------------------------------
  // The stable sort by (priority, -area)
  // ---------------------------------------------------------------------

  /** Inserts `x` after every element whose key is not greater than its own (stable insertion). */
  function InsertStable(x: Candidate, s: seq<Candidate>): (r: seq<Candidate>)
    ensures multiset(r) == multiset(s) + multiset{x}
    decreases |s|
  {
    if s == [] then [x]
    else if KeyLess(x, s[|s| - 1]) then
      assert s == s[..|s| - 1] + [s[|s| - 1]];
      InsertStable(x, s[..|s| - 1]) + [s[|s| - 1]]
    else s + [x]
  }

  /** `list.sort(key=...)`: a stable sort by `(priority, -area)`, here as an insertion sort. */
  function StableSort(s: seq<Candidate>): (r: seq<Candidate>)
    ensures multiset(r) == multiset(s)
    decreases |s|
  {
    if s == [] then []
    else
      assert s == s[..|s| - 1] + [s[|s| - 1]];
      InsertStable(s[|s| - 1], StableSort(s[..|s| - 1]))
  }

  /** An element ranked after every element of a ranked list can be appended to it. */
  lemma RankedPush(t: seq<Candidate>, x: Candidate)
    requires StrictlyRanked(t) && forall i :: 0 <= i < |t| ==> Ranked(t[i], x)
    ensures StrictlyRanked(t + [x])
  {
    var r := t + [x];
    forall i, j | 0 <= i < j < |r| ensures Ranked(r[i], r[j]) {
      assert r[i] == t[i];
    }
  }

  lemma {:induction false} InsertStableRanked(x: Candidate, s: seq<Candidate>)
    requires StrictlyRanked(s)
    requires forall y :: y in s ==> EnumLess(y, x)
    ensures StrictlyRanked(InsertStable(x, s))
    decreases |s|
  {
    if s != [] {
      var init, last := s[..|s| - 1], s[|s| - 1];
      if KeyLess(x, last) {
        assert forall y :: y in init ==> y in s;
        InsertStableRanked(x, init);
        var t := InsertStable(x, init);
        assert forall y :: y in t ==> y in init || y == x by {
          forall y | y in t ensures y in init || y == x {
            assert y in multiset(t);
          }
        }
        forall i | 0 <= i < |t| ensures Ranked(t[i], last) {
          assert t[i] in t;
          if t[i] != x {
            var k :| 0 <= k < |init| && init[k] == t[i];
            assert s[k] == t[i];
          }
        }
        RankedPush(t, last);
      } else {
        forall i | 0 <= i < |s| ensures Ranked(s[i], x) {
          assert Ranked(last, x) by { assert last in s; }
          if i < |s| - 1 {
            RankedTransitive(s[i], last, x);
          }
        }
        RankedPush(s, x);
      }
    }
  }

  /**
   * Sorting a list met in enumeration order stably by `(priority, -area)`
   * yields the output order: key first, enumeration order among ties.
   */
  lemma {:induction false} StableSortRanked(s: seq<Candidate>)
    requires StrictlyEnumerated(s)
    ensures StrictlyRanked(StableSort(s))
    decreases |s|
  {
    if s != [] {
      var init, last := s[..|s| - 1], s[|s| - 1];
      StableSortRanked(init);
      var sorted := StableSort(init);
      forall y | y in sorted ensures EnumLess(y, last) {
        assert y in multiset(sorted);
        assert y in multiset(init);
        var k :| 0 <= k < |init| && init[k] == y;
        assert s[k] == y;
      }
      InsertStableRanked(last, sorted);
    }
  }

  // ---------------------------------------------------------------------
  // The solvers' sort by priority alone
  // ---------------------------------------------------------------------

  /** Inserts `x` after every element whose priority is not greater than its own. */
  function InsertByPriority(x: Candidate, s: seq<Candidate>): (r: seq<Candidate>)
    ensures multiset(r) == multiset(s) + multiset{x}
    decreases |s|
  {
    if s == [] then [x]
    else if x.priority < s[|s| - 1].priority then
      assert s == s[..|s| - 1] + [s[|s| - 1]];
      InsertByPriority(x, s[..|s| - 1]) + [s[|s| - 1]]
    else s + [x]
  }

  /** `possible_actions.sort(key=lambda x: x[0])`: a stable sort by priority. */
  function SortByPriority(s: seq<Candidate>): (r: seq<Candidate>)
    ensures multiset(r) == multiset(s)
    decreases |s|
  {
    if s == [] then []
    else
      assert s == s[..|s| - 1] + [s[|s| - 1]];
      InsertByPriority(s[|s| - 1], SortByPriority(s[..|s| - 1]))
  }

  lemma {:induction false} InsertByPrioritySorted(x: Candidate, s: seq<Candidate>)
    requires SortedByPriority(s)
    ensures SortedByPriority(InsertByPriority(x, s))
    decreases |s|
  {
    if s != [] && x.priority < s[|s| - 1].priority {
      var init, last := s[..|s| - 1], s[|s| - 1];
      InsertByPrioritySorted(x, init);
      var t := InsertByPriority(x, init);
      forall i | 0 <= i < |t| ensures t[i].priority <= last.priority {
        assert t[i] in multiset(t);
        if t[i] != x {
          assert t[i] in multiset(init);
          var k :| 0 <= k < |init| && init[k] == t[i];
          assert s[k] == t[i];
        }
      }
    }
  }

  /** The priority sort yields a permutation of its input in priority order. */
  lemma {:induction false} SortByPrioritySorted(s: seq<Candidate>)
    ensures SortedByPriority(SortByPriority(s))
    decreases |s|
  {
    if s != [] {
      SortByPrioritySorted(s[..|s| - 1]);
      InsertByPrioritySorted(s[|s| - 1], SortByPriority(s[..|s| - 1]));
    }
  }

  /**
   * The generator's output is already in priority order, and the sort is
   * stable, so sorting any order-preserving selection of it by priority
   * changes nothing.
   */
  lemma {:induction false} SortByPriorityIdentity(s: seq<Candidate>)
    requires SortedByPriority(s)
    ensures SortByPriority(s) == s
    decreases |s|
  {
    if s != [] {
      var init, last := s[..|s| - 1], s[|s| - 1];
      assert SortedByPriority(init) by {
        forall i, j | 0 <= i < j < |init| ensures init[i].priority <= init[j].priority {
          assert init[i] == s[i] && init[j] == s[j];
        }
      }
      SortByPriorityIdentity(init);
      assert s == init + [last];
      assert SortByPriority(s) == InsertByPriority(last, init);
      if init != [] {
        assert init[|init| - 1] == s[|s| - 2];
      }
    }
  }

  // ---------------------------------------------------------------------
  // The generator
  // ---------------------------------------------------------------------

  /** `ps` and `pc` are the prefix tables of `g` and of its 0/1 indicator. */
  ghost predicate PrefixTablesOf(g: Grid, ps: array2<int>, pc: array2<int>)
    requires Rectangular(g)
    reads ps, pc
  {
    ps.Length0 == pc.Length0 == |g| + 1 && ps.Length1 == pc.Length1 == Cols(g) + 1 &&
    (forall a, b :: 0 <= a <= |g| && 0 <= b <= Cols(g) ==> ps[a, b] == Prefix(g, a, b)) &&
    (forall a, b :: 0 <= a <= |g| && 0 <= b <= Cols(g) ==> pc[a, b] == Prefix(PriorityMask(g), a, b))
  }

  /** The two prefix tables: raw values and the 0/1 indicator. */
  method PrefixTables(g: Grid) returns (ps: array2<int>, pc: array2<int>)
    requires Rectangular(g) && |g| > 0
    ensures fresh(ps) && fresh(pc)
    ensures PrefixTablesOf(g, ps, pc)
  {
    var nRows, nCols := |g|, |g[0]|;
    ghost var mask := PriorityMask(g);
    ps := new int[nRows + 1, nCols + 1]((_, _) => 0);
    pc := new int[nRows + 1, nCols + 1]((_, _) => 0);
    forall a, b | 0 <= a <= nRows && 0 <= b <= nCols
      ensures (a == 0 || b == 0) ==> Prefix(g, a, b) == 0 && Prefix(mask, a, b) == 0
    {
      PrefixBorder(g, a, b);
      PrefixBorder(mask, a, b);
    }
    for i := 0 to nRows
      invariant Filled(g, mask, ps, pc, i, 0)
    {
      PrefixRow(g, mask, ps, pc, i);
    }
  }

  /**
   * The prefix tables hold their final values in rows `0..i` and in row
   * `i + 1` up to column `j`, and 0 everywhere else but the border.
   */
  ghost predicate Filled(g: Grid, mask: Grid, ps: array2<int>, pc: array2<int>, i: nat, j: nat)
    requires Rectangular(g) && mask == PriorityMask(g)
    reads ps, pc
  {
    ps.Length0 == pc.Length0 == |g| + 1 && ps.Length1 == pc.Length1 == Cols(g) + 1 &&
    forall a, b :: 0 <= a <= |g| && 0 <= b <= Cols(g) ==>
      ps[a, b] == (if a <= i || b == 0 || (a == i + 1 && b <= j) then Prefix(g, a, b) else 0) &&
      pc[a, b] == (if a <= i || b == 0 || (a == i + 1 && b <= j) then Prefix(mask, a, b) else 0)
  }

  /** The inner loop of the prefix tables: fill row `i + 1`. */
  method PrefixRow(g: Grid, ghost mask: Grid, ps: array2<int>, pc: array2<int>, i: nat)
    requires Rectangular(g) && mask == PriorityMask(g) && i < |g| && ps != pc
    requires Filled(g, mask, ps, pc, i, 0)
    modifies ps, pc
    ensures Filled(g, mask, ps, pc, i + 1, 0)
  {
    for j := 0 to |g[0]|
      invariant Filled(g, mask, ps, pc, i, j)
    {
      PrefixCell(g, mask, ps, pc, i, j);
    }
  }

  /** One cell of the prefix tables, from its three already-filled neighbours. */
  method PrefixCell(g: Grid, ghost mask: Grid, ps: array2<int>, pc: array2<int>, i: nat, j: nat)
    requires Rectangular(g) && mask == PriorityMask(g) && i < |g| && j < Cols(g) && ps != pc
    requires Filled(g, mask, ps, pc, i, j)
    modifies ps, pc
    ensures Filled(g, mask, ps, pc, i, j + 1)
  {
    var val := g[i][j];
    var isPriority := if val == 1 || val == 0 then 1 else 0;
    PrefixStep(g, i, j);
    PrefixStep(mask, i, j);
    assert mask[i][j] == isPriority;
    ps[i + 1, j + 1] := val + ps[i, j + 1] + ps[i + 1, j] - ps[i, j];
    pc[i + 1, j + 1] := isPriority + pc[i, j + 1] + pc[i + 1, j] - pc[i, j];
  }

  /** The sum and the priority of one rectangle, read off the prefix tables in constant time. */
  method RectQuery(g: Grid, ps: array2<int>, pc: array2<int>, m: Move) returns (sum: int, priority: int)
    requires Rectangular(g) && FitsGrid(g, m) && PrefixTablesOf(g, ps, pc)
    ensures sum == RectSum(g, m) && priority == RectPriority(g, m)
  {
    var r1, c1, r2, c2 := m.topLeft.row, m.topLeft.col, m.bottomRight.row, m.bottomRight.col;
    QueryCorners(g, ps, r1, r2 + 1, c1, c2 + 1);
    QueryCorners(PriorityMask(g), pc, r1, r2 + 1, c1, c2 + 1);
    sum := ps[r2 + 1, c2 + 1] - ps[r1, c2 + 1] - ps[r2 + 1, c1] + ps[r1, c1];
    priority := pc[r2 + 1, c2 + 1] - pc[r1, c2 + 1] - pc[r2 + 1, c1] + pc[r1, c1];
  }

  /** Four corners of a prefix table give the sum of any block by inclusion-exclusion. */
  lemma QueryCorners(x: Grid, t: array2<int>, top: nat, bottom: nat, left: nat, right: nat)
    requires Rectangular(x) && top <= bottom <= |x| && left <= right <= Cols(x)
    requires t.Length0 == |x| + 1 && t.Length1 == Cols(x) + 1
    requires forall a, b :: 0 <= a <= |x| && 0 <= b <= Cols(x) ==> t[a, b] == Prefix(x, a, b)
    ensures t[bottom, right] - t[top, right] - t[bottom, left] + t[top, left] == BlockSum(x, top, bottom, left, right)
  {
    InclusionExclusion(x, top, bottom, left, right);
  }

  /**
   * `find_all_sum_10_areas`: lists every rectangle summing to exactly 10,
   * once, ordered by priority ascending, then area descending, then the
   * order in which the loops met it.
   */
  method FindAllSum10Areas(g: Grid) returns (found: seq<Candidate>)
    requires Rectangular(g)
    ensures forall c :: c in found <==> IsCandidate(g, c)
    ensures StrictlyRanked(found)
  {
    found := [];
    var nRows := |g|;
    if nRows == 0 {
      return;
    }
    var nCols := |g[0]|;
    var ps, pc := PrefixTables(g);

    for r1 := 0 to nRows
      modifies {}
      invariant forall c :: c in found <==> IsCandidate(g, c) && c.topLeft.row < r1
      invariant StrictlyEnumerated(found)
    {
      for r2 := r1 to nRows
        modifies {}
        invariant forall c :: c in found <==> IsCandidate(g, c) && EnumBefore(c, r1, r2, 0, 0)
        invariant StrictlyEnumerated(found)
      {
        for c1 := 0 to nCols
          modifies {}
          invariant FoundBefore(g, found, r1, r2, c1, c1)
        {
          found := ScanSpans(g, ps, pc, r1, r2, c1, found);
        }
      }
    }

    StableSortRanked(found);
    ghost var before := found;
    found := StableSort(found);
    assert forall c :: c in found <==> c in before by {
      forall c ensures c in found <==> c in before {
        assert c in found <==> c in multiset(found);
        assert c in before <==> c in multiset(before);
      }
    }
  }

  /**
   * `found` holds, in enumeration order, exactly the candidates the loops
   * have met before reaching rows `r1..r2` and columns `c1..c2`.
   */
  ghost predicate FoundBefore(g: Grid, found: seq<Candidate>, r1: int, r2: int, c1: int, c2: int)
    requires Rectangular(g)
  {
    (forall c :: c in found <==> IsCandidate(g, c) && EnumBefore(c, r1, r2, c1, c2)) && StrictlyEnumerated(found)
  }

  /** The innermost loop, over the right column `c2` for fixed `r1`, `r2`, `c1`. */
  method ScanSpans(g: Grid, ps: array2<int>, pc: array2<int>, r1: nat, r2: nat, c1: nat, found: seq<Candidate>)
    returns (found': seq<Candidate>)
    requires Rectangular(g) && PrefixTablesOf(g, ps, pc) && r1 <= r2 < |g| && c1 < Cols(g)
    requires FoundBefore(g, found, r1, r2, c1, c1)
    ensures FoundBefore(g, found', r1, r2, c1 + 1, c1 + 1)
  {
    found' := found;
    for c2 := c1 to |g[0]|
      invariant FoundBefore(g, found', r1, r2, c1, c2)
    {
      found' := ScanStep(g, ps, pc, r1, r2, c1, c2, found');
    }
  }

  /** One rectangle of the scan: query its sum and priority, and keep it when the sum is 10. */
  method ScanStep(g: Grid, ps: array2<int>, pc: array2<int>, r1: nat, r2: nat, c1: nat, c2: nat, found: seq<Candidate>)
    returns (found': seq<Candidate>)
    requires Rectangular(g) && PrefixTablesOf(g, ps, pc) && r1 <= r2 < |g| && c1 <= c2 < Cols(g)
    requires FoundBefore(g, found, r1, r2, c1, c2)
    ensures FoundBefore(g, found', r1, r2, c1, c2 + 1)
  {
    found' := found;
    var subSum, priority := RectQuery(g, ps, pc, Move(Cell(r1, c1), Cell(r2, c2)));
    if subSum == 10 {
      var cand := Candidate(priority, Cell(r1, c1), Cell(r2, c2));
      assert IsCandidate(g, cand);
      found' := found + [cand];
    }
  }

  /** An all-zero board offers no move. */
  lemma NoMoveOnEmptyBoard(g: Grid)
    requires Rectangular(g)
    requires forall i, j :: 0 <= i < |g| && 0 <= j < Cols(g) ==> g[i][j] == 0
    ensures !HasMove(g)
  {
    forall c: Candidate | FitsGrid(g, c.ToMove()) ensures RectSum(g, c.ToMove()) == 0 {
      BlockSumZero(g, c.topLeft.row, c.bottomRight.row + 1, c.topLeft.col, c.bottomRight.col + 1);
    }
  }

  /** A board with no cells offers no move. */
  lemma NoMoveWithoutCells(g: Grid)
    requires Rectangular(g) && (|g| == 0 || Cols(g) == 0)
    ensures !HasMove(g)
  {
  }
}
