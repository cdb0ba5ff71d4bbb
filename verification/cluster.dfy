/**
 * Grouping the pixel coordinates of the recognised digit images into
 * columns (or rows): `cluster_positions`, its copy `get_cluster_positions`,
 * and `index_to_screen`, which maps a grid cell back to a screen point.
 */
module Cluster {

  function Abs(x: int): int
  {
    if x < 0 then -x else x
  }

  predicate Increasing(s: seq<int>)
  {
    forall i, j :: 0 <= i < j < |s| ==> s[i] < s[j]
  }

  // ---------------------------------------------------------------------
  // sorted(set(positions))
  // ---------------------------------------------------------------------

  function InsertSorted(x: int, s: seq<int>): (r: seq<int>)
    requires Increasing(s)
    ensures Increasing(r)
    ensures forall y :: y in r <==> y == x || y in s
    decreases |s|
  {
    if s == [] then [x]
    else if x == s[0] then s
    else if x < s[0] then [x] + s
    else
      var rest := InsertSorted(x, s[1..]);
      HeadBelowTail(s);
      ConsIncreasing(s[0], rest);
      [s[0]] + rest
  }

  /** The head of an increasing sequence is below everything after it. */
  lemma HeadBelowTail(s: seq<int>)
    requires Increasing(s) && |s| > 0
    ensures Increasing(s[1..]) && forall y :: y in s[1..] ==> s[0] < y
  {
    forall y | y in s[1..] ensures s[0] < y {
      var k :| 0 <= k < |s[1..]| && s[1..][k] == y;
      assert s[k + 1] == y;
    }
  }

  /** A value below everything in an increasing sequence can go in front of it. */
  lemma ConsIncreasing(a: int, rest: seq<int>)
    requires Increasing(rest) && forall y :: y in rest ==> a < y
    ensures Increasing([a] + rest)
  {
    var r := [a] + rest;
    forall i, j | 0 <= i < j < |r| ensures r[i] < r[j] {
      assert r[j] == rest[j - 1] && r[j] in rest;
      if i > 0 {
        assert r[i] == rest[i - 1];
      }
    }
  }

  /** `sorted(set(positions))`: the distinct positions in increasing order. */
  function SortedSet(positions: seq<int>): (r: seq<int>)
    ensures Increasing(r)
    ensures forall y :: y in r <==> y in positions
    decreases |positions|
  {
    if positions == [] then []
    else
      var init, last := positions[..|positions| - 1], positions[|positions| - 1];
      assert positions == init + [last];
      InsertSorted(last, SortedSet(init))
  }

  // ---------------------------------------------------------------------
  // Clusters
  // ---------------------------------------------------------------------

  /** The clusters laid end to end. */
  function Flatten(cs: seq<seq<int>>): seq<int>
    decreases |cs|
  {
    if cs == [] then [] else Flatten(cs[..|cs| - 1]) + cs[|cs| - 1]
  }

  function Sum(c: seq<int>): int
    decreases |c|
  {
    if c == [] then 0 else Sum(c[..|c| - 1]) + c[|c| - 1]
  }

  /**
   * `int(a / b)` for `b > 0`: the quotient truncated toward zero, the
   * integer `q` with the sign of `a` such that `b * q` is the multiple of
   * `b` nearest to `a` on the side of zero.
   */
  function TruncDiv(a: int, b: int): (q: int)
    requires b > 0
    ensures 0 <= a ==> 0 <= q && b * q <= a < b * (q + 1)
    ensures a < 0 ==> q <= 0 && b * (q - 1) < a <= b * q
  {
    if a >= 0 then
      FloorBracket(a, b);
      a / b
    else
      FloorBracket(-a, b);
      var p := (-a) / b;
      Negate(b, p);
      -p
  }

  /** `s / n` is the quotient rounded down: `n * (s / n) <= s < n * (s / n + 1)`. */
  lemma FloorBracket(s: int, n: int)
    requires n > 0
    ensures n * (s / n) <= s < n * (s / n + 1)
    ensures 0 <= s ==> 0 <= s / n
  {
    var q, r := s / n, s % n;
    assert s == n * q + r && 0 <= r < n;
    assert n * (q + 1) == n * q + n;
    if 0 <= s && q < 0 {
      MulMono(n, q, -1);
    }
  }

  lemma Negate(n: int, p: int)
    ensures n * -p == -(n * p) && n * (-p - 1) == -(n * (p + 1))
  {
  }

  /**
   * `int(sum(c) / len(c))`, the representative value of a cluster; for an
   * increasing cluster it lies between the first and the last element.
   */
  function TruncMean(c: seq<int>): (r: int)
    requires |c| > 0
    ensures Increasing(c) ==> c[0] <= r <= c[|c| - 1]
  {
    var r := TruncDiv(Sum(c), |c|);
    assert Increasing(c) ==> c[0] <= r <= c[|c| - 1] by {
      if Increasing(c) {
        SumBounds(c, c[0], c[|c| - 1]);
        TruncDivBounds(Sum(c), |c|, c[0], c[|c| - 1]);
      }
    }
    r
  }

  /** Each element is within `threshold` of the one before it. */
  predicate Chained(c: seq<int>, threshold: int)
  {
    forall i :: 0 < i < |c| ==> Abs(c[i] - c[i - 1]) <= threshold
  }

  /**
   * What `cluster_positions` computes: the distinct positions in increasing
   * order, cut into non-empty clusters exactly where one position lies more
   * than `threshold` beyond the one before; the truncated mean of each
   * cluster; and a map from every input position to the index of its
   * cluster.
   */
  function Last(c: seq<int>): int
    requires |c| > 0
  {
    c[|c| - 1]
  }

  /**
   * The clusters are non-empty and chained, and the first element of each
   * lies more than `threshold` from the last element of the one before.
   */
  predicate Split(clusters: seq<seq<int>>, threshold: int)
  {
    (forall i :: 0 <= i < |clusters| ==> |clusters[i]| > 0 && Chained(clusters[i], threshold)) &&
    (forall i :: 0 < i < |clusters| ==> Abs(clusters[i][0] - Last(clusters[i - 1])) > threshold)
  }

  ghost predicate IsClustering(positions: seq<int>, threshold: int, clusters: seq<seq<int>>,
                               reps: seq<int>, index: map<int, int>)
  {
    Flatten(clusters) == SortedSet(positions) && Split(clusters, threshold) &&
    |reps| == |clusters| &&
    (forall i :: 0 <= i < |clusters| ==> reps[i] == TruncMean(clusters[i])) &&
    (forall p :: p in index <==> p in positions) &&
    (forall p :: p in index ==> 0 <= index[p] < |clusters| && p in clusters[index[p]])
  }

  lemma {:induction false} FlattenMember(cs: seq<seq<int>>, x: int)
    ensures x in Flatten(cs) <==> exists j :: 0 <= j < |cs| && x in cs[j]
    decreases |cs|
  {
    if cs != [] {
      var init := cs[..|cs| - 1];
      FlattenMember(init, x);
      if x in Flatten(init) {
        var j :| 0 <= j < |init| && x in init[j];
        assert cs[j] == init[j];
      }
      forall j | 0 <= j < |cs| - 1 ensures cs[j] == init[j] {
      }
    }
  }

  /**
   * Cutting an increasing sequence into pieces gives increasing pieces, each
   * entirely below the ones after it.
   */
  lemma {:induction false} FlattenOrdered(cs: seq<seq<int>>)
    requires Increasing(Flatten(cs))
    ensures forall i :: 0 <= i < |cs| ==> Increasing(cs[i])
    ensures forall i, j, x, y :: 0 <= i < j < |cs| && x in cs[i] && y in cs[j] ==> x < y
    decreases |cs|
  {
    if cs != [] {
      var init, last := cs[..|cs| - 1], cs[|cs| - 1];
      var f := Flatten(init);
      assert Flatten(cs) == f + last;
      IncreasingParts(f, last);
      FlattenOrdered(init);
      forall i, j, x, y | 0 <= i < j < |cs| && x in cs[i] && y in cs[j] ensures x < y {
        assert cs[i] == init[i];
        if j < |cs| - 1 {
          assert cs[j] == init[j];
        } else {
          FlattenMember(init, x);
        }
      }
    }
  }

  /** Both halves of an increasing sequence are increasing, the first entirely below the second. */
  lemma IncreasingParts(f: seq<int>, g: seq<int>)
    requires Increasing(f + g)
    ensures Increasing(f) && Increasing(g)
    ensures forall x, y :: x in f && y in g ==> x < y
  {
    var s := f + g;
    forall a, b | 0 <= a < b < |f| ensures f[a] < f[b] {
      assert f[a] == s[a] && f[b] == s[b];
    }
    forall a, b | 0 <= a < b < |g| ensures g[a] < g[b] {
      assert g[a] == s[|f| + a] && g[b] == s[|f| + b];
    }
    forall x, y | x in f && y in g ensures x < y {
      var a :| 0 <= a < |f| && f[a] == x;
      var b :| 0 <= b < |g| && g[b] == y;
      assert s[a] == x && s[|f| + b] == y;
    }
  }

  /** The clusters laid end to end, with one more appended. */
  lemma FlattenPush(cs: seq<seq<int>>, c: seq<int>)
    ensures Flatten(cs + [c]) == Flatten(cs) + c
  {
    assert (cs + [c])[..|cs|] == cs;
  }

  /**
   * The state of the clustering loop: the closed clusters `cs` form a split,
   * and the open cluster `current` is non-empty, chained and separated from
   * the last closed one.
   */
  predicate Open(cs: seq<seq<int>>, current: seq<int>, threshold: int)
  {
    Split(cs, threshold) && |current| > 0 && Chained(current, threshold) &&
    (|cs| > 0 ==> Abs(current[0] - Last(cs[|cs| - 1])) > threshold)
  }

  lemma ChainedPush(c: seq<int>, x: int, threshold: int)
    requires |c| > 0 && Chained(c, threshold) && Abs(x - Last(c)) <= threshold
    ensures Chained(c + [x], threshold)
  {
    var d := c + [x];
    forall i | 0 < i < |d| ensures Abs(d[i] - d[i - 1]) <= threshold {
      if i < |c| {
        assert d[i] == c[i] && d[i - 1] == c[i - 1];
      }
    }
  }

  lemma SplitPush(cs: seq<seq<int>>, c: seq<int>, threshold: int)
    requires Open(cs, c, threshold)
    ensures Split(cs + [c], threshold)
  {
    var d := cs + [c];
    forall i | 0 < i < |d| ensures Abs(d[i][0] - Last(d[i - 1])) > threshold {
      if i < |cs| {
        assert d[i] == cs[i] && d[i - 1] == cs[i - 1];
      }
    }
  }

  /** One step of the clustering loop, for the next position `pos`. */
  method GroupStep(cs: seq<seq<int>>, current: seq<int>, pos: int, threshold: int)
    returns (cs': seq<seq<int>>, current': seq<int>)
    requires Open(cs, current, threshold)
    ensures Open(cs', current', threshold)
    ensures Flatten(cs') + current' == Flatten(cs) + current + [pos]
  {
    if Abs(pos - current[|current| - 1]) <= threshold {
      ChainedPush(current, pos, threshold);
      cs', current' := cs, current + [pos];
      assert current'[0] == current[0];
    } else {
      FlattenPush(cs, current);
      SplitPush(cs, current, threshold);
      cs', current' := cs + [current], [pos];
    }
  }

  /**
   * The clustering loop of `cluster_positions`: walking the sorted positions,
   * grow the current cluster while the next position is within `threshold`
   * of its last element, otherwise close it and start a new one.
   */
  method Group(sortedPos: seq<int>, threshold: int) returns (cs: seq<seq<int>>)
    requires |sortedPos| > 0
    ensures Flatten(cs) == sortedPos && Split(cs, threshold)
  {
    cs := [];
    var current := [sortedPos[0]];
    assert Flatten(cs) + current == sortedPos[..1];
    for i := 1 to |sortedPos|
      invariant Open(cs, current, threshold)
      invariant Flatten(cs) + current == sortedPos[..i]
    {
      assert sortedPos[..i + 1] == sortedPos[..i] + [sortedPos[i]];
      cs, current := GroupStep(cs, current, sortedPos[i], threshold);
    }
    FlattenPush(cs, current);
    SplitPush(cs, current, threshold);
    cs := cs + [current];
    assert sortedPos[..|sortedPos|] == sortedPos;
  }

  /**
   * The `pos_to_idx` loops: every element of every cluster is mapped to the
   * index of a cluster that holds it (a later cluster holding it would
   * overwrite the entry).
   */
  method IndexClusters(cs: seq<seq<int>>) returns (index: map<int, int>)
    ensures forall p :: p in index ==> 0 <= index[p] < |cs| && p in cs[index[p]]
    ensures forall j, x :: 0 <= j < |cs| && x in cs[j] ==> x in index
  {
    index := map[];
    for idx := 0 to |cs|
      invariant forall p :: p in index ==> 0 <= index[p] < idx && p in cs[index[p]]
      invariant forall j, x :: 0 <= j < idx && x in cs[j] ==> x in index
    {
      for k := 0 to |cs[idx]|
        invariant forall p :: p in index ==> 0 <= index[p] <= idx && p in cs[index[p]]
        invariant forall j, x :: 0 <= j < idx && x in cs[j] ==> x in index
        invariant forall k' :: 0 <= k' < k ==> cs[idx][k'] in index
      {
        index := index[cs[idx][k] := idx];
      }
    }
  }

  /**
   * The body of `cluster_positions` once the input is known to be non-empty:
   * sort and deduplicate, group, average, index.
   */
  method BuildClusters(positions: seq<int>, threshold: int)
    returns (reps: seq<int>, index: map<int, int>, ghost clusters: seq<seq<int>>)
    requires |positions| > 0
    ensures IsClustering(positions, threshold, clusters, reps, index)
    ensures |reps| > 0 && forall p :: p in index <==> p in positions
    ensures forall p :: p in index ==> 0 <= index[p] < |reps|
  {
    var sortedPos := SortedSet(positions);
    assert positions[0] in sortedPos;
    var cs := Group(sortedPos, threshold);
    reps := seq(|cs|, i requires 0 <= i < |cs| && |cs[i]| > 0 => TruncMean(cs[i]));
    index := IndexClusters(cs);
    clusters := cs;
    forall p ensures p in index <==> p in positions {
      FlattenMember(cs, p);
    }
  }

  /**
   * `cluster_positions(positions, threshold)`; `failed` is the `IndexError`
   * of `sorted_pos[0]` on an empty list.
   */
  method ClusterPositions(positions: seq<int>, threshold: int)
    returns (failed: bool, reps: seq<int>, index: map<int, int>, ghost clusters: seq<seq<int>>)
    ensures failed <==> |positions| == 0
    ensures !failed ==> IsClustering(positions, threshold, clusters, reps, index)
  {
    if |positions| == 0 {
      return true, [], map[], [];
    }
    failed := false;
    reps, index, clusters := BuildClusters(positions, threshold);
  }

  /**
   * `get_cluster_positions(positions, threshold)`: the same computation, but
   * an empty input gives `([], {})`. (Its second emptiness test, on
   * `sorted_pos`, can never succeed once `positions` is non-empty.)
   */
  method GetClusterPositions(positions: seq<int>, threshold: int)
    returns (reps: seq<int>, index: map<int, int>, ghost clusters: seq<seq<int>>)
    ensures |positions| == 0 ==> reps == [] && index == map[]
    ensures |positions| > 0 ==> IsClustering(positions, threshold, clusters, reps, index)
  {
    if |positions| == 0 {
      return [], map[], [];
    }
    reps, index, clusters := BuildClusters(positions, threshold);
  }

  // ---------------------------------------------------------------------
  // Properties of a clustering
  // ---------------------------------------------------------------------

  /** Every position lies in every cluster below every later cluster, so the index map is monotone. */
  lemma IndexMonotone(positions: seq<int>, threshold: int, clusters: seq<seq<int>>, reps: seq<int>,
                      index: map<int, int>, p: int, q: int)
    requires IsClustering(positions, threshold, clusters, reps, index)
    requires p in positions && q in positions && p <= q
    ensures index[p] <= index[q]
  {
    FlattenOrdered(clusters);
  }

  lemma {:induction false} SumBounds(c: seq<int>, lo: int, hi: int)
    requires forall i :: 0 <= i < |c| ==> lo <= c[i] <= hi
    ensures |c| * lo <= Sum(c) <= |c| * hi
    decreases |c|
  {
    if c != [] {
      SumBounds(c[..|c| - 1], lo, hi);
      assert |c| * lo == (|c| - 1) * lo + lo;
      assert |c| * hi == (|c| - 1) * hi + hi;
    }
  }

  lemma MulMono(n: int, a: int, b: int)
    requires n > 0 && a <= b
    ensures n * a <= n * b
  {
    assert n * b - n * a == n * (b - a);
  }

  /** For `n > 0`, `n * lo <= s` gives `lo <= s / n`. */
  lemma FloorLower(s: int, n: int, lo: int)
    requires n > 0 && n * lo <= s
    ensures lo <= s / n
  {
    var q, r := s / n, s % n;
    assert s == n * q + r && r < n;
    if q < lo {
      MulMono(n, q + 1, lo);
    }
  }

  /** For `n > 0`, `s <= n * hi` gives `s / n <= hi`. */
  lemma FloorUpper(s: int, n: int, hi: int)
    requires n > 0 && s <= n * hi
    ensures s / n <= hi
  {
    var q, r := s / n, s % n;
    assert s == n * q + r && 0 <= r;
    if q > hi {
      MulMono(n, hi + 1, q);
    }
  }

  /** A value between `n * lo` and `n * hi`, divided by `n` and truncated, lies between `lo` and `hi`. */
  lemma TruncDivBounds(s: int, n: int, lo: int, hi: int)
    requires n > 0 && n * lo <= s <= n * hi
    ensures lo <= TruncDiv(s, n) <= hi
  {
    if s >= 0 {
      FloorLower(s, n, lo);
      FloorUpper(s, n, hi);
    } else {
      assert n * (-hi) == -(n * hi) && n * (-lo) == -(n * lo);
      FloorLower(-s, n, -hi);
      FloorUpper(-s, n, -lo);
    }
  }

  /**
   * The representative values strictly increase, and each lies within the
   * span of its own cluster: the columns (rows) found on screen come out
   * left to right (top to bottom).
   */
  lemma RepsIncreasing(positions: seq<int>, threshold: int, clusters: seq<seq<int>>, reps: seq<int>,
                       index: map<int, int>)
    requires IsClustering(positions, threshold, clusters, reps, index)
    ensures forall i :: 0 <= i < |clusters| ==> clusters[i][0] <= reps[i] <= Last(clusters[i])
    ensures Increasing(reps)
  {
    FlattenOrdered(clusters);
    assert forall i :: 0 <= i < |clusters| ==> clusters[i][0] <= reps[i] <= Last(clusters[i]);
    forall i, j | 0 <= i < j < |reps| ensures reps[i] < reps[j] {
      var a, b := clusters[i], clusters[j];
      assert a[|a| - 1] in a && b[0] in b;
    }
  }

  /**
   * Consecutive positions of one cluster are at most `threshold` apart, and
   * the last of a cluster and the first of the next more than `threshold`:
   * the cut points are exactly the large gaps of the sorted positions.
   */
  lemma GapsDecideCuts(positions: seq<int>, threshold: int, clusters: seq<seq<int>>, reps: seq<int>,
                       index: map<int, int>, p: int, q: int)
    requires IsClustering(positions, threshold, clusters, reps, index)
    requires p in positions && q in positions && p < q
    requires forall x :: x in positions ==> x <= p || q <= x
    ensures index[p] == index[q] <==> q - p <= threshold
  {
    if index[p] == index[q] {
      GapWithin(positions, threshold, clusters, reps, index, p, q);
    } else {
      GapBetween(positions, threshold, clusters, reps, index, p, q);
    }
  }

  /** Neighbouring positions in one cluster are at most `threshold` apart. */
  lemma GapWithin(positions: seq<int>, threshold: int, clusters: seq<seq<int>>, reps: seq<int>,
                  index: map<int, int>, p: int, q: int)
    requires IsClustering(positions, threshold, clusters, reps, index)
    requires p in positions && q in positions && p < q
    requires forall x :: x in positions ==> x <= p || q <= x
    requires index[p] == index[q]
    ensures q - p <= threshold
  {
    FlattenOrdered(clusters);
    var i := index[p];
    var ci := clusters[i];
    var a :| 0 <= a < |ci| && ci[a] == p;
    var b :| 0 <= b < |ci| && ci[b] == q;
    if b != a + 1 {
      assert a < b;
      assert ci[a + 1] in ci;
      FlattenMember(clusters, ci[a + 1]);
      assert false;
    }
    assert Abs(ci[a + 1] - ci[a]) <= threshold;
  }

  /** Neighbouring positions in different clusters are more than `threshold` apart. */
  lemma GapBetween(positions: seq<int>, threshold: int, clusters: seq<seq<int>>, reps: seq<int>,
                   index: map<int, int>, p: int, q: int)
    requires IsClustering(positions, threshold, clusters, reps, index)
    requires p in positions && q in positions && p < q
    requires forall x :: x in positions ==> x <= p || q <= x
    requires index[p] != index[q]
    ensures q - p > threshold
  {
    FlattenOrdered(clusters);
    IndexMonotone(positions, threshold, clusters, reps, index, p, q);
    var i, j := index[p], index[q];
    var ci, cj := clusters[i], clusters[j];
    var a :| 0 <= a < |ci| && ci[a] == p;
    var b :| 0 <= b < |cj| && cj[b] == q;
    if a != |ci| - 1 {
      assert ci[a + 1] in ci;
      FlattenMember(clusters, ci[a + 1]);
      assert false;
    }
    if b != 0 {
      assert cj[0] in cj;
      FlattenMember(clusters, cj[0]);
      assert false;
    }
    if j != i + 1 {
      var k := clusters[i + 1][0];
      assert k in clusters[i + 1];
      FlattenMember(clusters, k);
      assert false;
    }
  }

  // ---------------------------------------------------------------------
  // index_to_screen
  // ---------------------------------------------------------------------

  /** What `index_to_screen` gives: a point, `(None, None)`, or the `IndexError` of a list lookup. */
  datatype ScreenPoint = Point(x: int, y: int) | NoPoint | IndexError

  /** `s[i]` for Python's indexing, where `-len(s) <= i < 0` counts from the end. */
  function PyIndex(s: seq<int>, i: int): int
    requires -|s| <= i < |s|
  {
    if i >= 0 then s[i] else s[|s| + i]
  }

  /**
   * `index_to_screen(row, col, x_reps, y_reps)`: the representative `x` of
   * column `col` and `y` of row `row` when both are below the lengths; a
   * negative index counts from the end, and one below `-len` raises.
   */
  function IndexToScreen(row: int, col: int, xReps: seq<int>, yReps: seq<int>): (r: ScreenPoint)
    ensures r == NoPoint <==> !(col < |xReps| && row < |yReps|)
    ensures r == IndexError <==> col < |xReps| && row < |yReps| && (col < -|xReps| || row < -|yReps|)
    ensures 0 <= col < |xReps| && 0 <= row < |yReps| ==> r == Point(xReps[col], yReps[row])
    ensures -|xReps| <= col < 0 && 0 <= row < |yReps| ==> r == Point(xReps[|xReps| + col], yReps[row])
    ensures 0 <= col < |xReps| && -|yReps| <= row < 0 ==> r == Point(xReps[col], yReps[|yReps| + row])
    ensures -|xReps| <= col < 0 && -|yReps| <= row < 0 ==> r == Point(xReps[|xReps| + col], yReps[|yReps| + row])
  {
    if col < |xReps| && row < |yReps| then
      if col < -|xReps| || row < -|yReps| then IndexError
      else Point(PyIndex(xReps, col), PyIndex(yReps, row))
    else NoPoint
  }

  /**
   * A cell found at pixel `(x, y)` and placed at row `yIndex[y]`, column
   * `xIndex[x]` is mapped back to a point within the spans of its column's
   * and its row's clusters.
   */
  lemma ScreenPointOfScannedCell(xs: seq<int>, ys: seq<int>, threshold: int,
                                 xClusters: seq<seq<int>>, xReps: seq<int>, xIndex: map<int, int>,
                                 yClusters: seq<seq<int>>, yReps: seq<int>, yIndex: map<int, int>,
                                 x: int, y: int)
    requires IsClustering(xs, threshold, xClusters, xReps, xIndex)
    requires IsClustering(ys, threshold, yClusters, yReps, yIndex)
    requires x in xs && y in ys
    ensures var p := IndexToScreen(yIndex[y], xIndex[x], xReps, yReps);
      p.Point? &&
      xClusters[xIndex[x]][0] <= p.x <= Last(xClusters[xIndex[x]]) &&
      yClusters[yIndex[y]][0] <= p.y <= Last(yClusters[yIndex[y]])
  {
    RepsIncreasing(xs, threshold, xClusters, xReps, xIndex);
    RepsIncreasing(ys, threshold, yClusters, yReps, yIndex);
  }
}
