/**
 * Day 8 (Treetop Tree House): a grid of tree heights.  A tree is visible
 * when, in at least one of the four directions, every tree up to the edge
 * is shorter.  Its viewing distance in a direction counts the trees up to
 * and including the first one at least as tall, or up to the edge; its
 * scenic score multiplies the four distances.  Part 1 counts the visible
 * trees, part 2 finds the best score of an interior tree.
 */
module Treetop {
  import opened Wrappers

  /** Rows of tree heights. */
  type Grid = seq<seq<int>>

  predicate IsDigit(ch: char)
  {
    '0' <= ch <= '9'
  }

  /** Every row as long as the first: the shape a 2-D array needs. */
  predicate Rectangular(grid: Grid)
  {
    |grid| > 0 && forall r :: 0 <= r < |grid| ==> |grid[r]| == |grid[0]|
  }

  function Cols(grid: Grid): nat
    requires |grid| > 0
  {
    |grid[0]|
  }

  predicate InGrid(grid: Grid, r: int, c: int)
  {
    Rectangular(grid) && 0 <= r < |grid| && 0 <= c < Cols(grid)
  }

  /**
   * `make_grid`: each digit becomes its value, keeping rows and columns.
   * The lines must all be as long, as the 2-D array demands.
   */
  method MakeGrid(lines: seq<string>) returns (grid: Grid)
    requires |lines| > 0 && forall r :: 0 <= r < |lines| ==> |lines[r]| == |lines[0]|
    requires forall r, c :: 0 <= r < |lines| && 0 <= c < |lines[r]| ==> IsDigit(lines[r][c])
    ensures Rectangular(grid) && |grid| == |lines| && Cols(grid) == |lines[0]|
    ensures forall r, c :: 0 <= r < |grid| && 0 <= c < |grid[r]| ==>
              0 <= grid[r][c] <= 9 && grid[r][c] == lines[r][c] as int - '0' as int
  {
    grid := [];
    for r := 0 to |lines|
      invariant |grid| == r
      invariant forall i :: 0 <= i < r ==> |grid[i]| == |lines[i]|
      invariant forall i, c :: 0 <= i < r && 0 <= c < |grid[i]| ==>
                  0 <= grid[i][c] <= 9 && grid[i][c] == lines[i][c] as int - '0' as int
    {
      var line := lines[r];
      var row := seq(|line|, c requires 0 <= c < |line| => line[c] as int - '0' as int);
      grid := grid + [row];
    }
  }

  /** The trees met looking up from `(r, c)`, nearest first. */
  function LineUp(grid: Grid, r: int, c: int): (line: seq<int>)
    requires InGrid(grid, r, c)
    ensures |line| == r
  {
    seq(r, k requires 0 <= k < r => grid[r - 1 - k][c])
  }

  /** The trees met looking down from `(r, c)`, nearest first. */
  function LineDown(grid: Grid, r: int, c: int): (line: seq<int>)
    requires InGrid(grid, r, c)
    ensures |line| == |grid| - r - 1
  {
    seq(|grid| - r - 1, k requires 0 <= k < |grid| - r - 1 => grid[r + 1 + k][c])
  }

  /** The trees met looking left from `(r, c)`, nearest first. */
  function LineLeft(grid: Grid, r: int, c: int): (line: seq<int>)
    requires InGrid(grid, r, c)
    ensures |line| == c
  {
    seq(c, k requires 0 <= k < c => grid[r][c - 1 - k])
  }

  /** The trees met looking right from `(r, c)`, nearest first. */
  function LineRight(grid: Grid, r: int, c: int): (line: seq<int>)
    requires InGrid(grid, r, c)
    ensures |line| == Cols(grid) - c - 1
  {
    seq(Cols(grid) - c - 1, k requires 0 <= k < Cols(grid) - c - 1 => grid[r][c + 1 + k])
  }

  /** Every tree on the line is shorter than `h`. */
  predicate Clear(line: seq<int>, h: int)
  {
    forall k :: 0 <= k < |line| ==> line[k] < h
  }

  /** Visible from outside: the view is clear to the edge in some direction. */
  predicate Visible(grid: Grid, r: int, c: int)
    requires InGrid(grid, r, c)
  {
    var h := grid[r][c];
    Clear(LineUp(grid, r, c), h) || Clear(LineDown(grid, r, c), h)
    || Clear(LineLeft(grid, r, c), h) || Clear(LineRight(grid, r, c), h)
  }

  /** A tree on the edge has an empty line of sight outwards, so it is visible. */
  lemma EdgeVisible(grid: Grid, r: int, c: int)
    requires InGrid(grid, r, c)
    requires r == 0 || r == |grid| - 1 || c == 0 || c == Cols(grid) - 1
    ensures Visible(grid, r, c)
  {
    var h := grid[r][c];
    if r == 0 {
      assert Clear(LineUp(grid, r, c), h);
    } else if r == |grid| - 1 {
      assert Clear(LineDown(grid, r, c), h);
    } else if c == 0 {
      assert Clear(LineLeft(grid, r, c), h);
    } else {
      assert Clear(LineRight(grid, r, c), h);
    }
  }

  /**
   * `is_tree_visible`: scan up, down, left and right in turn, stopping a
   * scan at the first tree at least as tall and answering yes as soon as a
   * scan reaches the edge.  The downward scan runs to the last row.
   */
  method IsTreeVisible(grid: Grid, row: int, col: int) returns (visible: bool)
    requires InGrid(grid, row, col)
    ensures visible == Visible(grid, row, col)
  {
    var h := grid[row][col];
    ghost var up, down, left, right :=
      LineUp(grid, row, col), LineDown(grid, row, col), LineLeft(grid, row, col), LineRight(grid, row, col);

    var i := row - 1;
    while i >= 0 && grid[i][col] < h
      invariant -1 <= i < row
      invariant forall k :: i < k < row ==> grid[k][col] < h
    {
      i := i - 1;
    }
    if i < 0 {
      assert Clear(up, h);
      return true;
    }
    assert up[row - 1 - i] >= h;

    i := row + 1;
    while i < |grid| && grid[i][col] < h
      invariant row < i <= |grid|
      invariant forall k :: row < k < i ==> grid[k][col] < h
    {
      i := i + 1;
    }
    if i == |grid| {
      assert Clear(down, h);
      return true;
    }
    assert down[i - row - 1] >= h;

    var j := col - 1;
    while j >= 0 && grid[row][j] < h
      invariant -1 <= j < col
      invariant forall k :: j < k < col ==> grid[row][k] < h
    {
      j := j - 1;
    }
    if j < 0 {
      assert Clear(left, h);
      return true;
    }
    assert left[col - 1 - j] >= h;

    j := col + 1;
    while j < |grid[row]| && grid[row][j] < h
      invariant col < j <= |grid[row]|
      invariant forall k :: col < k < j ==> grid[row][k] < h
    {
      j := j + 1;
    }
    if j == |grid[row]| {
      assert Clear(right, h);
      return true;
    }
    assert right[j - col - 1] >= h;
    return false;
  }

  /**
   * The downward scan as written at line 110 (bounded by the number of
   * columns): rows `i .. bound-1` below, `None` where it would index past the
   * last row, `Some(true)` when it reaches `bound` unblocked.
   */
  function ScanDown(grid: Grid, c: int, h: int, i: nat, bound: int): (res: Option<bool>)
    requires Rectangular(grid) && 0 <= c < Cols(grid)
    ensures res.None? ==> |grid| < bound
    ensures res == Some(false) ==> exists k :: i <= k < |grid| && k < bound && grid[k][c] >= h
    decreases bound - i
  {
    if i >= bound then Some(true)
    else if i >= |grid| then None
    else if grid[i][c] >= h then Some(false)
    else ScanDown(grid, c, h, i + 1, bound)
  }

  /** Bounded by the number of rows, the scan answers whether the view down is clear. */
  lemma {:induction false} ScanDownToLastRow(grid: Grid, r: int, c: int, i: nat)
    requires InGrid(grid, r, c) && r < i <= |grid|
    requires forall k :: r < k < i ==> grid[k][c] < grid[r][c]
    ensures ScanDown(grid, c, grid[r][c], i, |grid|) == Some(Clear(LineDown(grid, r, c), grid[r][c]))
    decreases |grid| - i
  {
    var h := grid[r][c];
    var down := LineDown(grid, r, c);
    if i == |grid| {
      assert Clear(down, h);
    } else if grid[i][c] >= h {
      assert down[i - r - 1] >= h;
    } else {
      ScanDownToLastRow(grid, r, c, i + 1);
    }
  }

  /**
   * `is_tree_visible` as written: `None` where the downward scan raises an
   * index error, which needs more columns than rows. The written scan can call
   * a hidden tree visible, but never hides a visible one.
   */
  function VisibleAsWritten(grid: Grid, r: int, c: int): (v: Option<bool>)
    requires InGrid(grid, r, c)
    ensures v.None? ==> |grid| < Cols(grid)
    ensures v == Some(false) ==> !Visible(grid, r, c)
  {
    var h := grid[r][c];
    if Clear(LineUp(grid, r, c), h) then Some(true)
    else match ScanDown(grid, c, h, r + 1, Cols(grid))
      case None => None
      case Some(true) => Some(true)
      case Some(false) =>
        BlockedBelow(grid, r, c);
        Some(Clear(LineLeft(grid, r, c), h) || Clear(LineRight(grid, r, c), h))
  }

  /** A tree at least as tall somewhere below blocks the view down. */
  lemma BlockedBelow(grid: Grid, r: int, c: int)
    requires InGrid(grid, r, c)
    requires exists k :: r + 1 <= k < |grid| && k < Cols(grid) && grid[k][c] >= grid[r][c]
    ensures !Clear(LineDown(grid, r, c), grid[r][c])
  {
    var k :| r + 1 <= k < |grid| && k < Cols(grid) && grid[k][c] >= grid[r][c];
    assert LineDown(grid, r, c)[k - r - 1] == grid[k][c];
  }

  /** On a square grid the code as written answers exactly `Visible`. */
  lemma SquareAsWritten(grid: Grid, r: int, c: int)
    requires InGrid(grid, r, c) && |grid| == Cols(grid)
    ensures VisibleAsWritten(grid, r, c) == Some(Visible(grid, r, c))
  {
    ScanDownToLastRow(grid, r, c, r + 1);
  }

  /** A grid taller than wide: the scan stops above the row that hides the tree. */
  const TallGrid: Grid := [[9, 9, 9], [9, 5, 9], [0, 0, 0], [9, 9, 9]]

  lemma TallGridAsWritten()
    ensures VisibleAsWritten(TallGrid, 1, 1) == Some(true)
    ensures !Visible(TallGrid, 1, 1)
  {
    var g := TallGrid;
    assert LineUp(g, 1, 1)[0] == 9;
    assert LineDown(g, 1, 1)[1] == 9;
    assert LineLeft(g, 1, 1)[0] == 9;
    assert LineRight(g, 1, 1)[0] == 9;
  }

  /** A grid wider than tall: the scan runs past the last row. */
  const WideGrid: Grid := [[9, 9, 9, 9], [9, 5, 9, 9], [0, 0, 0, 0]]

  lemma WideGridAsWritten()
    ensures VisibleAsWritten(WideGrid, 1, 1) == None
  {
    assert LineUp(WideGrid, 1, 1)[0] == 9;
  }

  /**
   * The viewing distance along a line of sight: the trees up to and
   * including the first one at least `h` tall, or all of them.
   */
  function Distance(line: seq<int>, h: int): nat
  {
    if line == [] then 0
    else if line[0] >= h then 1
    else 1 + Distance(line[1..], h)
  }

  /**
   * The distance lies between 0 and the trees to the edge, is positive on a
   * non-empty line, every tree it passes is shorter, and when it stops short
   * of the edge the last tree counted is at least as tall.
   */
  lemma {:induction false} DistanceBounds(line: seq<int>, h: int)
    ensures Distance(line, h) <= |line|
    ensures line != [] ==> Distance(line, h) >= 1
    ensures forall k :: 0 <= k < Distance(line, h) - 1 ==> line[k] < h
    ensures Distance(line, h) < |line| ==> line[Distance(line, h) - 1] >= h
  {
    if line != [] && line[0] < h {
      DistanceBounds(line[1..], h);
    }
  }

  /** The characterisation above fixes the distance. */
  lemma {:induction false} DistanceIs(line: seq<int>, h: int, n: nat)
    requires n <= |line| && (n == 0 ==> line == [])
    requires forall k :: 0 <= k < n - 1 ==> line[k] < h
    requires n < |line| ==> line[n - 1] >= h
    ensures Distance(line, h) == n
  {
    if line != [] && line[0] < h {
      DistanceIs(line[1..], h, n - 1);
    }
  }

  /** The scenic score: the product of the four viewing distances. */
  function Score(grid: Grid, r: int, c: int): nat
    requires InGrid(grid, r, c)
  {
    var h := grid[r][c];
    Distance(LineUp(grid, r, c), h) * Distance(LineDown(grid, r, c), h)
    * Distance(LineRight(grid, r, c), h) * Distance(LineLeft(grid, r, c), h)
  }

  lemma ProductZero(a: nat, b: nat, c: nat, d: nat)
    ensures a * b * c * d == 0 <==> a == 0 || b == 0 || c == 0 || d == 0
  {
    if a != 0 && b != 0 && c != 0 && d != 0 {
      assert a * b >= 1;
      assert a * b * c >= 1;
    }
  }

  /** A tree scores 0 exactly when it stands on the edge. */
  lemma ScoreZeroOnEdge(grid: Grid, r: int, c: int)
    requires InGrid(grid, r, c)
    ensures Score(grid, r, c) == 0 <==> r == 0 || r == |grid| - 1 || c == 0 || c == Cols(grid) - 1
  {
    var h := grid[r][c];
    ProductZero(Distance(LineUp(grid, r, c), h), Distance(LineDown(grid, r, c), h),
                Distance(LineRight(grid, r, c), h), Distance(LineLeft(grid, r, c), h));
    DistanceBounds(LineUp(grid, r, c), h);
    DistanceBounds(LineDown(grid, r, c), h);
    DistanceBounds(LineLeft(grid, r, c), h);
    DistanceBounds(LineRight(grid, r, c), h);
  }

  /**
   * `scenic_score`: four scans that count each tree passed, stopping after
   * the first tree at least as tall.
   */
  method ScenicScore(grid: Grid, row: int, col: int) returns (score: int)
    requires InGrid(grid, row, col)
    ensures score == Score(grid, row, col)
  {
    var h := grid[row][col];
    var up, down, left, right := 0, 0, 0, 0;

    ghost var line := LineUp(grid, row, col);
    var i := row - 1;
    while i >= 0
      invariant -1 <= i < row && up == row - 1 - i
      invariant forall k :: 0 <= k < up ==> line[k] < h
    {
      up := up + 1;
      if grid[i][col] >= h {
        break;
      }
      i := i - 1;
    }
    DistanceIs(line, h, up);

    line := LineDown(grid, row, col);
    i := row + 1;
    while i < |grid|
      invariant row < i <= |grid| && down == i - row - 1
      invariant forall k :: 0 <= k < down ==> line[k] < h
    {
      down := down + 1;
      if grid[i][col] >= h {
        break;
      }
      i := i + 1;
    }
    DistanceIs(line, h, down);

    line := LineLeft(grid, row, col);
    var j := col - 1;
    while j >= 0
      invariant -1 <= j < col && left == col - 1 - j
      invariant forall k :: 0 <= k < left ==> line[k] < h
    {
      left := left + 1;
      if grid[row][j] >= h {
        break;
      }
      j := j - 1;
    }
    DistanceIs(line, h, left);

    line := LineRight(grid, row, col);
    j := col + 1;
    while j < |grid[row]|
      invariant col < j <= |grid[row]| && right == j - col - 1
      invariant forall k :: 0 <= k < right ==> line[k] < h
    {
      right := right + 1;
      if grid[row][j] >= h {
        break;
      }
      j := j + 1;
    }
    DistanceIs(line, h, right);

    score := up * down * right * left;
  }

  /** The visible trees of row `r` among columns `lo .. hi-1`. */
  function CountRow(grid: Grid, r: int, lo: int, hi: int): nat
    requires Rectangular(grid) && 0 <= r < |grid| && 0 <= lo <= hi <= Cols(grid)
    decreases hi - lo
  {
    if hi == lo then 0
    else CountRow(grid, r, lo, hi - 1) + (if Visible(grid, r, hi - 1) then 1 else 0)
  }

  /** The visible trees of rows `rlo .. rhi-1`, columns `lo .. hi-1`. */
  function CountRows(grid: Grid, rlo: int, rhi: int, lo: int, hi: int): nat
    requires Rectangular(grid) && 0 <= rlo <= rhi <= |grid| && 0 <= lo <= hi <= Cols(grid)
    decreases rhi - rlo
  {
    if rhi == rlo then 0
    else CountRows(grid, rlo, rhi - 1, lo, hi) + CountRow(grid, rhi - 1, lo, hi)
  }

  /** The visible trees of the whole grid. */
  function VisibleCount(grid: Grid): nat
    requires Rectangular(grid)
  {
    CountRows(grid, 0, |grid|, 0, Cols(grid))
  }

  /** The visible trees away from the edge (none when there is no interior). */
  function InteriorCount(grid: Grid): nat
    requires Rectangular(grid)
  {
    if |grid| < 2 || Cols(grid) < 2 then 0
    else CountRows(grid, 1, |grid| - 1, 1, Cols(grid) - 1)
  }

  /**
   * Part 1: the edge trees, counted as `(nrows + ncols) * 2 - 4`, plus the
   * interior trees that `is_tree_visible` accepts.
   */
  method CountVisible(grid: Grid) returns (count: int)
    requires Rectangular(grid)
    ensures count == (|grid| + Cols(grid)) * 2 - 4 + InteriorCount(grid)
  {
    var nrows: int, ncols: int := |grid|, Cols(grid);
    count := (nrows + ncols) * 2 - 4;
    if nrows < 2 || ncols < 2 {
      return;
    }
    var row := 1;
    while row < nrows - 1
      invariant 1 <= row <= nrows - 1
      invariant count == (nrows + ncols) * 2 - 4 + CountRows(grid, 1, row, 1, ncols - 1)
    {
      var col := 1;
      while col < ncols - 1
        invariant 1 <= col <= ncols - 1
        invariant count == (nrows + ncols) * 2 - 4 + CountRows(grid, 1, row, 1, ncols - 1)
                           + CountRow(grid, row, 1, col)
      {
        var visible := IsTreeVisible(grid, row, col);
        if visible {
          count := count + 1;
        }
        col := col + 1;
      }
      row := row + 1;
    }
  }

  /** Every tree of a row counts when all of them are visible. */
  lemma {:induction false} CountRowAll(grid: Grid, r: int, hi: int)
    requires Rectangular(grid) && 0 <= r < |grid| && 0 <= hi <= Cols(grid)
    requires forall c :: 0 <= c < hi ==> Visible(grid, r, c)
    ensures CountRow(grid, r, 0, hi) == hi
  {
    if hi > 0 {
      CountRowAll(grid, r, hi - 1);
    }
  }

  /** Peeling the first column off a row count. */
  lemma {:induction false} CountRowFirst(grid: Grid, r: int, hi: int)
    requires Rectangular(grid) && 0 <= r < |grid| && 1 <= hi <= Cols(grid)
    ensures CountRow(grid, r, 0, hi) == (if Visible(grid, r, 0) then 1 else 0) + CountRow(grid, r, 1, hi)
  {
    if hi > 1 {
      CountRowFirst(grid, r, hi - 1);
    }
  }

  /** A row of at least two trees: its two end trees plus its interior. */
  lemma CountRowEnds(grid: Grid, r: int)
    requires Rectangular(grid) && 0 <= r < |grid| && Cols(grid) >= 2
    ensures CountRow(grid, r, 0, Cols(grid)) == 2 + CountRow(grid, r, 1, Cols(grid) - 1)
  {
    var n := Cols(grid);
    EdgeVisible(grid, r, 0);
    EdgeVisible(grid, r, n - 1);
    CountRowFirst(grid, r, n - 1);
  }

  /** The first `m` rows: a full top row, two ends per further row, and the interior. */
  lemma {:induction false} CountRowsTop(grid: Grid, m: int)
    requires Rectangular(grid) && Cols(grid) >= 2 && 1 <= m <= |grid| - 1
    ensures CountRows(grid, 0, m, 0, Cols(grid))
            == Cols(grid) + 2 * (m - 1) + CountRows(grid, 1, m, 1, Cols(grid) - 1)
  {
    var n := Cols(grid);
    if m == 1 {
      forall c | 0 <= c < n
        ensures Visible(grid, 0, c)
      {
        EdgeVisible(grid, 0, c);
      }
      CountRowAll(grid, 0, n);
    } else {
      CountRowsTop(grid, m - 1);
      CountRowEnds(grid, m - 1);
    }
  }

  /**
   * With at least two rows and two columns the edge formula counts exactly
   * the edge trees, so part 1 is the number of visible trees.
   */
  lemma PartOneCountsVisible(grid: Grid)
    requires Rectangular(grid) && |grid| >= 2 && Cols(grid) >= 2
    ensures (|grid| + Cols(grid)) * 2 - 4 + InteriorCount(grid) == VisibleCount(grid)
  {
    var n, last := Cols(grid), |grid| - 1;
    CountRowsTop(grid, last);
    forall c | 0 <= c < n
      ensures Visible(grid, last, c)
    {
      EdgeVisible(grid, last, c);
    }
    CountRowAll(grid, last, n);
  }

  /** An interior position: not on the edge. */
  predicate Interior(grid: Grid, r: int, c: int)
  {
    Rectangular(grid) && 1 <= r < |grid| - 1 && 1 <= c < Cols(grid) - 1
  }

  /**
   * Part 2: the highest scenic score among interior trees, starting from 0
   * and keeping a score only when it beats the best so far.
   */
  method BestScore(grid: Grid) returns (best: int)
    requires Rectangular(grid)
    ensures forall r, c :: Interior(grid, r, c) ==> Score(grid, r, c) <= best
    ensures best == 0 || exists r, c :: Interior(grid, r, c) && Score(grid, r, c) == best
    ensures best >= 0
  {
    var nrows: int, ncols: int := |grid|, Cols(grid);
    best := 0;
    if nrows < 2 || ncols < 2 {
      return;
    }
    ghost var bestRow, bestCol := 0, 0;
    var row := 1;
    while row < nrows - 1
      invariant 1 <= row <= nrows - 1
      invariant forall r, c :: Interior(grid, r, c) && r < row ==> Score(grid, r, c) <= best
      invariant best == 0 || (Interior(grid, bestRow, bestCol) && Score(grid, bestRow, bestCol) == best)
      invariant best >= 0
    {
      var col := 1;
      while col < ncols - 1
        invariant 1 <= col <= ncols - 1
        invariant forall r, c :: Interior(grid, r, c) && (r < row || (r == row && c < col)) ==> Score(grid, r, c) <= best
        invariant best == 0 || (Interior(grid, bestRow, bestCol) && Score(grid, bestRow, bestCol) == best)
        invariant best >= 0
      {
        var current := ScenicScore(grid, row, col);
        if current > best {
          best := current;
          bestRow, bestCol := row, col;
        }
        col := col + 1;
      }
      row := row + 1;
    }
  }

  /** Part 2 is positive as soon as the grid has an interior tree. */
  lemma InteriorScorePositive(grid: Grid, r: int, c: int)
    requires Interior(grid, r, c)
    ensures Score(grid, r, c) >= 1
  {
    ScoreZeroOnEdge(grid, r, c);
  }

  /** The example grid of the puzzle statement: 21 visible trees, best score 8. */
  const ExampleGrid: Grid := [[3, 0, 3, 7, 3], [2, 5, 5, 1, 2], [6, 5, 3, 3, 2], [3, 3, 5, 4, 9], [3, 5, 3, 9, 0]]

  lemma ExampleVisibleRow1(g: Grid)
    requires g == ExampleGrid
    ensures CountRow(g, 1, 1, 4) == 2
  {
    assert Clear(LineUp(g, 1, 1), 5);
    assert Clear(LineUp(g, 1, 2), 5);
    assert LineUp(g, 1, 3)[0] == 7;
    assert LineDown(g, 1, 3)[0] == 3;
    assert LineLeft(g, 1, 3)[0] == 5;
    assert LineRight(g, 1, 3)[0] == 2;
  }

  lemma ExampleVisibleRow2(g: Grid)
    requires g == ExampleGrid
    ensures CountRow(g, 2, 1, 4) == 2
  {
    assert Clear(LineRight(g, 2, 1), 5);
    assert LineUp(g, 2, 2)[0] == 5;
    assert LineDown(g, 2, 2)[0] == 5;
    assert LineLeft(g, 2, 2)[0] == 5;
    assert LineRight(g, 2, 2)[0] == 3;
    assert Clear(LineRight(g, 2, 3), 3);
  }

  lemma ExampleVisibleRow3(g: Grid)
    requires g == ExampleGrid
    ensures CountRow(g, 3, 1, 4) == 1
  {
    assert LineUp(g, 3, 1)[0] == 5;
    assert LineDown(g, 3, 1)[0] == 5;
    assert LineLeft(g, 3, 1)[0] == 3;
    assert LineRight(g, 3, 1)[0] == 5;
    assert Clear(LineDown(g, 3, 2), 5);
    assert LineUp(g, 3, 3)[2] == 7;
    assert LineDown(g, 3, 3)[0] == 9;
    assert LineLeft(g, 3, 3)[0] == 5;
    assert LineRight(g, 3, 3)[0] == 9;
  }

  lemma ExampleScoresRow1()
    ensures Score(ExampleGrid, 1, 1) == 1
    ensures Score(ExampleGrid, 1, 2) == 4
    ensures Score(ExampleGrid, 1, 3) == 1
  {
    var g := ExampleGrid;
    DistanceIs(LineUp(g, 1, 1), 5, 1);
    DistanceIs(LineDown(g, 1, 1), 5, 1);
    DistanceIs(LineLeft(g, 1, 1), 5, 1);
    DistanceIs(LineRight(g, 1, 1), 5, 1);
    DistanceIs(LineUp(g, 1, 2), 5, 1);
    DistanceIs(LineDown(g, 1, 2), 5, 2);
    DistanceIs(LineLeft(g, 1, 2), 5, 1);
    DistanceIs(LineRight(g, 1, 2), 5, 2);
    DistanceIs(LineUp(g, 1, 3), 1, 1);
    DistanceIs(LineDown(g, 1, 3), 1, 1);
    DistanceIs(LineLeft(g, 1, 3), 1, 1);
    DistanceIs(LineRight(g, 1, 3), 1, 1);
  }

  lemma ExampleScoresRow2()
    ensures Score(ExampleGrid, 2, 1) == 6
    ensures Score(ExampleGrid, 2, 2) == 1
    ensures Score(ExampleGrid, 2, 3) == 2
  {
    var g := ExampleGrid;
    DistanceIs(LineUp(g, 2, 1), 5, 1);
    DistanceIs(LineDown(g, 2, 1), 5, 2);
    DistanceIs(LineLeft(g, 2, 1), 5, 1);
    DistanceIs(LineRight(g, 2, 1), 5, 3);
    DistanceIs(LineUp(g, 2, 2), 3, 1);
    DistanceIs(LineDown(g, 2, 2), 3, 1);
    DistanceIs(LineLeft(g, 2, 2), 3, 1);
    DistanceIs(LineRight(g, 2, 2), 3, 1);
    DistanceIs(LineUp(g, 2, 3), 3, 2);
    DistanceIs(LineDown(g, 2, 3), 3, 1);
    DistanceIs(LineLeft(g, 2, 3), 3, 1);
    DistanceIs(LineRight(g, 2, 3), 3, 1);
  }

  lemma ExampleScoresRow3()
    ensures Score(ExampleGrid, 3, 1) == 1
    ensures Score(ExampleGrid, 3, 2) == 8
    ensures Score(ExampleGrid, 3, 3) == 3
  {
    var g := ExampleGrid;
    DistanceIs(LineUp(g, 3, 1), 3, 1);
    DistanceIs(LineDown(g, 3, 1), 3, 1);
    DistanceIs(LineLeft(g, 3, 1), 3, 1);
    DistanceIs(LineRight(g, 3, 1), 3, 1);
    DistanceIs(LineUp(g, 3, 2), 5, 2);
    DistanceIs(LineDown(g, 3, 2), 5, 1);
    DistanceIs(LineLeft(g, 3, 2), 5, 2);
    DistanceIs(LineRight(g, 3, 2), 5, 2);
    DistanceIs(LineUp(g, 3, 3), 4, 3);
    DistanceIs(LineDown(g, 3, 3), 4, 1);
    DistanceIs(LineLeft(g, 3, 3), 4, 1);
    DistanceIs(LineRight(g, 3, 3), 4, 1);
  }

  /** Part 1 on the example: 16 edge trees and 5 interior ones. */
  lemma ExampleVisible(g: Grid)
    requires g == ExampleGrid
    ensures (|g| + Cols(g)) * 2 - 4 + InteriorCount(g) == 21
  {
    assert |g| == 5 && forall r :: 0 <= r < 5 ==> |g[r]| == 5;
    InteriorOfFive(g);
    ExampleVisibleRow1(g);
    ExampleVisibleRow2(g);
    ExampleVisibleRow3(g);
  }

  /** On a five-by-five grid the interior count adds up the middle three rows. */
  lemma InteriorOfFive(g: Grid)
    requires Rectangular(g) && |g| == 5 && Cols(g) == 5
    ensures InteriorCount(g) == CountRow(g, 1, 1, 4) + CountRow(g, 2, 1, 4) + CountRow(g, 3, 1, 4)
  {
    assert CountRows(g, 1, 2, 1, 4) == CountRow(g, 1, 1, 4);
  }

  /** Part 2 on the example: no interior tree beats the score 8 of the tree at row 3, column 2. */
  lemma ExampleBest()
    ensures forall r, c :: Interior(ExampleGrid, r, c) ==> Score(ExampleGrid, r, c) <= 8
    ensures Score(ExampleGrid, 3, 2) == 8
  {
    ExampleScoresRow1();
    ExampleScoresRow2();
    ExampleScoresRow3();
    forall r, c | Interior(ExampleGrid, r, c)
      ensures Score(ExampleGrid, r, c) <= 8
    {
      assert r == 1 || r == 2 || r == 3;
      assert c == 1 || c == 2 || c == 3;
    }
  }
}
