/**
 * Falling sand in a cave (Advent of Code 2022, day 14).
 *
 * Rock paths are drawn into a fixed-size grid, a solid floor is laid two rows below
 * the lowest rock, and grains are poured from the source one at a time. Each grain
 * tries to move down, then down-left, then down-right, and rests when all three cells
 * below it are blocked. Instead of restarting every grain at the source, the pouring
 * loop keeps the previous grain's trajectory on a stack and resumes from its top.
 *
 * The grid is an `array2<Tile>` indexed `[y, x]` in grid coordinates. The
 * specification side describes the cave as a value: its rock cells, its floor row and
 * its source column, plus the set of cells that hold settled sand.
 */
module Sand {
  import opened Wrappers

  /** Contents of one grid cell: `.`, `#` and `o` in the puzzle's drawings. */
  datatype Tile = Air | Rock | Sand

  /** A cell; `y` grows downwards. */
  datatype Pos = Pos(x: int, y: int)

  // ---------------------------------------------------------------------------
  // Coordinates
  // ---------------------------------------------------------------------------

  /** Grid column of puzzle column `x`: the sand source column 500 lands on the middle column. */
  function TranslateX(x: int, width: int): (gx: int)
    ensures gx == width / 2 <==> x == 500
    ensures gx < width / 2 <==> x < 500
  {
    x - (500 - width / 2)
  }

  /** Puzzle column of grid column `gx` (the inverse shift). */
  function PuzzleX(gx: int, width: int): (x: int)
    ensures TranslateX(x, width) == gx
  {
    gx + (500 - width / 2)
  }

  // ---------------------------------------------------------------------------
  // Rasterising rock paths (puzzle coordinates)
  // ---------------------------------------------------------------------------

  predicate Between(a: int, b: int, c: int) {
    a <= c <= b || b <= c <= a
  }

  /**
   * The cells drawn for the waypoint pair `a -> b`: the walk first changes x along
   * row `a.y` until it reaches column `b.x`, then changes y along column `b.x`.
   * Both endpoints are included; a diagonal pair is drawn as an L.
   */
  predicate OnRun(a: Pos, b: Pos, p: Pos) {
    (p.y == a.y && Between(a.x, b.x, p.x)) || (p.x == b.x && Between(a.y, b.y, p.y))
  }

  /** `p` lies on one of the runs between consecutive waypoints of `steps`. */
  predicate OnPath(steps: seq<Pos>, p: Pos) {
    exists i :: 0 <= i < |steps| - 1 && OnRun(steps[i], steps[i + 1], p)
  }

  /** `p` is drawn as rock by some path. */
  predicate IsRockCell(paths: seq<seq<Pos>>, p: Pos) {
    exists k :: 0 <= k < |paths| && OnPath(paths[k], p)
  }

  /** `p` lies on one of the first `n` runs of `steps`. */
  predicate OnFirstRuns(steps: seq<Pos>, n: nat, p: Pos)
    requires n < |steps|
  {
    n > 0 && (OnFirstRuns(steps, n - 1, p) || OnRun(steps[n - 1], steps[n], p))
  }

  lemma {:induction false} OnFirstRunsSpec(steps: seq<Pos>, n: nat, p: Pos)
    requires n < |steps|
    ensures OnFirstRuns(steps, n, p) <==> exists i :: 0 <= i < n && OnRun(steps[i], steps[i + 1], p)
  {
    if n > 0 {
      OnFirstRunsSpec(steps, n - 1, p);
    }
  }

  /** `p` is drawn as rock by one of the first `n` paths. */
  predicate OnFirstPaths(paths: seq<seq<Pos>>, n: nat, p: Pos)
    requires n <= |paths|
  {
    n > 0 && (OnFirstPaths(paths, n - 1, p) || OnPath(paths[n - 1], p))
  }

  lemma {:induction false} OnFirstPathsSpec(paths: seq<seq<Pos>>, n: nat, p: Pos)
    requires n <= |paths|
    ensures OnFirstPaths(paths, n, p) <==> exists k :: 0 <= k < n && OnPath(paths[k], p)
  {
    if n > 0 {
      OnFirstPathsSpec(paths, n - 1, p);
    }
  }

  /** Every waypoint that gets drawn falls inside a `width` x `height` grid. */
  predicate PathsFit(paths: seq<seq<Pos>>, width: int, height: int) {
    forall k, i :: 0 <= k < |paths| && |paths[k]| >= 2 && 0 <= i < |paths[k]| ==>
      0 <= paths[k][i].y < height && 0 <= TranslateX(paths[k][i].x, width) < width
  }

  /** Running maximum of the rows touched by the runs of `steps`, starting from `bottom`. */
  function PathBottom(steps: seq<Pos>, bottom: int): int
    decreases |steps|
  {
    if |steps| < 2 then bottom
    else PathBottom(steps[1..], Max(bottom, Max(steps[0].y, steps[1].y)))
  }

  function PathsBottom(paths: seq<seq<Pos>>, bottom: int): int
    decreases |paths|
  {
    if paths == [] then bottom else PathsBottom(paths[1..], PathBottom(paths[0], bottom))
  }

  lemma {:induction false} PathBottomBounds(steps: seq<Pos>, bottom: int)
    ensures PathBottom(steps, bottom) >= bottom
    ensures forall p :: OnPath(steps, p) ==> p.y <= PathBottom(steps, bottom)
    ensures PathBottom(steps, bottom) == bottom || exists p :: OnPath(steps, p) && p.y == PathBottom(steps, bottom)
    decreases |steps|
  {
    if |steps| >= 2 {
      var b' := Max(bottom, Max(steps[0].y, steps[1].y));
      PathBottomBounds(steps[1..], b');
      forall p | OnPath(steps, p) ensures p.y <= PathBottom(steps, bottom) {
        var i :| 0 <= i < |steps| - 1 && OnRun(steps[i], steps[i + 1], p);
        if i > 0 {
          assert OnRun(steps[1..][i - 1], steps[1..][i], p);
        }
      }
      var r := PathBottom(steps, bottom);
      if r != bottom {
        if r == b' {
          if b' == steps[0].y {
            assert OnRun(steps[0], steps[1], steps[0]);
          } else {
            assert OnRun(steps[0], steps[1], steps[1]);
          }
        } else {
          var p :| OnPath(steps[1..], p) && p.y == r;
          var i :| 0 <= i < |steps[1..]| - 1 && OnRun(steps[1..][i], steps[1..][i + 1], p);
          assert OnRun(steps[i + 1], steps[i + 2], p);
        }
      }
    }
  }

  /**
   * The lowest rock row, or 0 when nothing is drawn: the abyss line below which no
   * rock exists. The floor goes two rows below it.
   */
  function LowestRock(paths: seq<seq<Pos>>): (bottom: int)
    ensures bottom >= 0
    ensures forall p :: IsRockCell(paths, p) ==> p.y <= bottom
    ensures bottom == 0 || exists p :: IsRockCell(paths, p) && p.y == bottom
  {
    PathsBottomBounds(paths, 0);
    PathsBottom(paths, 0)
  }

  lemma {:induction false} PathsBottomBounds(paths: seq<seq<Pos>>, bottom: int)
    ensures PathsBottom(paths, bottom) >= bottom
    ensures forall p :: IsRockCell(paths, p) ==> p.y <= PathsBottom(paths, bottom)
    ensures PathsBottom(paths, bottom) == bottom || exists p :: IsRockCell(paths, p) && p.y == PathsBottom(paths, bottom)
    decreases |paths|
  {
    if paths != [] {
      var b := PathBottom(paths[0], bottom);
      PathBottomBounds(paths[0], bottom);
      PathsBottomBounds(paths[1..], b);
      forall p | IsRockCell(paths, p) ensures OnPath(paths[0], p) || IsRockCell(paths[1..], p) {
        var k :| 0 <= k < |paths| && OnPath(paths[k], p);
        if k > 0 { assert OnPath(paths[1..][k - 1], p); }
      }
      assert forall p :: OnPath(paths[0], p) ==> IsRockCell(paths, p);
      forall p | IsRockCell(paths[1..], p) ensures IsRockCell(paths, p) {
        var k :| 0 <= k < |paths[1..]| && OnPath(paths[1..][k], p);
        assert OnPath(paths[k + 1], p);
      }
    }
  }

  /**
   * The abyss line as the source's drawing loop computes it: the row is recorded only
   * after each move, so a pair's starting cell is not recorded by its own walk. Later
   * pairs start at a recorded end, so only a path's first cell can be missed. This
   * follows the walk of one pair from `(x, y)` towards `b`: the end row is recorded
   * whenever the pair moves at all, and on a vertical pair the starting row is not.
   */
  function RunBottomAsWritten(x: int, y: int, b: Pos, bottom: int): (r: int)
    ensures r >= bottom
    ensures (x != b.x || y != b.y) ==> r >= b.y
    ensures x == b.x ==> r == (if y == b.y then bottom else Max(bottom, Max(b.y, y - 1)))
    decreases (if x < b.x then b.x - x else x - b.x) + (if y < b.y then b.y - y else y - b.y)
  {
    if x != b.x then
      RunBottomAsWritten(if x < b.x then x + 1 else x - 1, y, b, Max(bottom, y))
    else if y != b.y then
      var y' := if y < b.y then y + 1 else y - 1;
      RunBottomAsWritten(x, y', b, Max(bottom, y'))
    else bottom
  }

  /** The written abyss tracking over one path: every waypoint reached by a move is recorded. */
  function PathBottomAsWritten(steps: seq<Pos>, bottom: int): (r: int)
    ensures r >= bottom
    ensures forall k :: 1 <= k < |steps| && steps[k] != steps[k - 1] ==> r >= steps[k].y
    decreases |steps|
  {
    if |steps| < 2 then bottom
    else PathBottomAsWritten(steps[1..], RunBottomAsWritten(steps[0].x, steps[0].y, steps[1], bottom))
  }

  /** The written abyss tracking over all paths, from `bottom`. */
  function LowestRockAsWritten(paths: seq<seq<Pos>>, bottom: int): (r: int)
    ensures r >= bottom
    ensures forall i, k :: 0 <= i < |paths| && 1 <= k < |paths[i]| && paths[i][k] != paths[i][k - 1] ==>
              r >= paths[i][k].y
    decreases |paths|
  {
    if paths == [] then bottom
    else LowestRockAsWritten(paths[1..], PathBottomAsWritten(paths[0], bottom))
  }

  /**
   * A single path that climbs from its first waypoint: its lowest cell is the starting
   * cell, which the source never records, so the floor ends up one row too high.
   */
  lemma AbyssAsWrittenMissesFirstCell()
    ensures var paths := [[Pos(500, 9), Pos(500, 5)]];
      && IsRockCell(paths, Pos(500, 9))
      && LowestRock(paths) == 9
      && LowestRockAsWritten(paths, 0) == 8
  {
    var paths := [[Pos(500, 9), Pos(500, 5)]];
    assert OnRun(paths[0][0], paths[0][1], Pos(500, 9));
    assert OnPath(paths[0], Pos(500, 9));
    assert RunBottomAsWritten(500, 9, Pos(500, 5), 0) == 8 by {
      calc {
        RunBottomAsWritten(500, 9, Pos(500, 5), 0);
        RunBottomAsWritten(500, 8, Pos(500, 5), 8);
        RunBottomAsWritten(500, 7, Pos(500, 5), 8);
        RunBottomAsWritten(500, 6, Pos(500, 5), 8);
        RunBottomAsWritten(500, 5, Pos(500, 5), 8);
      }
    }
    assert PathBottomAsWritten(paths[0], 0) == 8;
  }

  // ---------------------------------------------------------------------------
  // Drawing into the grid
  // ---------------------------------------------------------------------------

  /**
   * Draws the run `a -> b` into `grid`, x first, then y, both endpoints included, and
   * raises `bottom` to the lowest row written. Only `Rock` is ever written.
   */
  method DrawRun(grid: array2<Tile>, a: Pos, b: Pos, bottom: int) returns (newBottom: int)
    requires 0 <= a.y < grid.Length0 && 0 <= TranslateX(a.x, grid.Length1) < grid.Length1
    requires 0 <= b.y < grid.Length0 && 0 <= TranslateX(b.x, grid.Length1) < grid.Length1
    modifies grid
    ensures newBottom == Max(bottom, Max(a.y, b.y))
    ensures forall gy, gx :: 0 <= gy < grid.Length0 && 0 <= gx < grid.Length1 ==>
      grid[gy, gx] == if OnRun(a, b, Pos(PuzzleX(gx, grid.Length1), gy)) then Rock else old(grid[gy, gx])
  {
    var width := grid.Length1;
    var x, y := a.x, a.y;
    newBottom := bottom;
    while true
      invariant Between(a.x, b.x, x) && Between(a.y, b.y, y)
      invariant x != b.x ==> y == a.y
      invariant bottom <= newBottom <= Max(bottom, Max(a.y, b.y))
      invariant (x, y) != (a.x, a.y) ==> newBottom >= a.y
      invariant forall gy, gx :: 0 <= gy < grid.Length0 && 0 <= gx < grid.Length1 ==>
        grid[gy, gx] ==
          var p := Pos(PuzzleX(gx, width), gy);
          if OnRun(a, Pos(x, y), p) && p != Pos(x, y) then Rock else old(grid[gy, gx])
      decreases (if x < b.x then b.x - x else x - b.x) + (if y < b.y then b.y - y else y - b.y)
    {
      grid[y, TranslateX(x, width)] := Rock;
      // Every written cell counts towards the abyss line, the first one included.
      newBottom := Max(newBottom, y);
      if x != b.x {
        x := if x < b.x then x + 1 else x - 1;
      } else if y != b.y {
        y := if y < b.y then y + 1 else y - 1;
      } else {
        break;
      }
    }
  }

  /** Draws every run of one path and returns the updated abyss line. */
  method DrawPath(grid: array2<Tile>, steps: seq<Pos>, bottom: int) returns (newBottom: int)
    requires |steps| >= 2 ==> forall i :: 0 <= i < |steps| ==>
      0 <= steps[i].y < grid.Length0 && 0 <= TranslateX(steps[i].x, grid.Length1) < grid.Length1
    modifies grid
    ensures newBottom == PathBottom(steps, bottom)
    ensures forall gy, gx :: 0 <= gy < grid.Length0 && 0 <= gx < grid.Length1 ==>
      grid[gy, gx] == if OnPath(steps, Pos(PuzzleX(gx, grid.Length1), gy)) then Rock else old(grid[gy, gx])
  {
    newBottom := bottom;
    if |steps| < 2 {
      return;
    }
    var i := 0;
    while i < |steps| - 1
      invariant 0 <= i <= |steps| - 1
      invariant PathBottom(steps, bottom) == PathBottom(steps[i..], newBottom)
      invariant forall gy, gx :: 0 <= gy < grid.Length0 && 0 <= gx < grid.Length1 ==>
        grid[gy, gx] == if OnFirstRuns(steps, i, Pos(PuzzleX(gx, grid.Length1), gy)) then Rock else old(grid[gy, gx])
    {
      assert steps[i..][1..] == steps[i + 1..];
      newBottom := DrawRun(grid, steps[i], steps[i + 1], newBottom);
      i := i + 1;
    }
    forall p {
      OnFirstRunsSpec(steps, i, p);
    }
  }

  /** Draws all rock paths and returns the lowest rock row (0 when none). */
  method DrawRocks(grid: array2<Tile>, paths: seq<seq<Pos>>) returns (bottom: int)
    requires PathsFit(paths, grid.Length1, grid.Length0)
    modifies grid
    ensures bottom == LowestRock(paths)
    ensures forall gy, gx :: 0 <= gy < grid.Length0 && 0 <= gx < grid.Length1 ==>
      grid[gy, gx] == if IsRockCell(paths, Pos(PuzzleX(gx, grid.Length1), gy)) then Rock else old(grid[gy, gx])
  {
    bottom := 0;
    var k := 0;
    while k < |paths|
      invariant 0 <= k <= |paths|
      invariant PathsBottom(paths, 0) == PathsBottom(paths[k..], bottom)
      invariant forall gy, gx :: 0 <= gy < grid.Length0 && 0 <= gx < grid.Length1 ==>
        grid[gy, gx] == if OnFirstPaths(paths, k, Pos(PuzzleX(gx, grid.Length1), gy)) then Rock else old(grid[gy, gx])
    {
      assert paths[k..][1..] == paths[k + 1..];
      bottom := DrawPath(grid, paths[k], bottom);
      k := k + 1;
    }
    assert paths[k..] == [];
    forall p {
      OnFirstPathsSpec(paths, k, p);
    }
  }

  /** Fills row `row` with rock; no other cell changes. */
  method DrawFloor(grid: array2<Tile>, row: int)
    requires 0 <= row < grid.Length0
    modifies grid
    ensures forall gy, gx :: 0 <= gy < grid.Length0 && 0 <= gx < grid.Length1 ==>
      grid[gy, gx] == if gy == row then Rock else old(grid[gy, gx])
  {
    var x := 0;
    while x < grid.Length1
      invariant 0 <= x <= grid.Length1
      invariant forall gy, gx :: 0 <= gy < grid.Length0 && 0 <= gx < grid.Length1 ==>
        grid[gy, gx] == if gy == row && gx < x then Rock else old(grid[gy, gx])
    {
      grid[row, x] := Rock;
      x := x + 1;
    }
  }

  // ---------------------------------------------------------------------------
  // The cave as a value (grid coordinates)
  // ---------------------------------------------------------------------------

  /**
   * The cave seen by the pouring loop: its rock cells, the row of the solid floor and
   * the column of the source, whose row is 0.
   */
  datatype Cave = Cave(rocks: iset<Pos>, floorY: int, cx: int)

  function Source(cave: Cave): Pos {
    Pos(cave.cx, 0)
  }

  /** The tile at `p` once the cells of `sand` hold settled grains. */
  ghost function TileOf(cave: Cave, sand: set<Pos>, p: Pos): Tile {
    if p in sand then Sand
    else if p in cave.rocks || p.y == cave.floorY then Rock
    else Air
  }

  /** Cells a grain released at the source can occupy: above the floor, within one column per row of the source. */
  predicate InCone(cave: Cave, p: Pos) {
    0 <= p.y < cave.floorY && cave.cx - p.y <= p.x <= cave.cx + p.y
  }

  /** A bounding box of the cone, used to measure progress. */
  ghost function Box(cave: Cave): set<Pos> {
    set x: int, y: int | cave.cx - cave.floorY <= x <= cave.cx + cave.floorY && 0 <= y < cave.floorY :: Pos(x, y)
  }

  lemma ConeInBox(cave: Cave, p: Pos)
    requires InCone(cave, p)
    ensures p in Box(cave)
  {
    assert p == Pos(p.x, p.y);
  }

  /** The grid of `width` columns and `height` rows holds the whole cone, the floor row and the columns either side of it. */
  predicate Fits(cave: Cave, width: int, height: int) {
    0 < cave.floorY < height && 0 <= cave.cx - cave.floorY && cave.cx + cave.floorY < width
  }

  /**
   * One move of a grain at `p`: down if that cell is air, else down-left, else
   * down-right; `None` when all three are blocked and the grain rests.
   */
  ghost function Step(cave: Cave, sand: set<Pos>, p: Pos): (next: Option<Pos>)
    requires InCone(cave, p)
    ensures next.Some? ==> next.value.y == p.y + 1 && InCone(cave, next.value)
    ensures next.Some? ==> TileOf(cave, sand, next.value) == Air
  {
    var down, left, right := Pos(p.x, p.y + 1), Pos(p.x - 1, p.y + 1), Pos(p.x + 1, p.y + 1);
    if TileOf(cave, sand, down) == Air then Some(down)
    else if TileOf(cave, sand, left) == Air then Some(left)
    else if TileOf(cave, sand, right) == Air then Some(right)
    else None
  }

  /**
   * Where a grain started at `p` comes to rest. It never leaves the cone, so it never
   * goes below the row just above the floor, and it rests on air unless it never moved.
   */
  ghost function Descend(cave: Cave, sand: set<Pos>, p: Pos): (rest: Pos)
    requires InCone(cave, p)
    ensures InCone(cave, rest) && rest.y >= p.y
    ensures Step(cave, sand, rest) == None
    ensures rest == p || TileOf(cave, sand, rest) == Air
    decreases cave.floorY - p.y
  {
    match Step(cave, sand, p)
    case None => p
    case Some(q) => Descend(cave, sand, q)
  }

  /**
   * The resting cells of successive grains, each released at the source in the cave
   * left by the grains before it, up to and including the grain that rests on the
   * source. This is the restart-from-the-source reading of the puzzle.
   */
  ghost function Settle(cave: Cave, sand: set<Pos>): (rests: seq<Pos>)
    requires 0 < cave.floorY && Source(cave) !in sand
    ensures |rests| >= 1 && rests[|rests| - 1] == Source(cave)
    decreases Box(cave) - sand
  {
    var r := Descend(cave, sand, Source(cave));
    ConeInBox(cave, r);
    if r == Source(cave) then [r] else [r] + Settle(cave, sand + {r})
  }

  /** One grain of the restart-from-the-source reading: where it rests, and what follows it. */
  lemma SettleUnfold(cave: Cave, sand: set<Pos>)
    requires 0 < cave.floorY && Source(cave) !in sand
    ensures var r := Descend(cave, sand, Source(cave));
      Settle(cave, sand) == if r == Source(cave) then [r] else [r] + Settle(cave, sand + {r})
  {
  }

  /**
   * A trajectory prefix in the current cave: it starts at the source, entry `i` sits on
   * row `i` inside the cone, and each entry is the move the rule makes from the previous one.
   */
  ghost predicate IsTrajectory(cave: Cave, sand: set<Pos>, path: seq<Pos>) {
    && |path| > 0 && path[0] == Source(cave)
    && (forall i :: 0 <= i < |path| ==> path[i].y == i && InCone(cave, path[i]))
    && (forall i :: 0 <= i < |path| - 1 ==> Step(cave, sand, path[i]) == Some(path[i + 1]))
  }

  /** A trajectory grows by the move the rule makes from its top. */
  lemma TrajectoryExtend(cave: Cave, sand: set<Pos>, path: seq<Pos>, q: Pos)
    requires IsTrajectory(cave, sand, path)
    requires Step(cave, sand, path[|path| - 1]) == Some(q)
    ensures IsTrajectory(cave, sand, path + [q])
  {
  }

  /** Resuming a grain from the top of a trajectory prefix gives the same resting cell as starting it at the source. */
  lemma {:induction false} ResumeEqualsRestart(cave: Cave, sand: set<Pos>, path: seq<Pos>)
    requires IsTrajectory(cave, sand, path)
    ensures Descend(cave, sand, Source(cave)) == Descend(cave, sand, path[|path| - 1])
    decreases |path|
  {
    if |path| > 1 {
      var prefix := path[..|path| - 1];
      assert IsTrajectory(cave, sand, prefix);
      ResumeEqualsRestart(cave, sand, prefix);
      assert Step(cave, sand, path[|path| - 2]) == Some(path[|path| - 1]);
    }
  }

  /** A grain that settles at `r` only changes the moves made from the row just above `r`. */
  lemma StepIgnoresOtherRows(cave: Cave, sand: set<Pos>, p: Pos, r: Pos)
    requires InCone(cave, p) && r.y != p.y + 1
    ensures Step(cave, sand + {r}, p) == Step(cave, sand, p)
  {
    assert TileOf(cave, sand + {r}, Pos(p.x, p.y + 1)) == TileOf(cave, sand, Pos(p.x, p.y + 1));
    assert TileOf(cave, sand + {r}, Pos(p.x - 1, p.y + 1)) == TileOf(cave, sand, Pos(p.x - 1, p.y + 1));
    assert TileOf(cave, sand + {r}, Pos(p.x + 1, p.y + 1)) == TileOf(cave, sand, Pos(p.x + 1, p.y + 1));
  }

  /** Popping the resting cell off a trajectory leaves a trajectory of the cave that now holds that grain. */
  lemma TrajectoryAfterRest(cave: Cave, sand: set<Pos>, path: seq<Pos>)
    requires IsTrajectory(cave, sand, path) && |path| >= 2
    ensures IsTrajectory(cave, sand + {path[|path| - 1]}, path[..|path| - 1])
  {
    var r := path[|path| - 1];
    var prefix := path[..|path| - 1];
    forall i | 0 <= i < |prefix| - 1
      ensures Step(cave, sand + {r}, prefix[i]) == Some(prefix[i + 1])
    {
      StepIgnoresOtherRows(cave, sand, prefix[i], r);
    }
  }

  /** The set of cells listed in `rests`. */
  function Cells(rests: seq<Pos>): set<Pos>
    decreases |rests|
  {
    if rests == [] then {} else Cells(rests[..|rests| - 1]) + {rests[|rests| - 1]}
  }

  lemma {:induction false} CellsAreRests(rests: seq<Pos>)
    ensures forall p :: p in Cells(rests) <==> p in rests
    decreases |rests|
  {
    if rests != [] {
      CellsAreRests(rests[..|rests| - 1]);
      assert rests == rests[..|rests| - 1] + [rests[|rests| - 1]];
    }
  }

  /** Some grain of `rests` rests below the abyss line. */
  function Overflowed(rests: seq<Pos>, abyss: int): (b: bool)
    ensures b <==> exists j :: 0 <= j < |rests| && rests[j].y > abyss
    decreases |rests|
  {
    if rests == [] then false
    else
      var init := rests[..|rests| - 1];
      assert forall j :: 0 <= j < |init| ==> init[j] == rests[j];
      Overflowed(init, abyss) || rests[|rests| - 1].y > abyss
  }

  /**
   * The first answer: the number of grains that rest before the first grain that
   * passes the abyss line (and so would fall forever without the floor); 0 when no
   * grain ever does. Defined grain by grain, as the pouring loop computes it.
   */
  function PreOverflowCount(rests: seq<Pos>, abyss: int): (n: nat)
    ensures Overflowed(rests, abyss) ==>
      n < |rests| && rests[n].y > abyss && forall j :: 0 <= j < n ==> rests[j].y <= abyss
    ensures !Overflowed(rests, abyss) ==> n == 0
    decreases |rests|
  {
    if rests == [] then 0
    else
      var init := rests[..|rests| - 1];
      assert forall j :: 0 <= j < |init| ==> init[j] == rests[j];
      if Overflowed(init, abyss) then PreOverflowCount(init, abyss)
      else if rests[|rests| - 1].y > abyss then |init|
      else 0
  }

  /**
   * The first answer as the source computes it: `part1 == 0` doubles as "not yet
   * set", so a grain that passes the abyss line while the count is still 0 leaves it
   * at 0 and the next such grain sets it.
   */
  function Part1AsWritten(rests: seq<Pos>, abyss: int): (n: nat)
    ensures n > 0 ==> n < |rests| && rests[n].y > abyss
    ensures (forall k :: 0 <= k < |rests| ==> rests[k].y <= abyss) ==> n == 0
    decreases |rests|
  {
    if rests == [] then 0
    else
      var init := rests[..|rests| - 1];
      var part1 := Part1AsWritten(init, abyss);
      if part1 == 0 && rests[|rests| - 1].y > abyss then |init| else part1
  }

  /** As written, the first grain is never counted as the first to pass the abyss line: the answer is computed on the later grains. */
  lemma {:induction false} Part1AsWrittenSkipsFirst(rests: seq<Pos>, abyss: int)
    requires |rests| > 0
    ensures Part1AsWritten(rests, abyss) ==
      if Overflowed(rests[1..], abyss) then 1 + PreOverflowCount(rests[1..], abyss) else 0
    decreases |rests|
  {
    if |rests| > 1 {
      var init := rests[..|rests| - 1];
      Part1AsWrittenSkipsFirst(init, abyss);
      assert rests[1..][..|rests| - 2] == init[1..];
    }
  }

  /**
   * The source's first answer differs from the intended one exactly when the very
   * first grain already passes the abyss line and a later grain does too.
   */
  lemma Part1AsWrittenDiffers(rests: seq<Pos>, abyss: int)
    ensures Part1AsWritten(rests, abyss) != PreOverflowCount(rests, abyss) <==>
      |rests| > 0 && rests[0].y > abyss && exists j :: 1 <= j < |rests| && rests[j].y > abyss
  {
    if |rests| > 0 {
      Part1AsWrittenSkipsFirst(rests, abyss);
      var tail := rests[1..];
      assert forall j :: 0 <= j < |tail| ==> tail[j] == rests[j + 1];
      if Overflowed(tail, abyss) {
        var k := PreOverflowCount(tail, abyss);
        assert rests[k + 1].y > abyss;
        if rests[0].y <= abyss {
          assert forall j :: 0 <= j < k + 1 ==> rests[j].y <= abyss by {
            forall j | 0 <= j < k + 1 ensures rests[j].y <= abyss {
              if j > 0 { assert tail[j - 1] == rests[j]; }
            }
          }
        }
      } else {
        assert forall j :: 1 <= j < |rests| ==> rests[j].y <= abyss by {
          forall j | 1 <= j < |rests| ensures rests[j].y <= abyss {
            assert tail[j - 1] == rests[j];
          }
        }
      }
    }
  }

  // ---------------------------------------------------------------------------
  // Pouring sand with the trajectory stack
  // ---------------------------------------------------------------------------

  /** The grid shows the cave with the grains of `sand` settled. */
  ghost predicate Shows(grid: array2<Tile>, cave: Cave, sand: set<Pos>)
    reads grid
  {
    forall gy, gx :: 0 <= gy < grid.Length0 && 0 <= gx < grid.Length1 ==>
      grid[gy, gx] == TileOf(cave, sand, Pos(gx, gy))
  }

  /** The top of a trajectory lies in the cone on row `|path| - 1`, so the cells below it are on the grid. */
  lemma TrajectoryTop(grid: array2<Tile>, cave: Cave, sand: set<Pos>, path: seq<Pos>)
    requires Fits(cave, grid.Length1, grid.Length0) && IsTrajectory(cave, sand, path)
    ensures var p := path[|path| - 1];
      p.y == |path| - 1 && 0 <= p.y + 1 < grid.Length0 && 0 <= p.x - 1 && p.x + 1 < grid.Length1
  {
  }

  /**
   * The loop's move from `p` to `q` (the first air cell among down, down-left and
   * down-right on the grid) is the rule's move, so the trajectory grows by `q`.
   */
  lemma TrajectoryAdvance(grid: array2<Tile>, cave: Cave, sand: set<Pos>, path: seq<Pos>, p: Pos, q: Pos)
    requires Fits(cave, grid.Length1, grid.Length0) && Shows(grid, cave, sand)
    requires IsTrajectory(cave, sand, path) && path[|path| - 1] == p
    requires 0 <= p.y + 1 < grid.Length0 && 0 <= p.x - 1 && p.x + 1 < grid.Length1
    requires q.y == p.y + 1 && (q.x == p.x || q.x == p.x - 1 || q.x == p.x + 1) && grid[q.y, q.x] == Air
    requires q.x != p.x ==> grid[p.y + 1, p.x] != Air
    requires q.x == p.x + 1 ==> grid[p.y + 1, p.x - 1] != Air
    ensures IsTrajectory(cave, sand, path + [q])
  {
    assert grid[p.y + 1, p.x] == TileOf(cave, sand, Pos(p.x, p.y + 1));
    assert grid[p.y + 1, p.x - 1] == TileOf(cave, sand, Pos(p.x - 1, p.y + 1));
    assert grid[q.y, q.x] == TileOf(cave, sand, q);
    TrajectoryExtend(cave, sand, path, q);
  }

  /** When the three cells below the top `p` are blocked on the grid, `p` is where a grain released at the source rests. */
  lemma TrajectoryBlocked(grid: array2<Tile>, cave: Cave, sand: set<Pos>, path: seq<Pos>, p: Pos)
    requires Fits(cave, grid.Length1, grid.Length0) && Shows(grid, cave, sand)
    requires IsTrajectory(cave, sand, path) && path[|path| - 1] == p
    requires 0 <= p.y + 1 < grid.Length0 && 0 <= p.x - 1 && p.x + 1 < grid.Length1
    requires grid[p.y + 1, p.x] != Air && grid[p.y + 1, p.x - 1] != Air && grid[p.y + 1, p.x + 1] != Air
    ensures p == Descend(cave, sand, Source(cave))
  {
    assert grid[p.y + 1, p.x] == TileOf(cave, sand, Pos(p.x, p.y + 1));
    assert grid[p.y + 1, p.x - 1] == TileOf(cave, sand, Pos(p.x - 1, p.y + 1));
    assert grid[p.y + 1, p.x + 1] == TileOf(cave, sand, Pos(p.x + 1, p.y + 1));
    ResumeEqualsRestart(cave, sand, path);
  }

  lemma PopTop(path: seq<Pos>)
    requires |path| > 0
    ensures path[..|path| - 1] + [path[|path| - 1]] == path
  {
  }

  /** Marking the resting cell `r` as sand makes the grid show the cave with one more grain. */
  method PlaceGrain(grid: array2<Tile>, ghost cave: Cave, ghost sand: set<Pos>, r: Pos)
    requires Fits(cave, grid.Length1, grid.Length0) && Shows(grid, cave, sand) && InCone(cave, r)
    modifies grid
    ensures Shows(grid, cave, sand + {r})
  {
    grid[r.y, r.x] := Sand;
  }

  /**
   * The bookkeeping for one more grain resting at `r`, the cell where a grain released
   * at the source rests: it is the next element of the restart-from-the-source
   * reading, the last one when it rests on the source, and the counts follow it.
   */
  lemma NextGrain(cave: Cave, all: seq<Pos>, rests: seq<Pos>, r: Pos, abyss: int)
    requires 0 < cave.floorY && Source(cave) !in Cells(rests)
    requires all == rests + Settle(cave, Cells(rests))
    requires r == Descend(cave, Cells(rests), Source(cave))
    ensures InCone(cave, r) && Cells(rests + [r]) == Cells(rests) + {r}
    ensures r == Source(cave) ==> all == rests + [r]
    ensures r != Source(cave) ==>
      && Source(cave) !in Cells(rests + [r])
      && all == (rests + [r]) + Settle(cave, Cells(rests + [r]))
      && Box(cave) - Cells(rests + [r]) < Box(cave) - Cells(rests)
    ensures Overflowed(rests + [r], abyss) == (Overflowed(rests, abyss) || r.y > abyss)
    ensures PreOverflowCount(rests + [r], abyss) ==
      if !Overflowed(rests, abyss) && r.y > abyss then |rests| else PreOverflowCount(rests, abyss)
  {
    var sand := Cells(rests);
    ConeInBox(cave, r);
    assert (rests + [r])[..|rests|] == rests;
    if r != Source(cave) {
      assert TileOf(cave, sand, r) == Air;
      assert Settle(cave, sand) == [r] + Settle(cave, sand + {r});
      assert rests + ([r] + Settle(cave, sand + {r})) == (rests + [r]) + Settle(cave, sand + {r});
    }
  }

  /**
   * The fall of one grain, resumed at `top` on top of the trajectory prefix `path`:
   * moves down, down-left or down-right into air until blocked, pushing every cell it
   * passes. Along the way it records the resting count as the first answer the first
   * time a grain is seen below the abyss line.
   */
  method Fall(grid: array2<Tile>, ghost cave: Cave, ghost sand: set<Pos>, path: seq<Pos>, top: Pos,
              abyss: int, resting: nat, part1: nat, overflowed: bool)
    returns (path': seq<Pos>, rest: Pos, part1': nat, overflowed': bool)
    requires Fits(cave, grid.Length1, grid.Length0) && Shows(grid, cave, sand)
    requires IsTrajectory(cave, sand, path + [top])
    ensures IsTrajectory(cave, sand, path') && path'[|path'| - 1] == rest
    ensures rest == Descend(cave, sand, Source(cave))
    ensures overflowed' <==> overflowed || rest.y > abyss
    ensures part1' == if !overflowed && rest.y > abyss then resting else part1
  {
    path' := path;
    var x, y := top.x, top.y;
    part1', overflowed' := part1, overflowed;
    while true
      invariant IsTrajectory(cave, sand, path' + [Pos(x, y)])
      invariant overflowed' ==> overflowed || y > abyss
      invariant !overflowed && overflowed' ==> part1' == resting
      invariant !(!overflowed && overflowed') ==> part1' == part1 && overflowed' == overflowed
      decreases cave.floorY - y
    {
      if !overflowed' && y > abyss {
        part1' := resting;
        overflowed' := true;
      }
      path' := path' + [Pos(x, y)];
      TrajectoryTop(grid, cave, sand, path');
      ghost var p := Pos(x, y);
      if grid[y + 1, x] == Air {
        y := y + 1;
      } else if grid[y + 1, x - 1] == Air {
        y, x := y + 1, x - 1;
      } else if grid[y + 1, x + 1] == Air {
        y, x := y + 1, x + 1;
      } else {
        TrajectoryBlocked(grid, cave, sand, path', p);
        break;
      }
      TrajectoryAdvance(grid, cave, sand, path', p, Pos(x, y));
    }
    rest := Pos(x, y);
  }

  /**
   * Pours grains until one rests on the source. Each grain resumes from the top of the
   * previous grain's trajectory. Returns the count before the first grain passes the
   * abyss line and the total count. The grid ends up holding exactly the cave plus the
   * grains of the restart-from-the-source reading, and the counts are that reading's.
   */
  method Pour(grid: array2<Tile>, abyss: int, ghost cave: Cave) returns (part1: nat, resting: nat, ghost rests: seq<Pos>)
    requires abyss >= 0 && cave.floorY == abyss + 2 && cave.cx == grid.Length1 / 2
    requires Fits(cave, grid.Length1, grid.Length0) && Shows(grid, cave, {})
    modifies grid
    ensures rests == Settle(cave, {})
    ensures resting == |rests|
    ensures part1 == PreOverflowCount(rests, abyss)
    ensures Shows(grid, cave, Cells(rests))
  {
    resting := 0;
    part1 := 0;
    // Whether a grain has passed the abyss line yet; the source tests `part1 == 0` instead.
    var overflowed := false;
    var source := Pos(TranslateX(500, grid.Length1), 0);
    var path := [source];
    rests := [];
    ghost var all := Settle(cave, {});
    while true
      invariant IsTrajectory(cave, Cells(rests), path)
      invariant Source(cave) !in Cells(rests)
      invariant all == rests + Settle(cave, Cells(rests))
      invariant resting == |rests|
      invariant overflowed == Overflowed(rests, abyss)
      invariant part1 == PreOverflowCount(rests, abyss)
      invariant Shows(grid, cave, Cells(rests))
      decreases Box(cave) - Cells(rests)
    {
      ghost var sand := Cells(rests);
      PopTop(path);
      var top := path[|path| - 1];
      path := path[..|path| - 1];
      var r;
      path, r, part1, overflowed := Fall(grid, cave, sand, path, top, abyss, resting, part1, overflowed);
      NextGrain(cave, all, rests, r, abyss);
      PlaceGrain(grid, cave, sand, r);
      resting := resting + 1;
      if |path| >= 2 {
        TrajectoryAfterRest(cave, sand, path);
      }
      path := path[..|path| - 1];
      rests := rests + [r];
      if r == source {
        break;
      }
    }
  }

  // ---------------------------------------------------------------------------
  // The whole program
  // ---------------------------------------------------------------------------

  /**
   * The cave described by the rock paths, in the coordinates of a grid `width`
   * columns wide: rock wherever a path is drawn, the floor two rows below the lowest
   * rock, and the source in the middle column.
   */
  ghost function CaveOf(paths: seq<seq<Pos>>, width: int): (cave: Cave)
    ensures cave.cx == TranslateX(500, width) && cave.floorY == LowestRock(paths) + 2
    ensures forall p :: p in cave.rocks <==> IsRockCell(paths, Pos(PuzzleX(p.x, width), p.y))
  {
    Cave((iset p: Pos | IsRockCell(paths, Pos(PuzzleX(p.x, width), p.y))), LowestRock(paths) + 2, width / 2)
  }

  /**
   * The program: draws the rock paths into an all-air grid of `height` rows and
   * `width` columns (500 and 180 in the source), lays the floor two rows below the
   * lowest rock, and pours sand until the source is blocked. The answers are those
   * of the restart-from-the-source reading of the cave the paths describe: the
   * grains that rest before one would fall past the lowest rock, and all grains.
   */
  method Solve(paths: seq<seq<Pos>>, width: int, height: int) returns (part1: nat, part2: nat)
    requires 0 < width && 0 < height
    requires PathsFit(paths, width, height) && Fits(CaveOf(paths, width), width, height)
    ensures part2 == |Settle(CaveOf(paths, width), {})|
    ensures part1 == PreOverflowCount(Settle(CaveOf(paths, width), {}), LowestRock(paths))
  {
    var grid := new Tile[height, width]((_, _) => Air);
    var abyss := DrawRocks(grid, paths);
    DrawFloor(grid, abyss + 2);
    ghost var cave := CaveOf(paths, width);
    assert Shows(grid, cave, {});
    ghost var rests;
    part1, part2, rests := Pour(grid, abyss, cave);
  }

  /**
   * A cave with floor row 3 and source column 4 whose rock holds the cell below the
   * source but not the cells down-left of it: the first two grains both slide off to
   * the left and rest on the floor, past the abyss line at row 1.
   */
  lemma SentinelGrains(cave: Cave)
    requires cave.floorY == 3 && cave.cx == 4
    requires Pos(4, 1) in cave.rocks && Pos(3, 1) !in cave.rocks
    requires Pos(3, 2) !in cave.rocks && Pos(2, 2) !in cave.rocks
    ensures PreOverflowCount(Settle(cave, {}), 1) == 0 && Part1AsWritten(Settle(cave, {}), 1) == 1
  {
    // First grain: (4,0) -> (3,1) -> (3,2), on the floor.
    assert Step(cave, {}, Pos(4, 0)) == Some(Pos(3, 1));
    assert Step(cave, {}, Pos(3, 1)) == Some(Pos(3, 2));
    assert Step(cave, {}, Pos(3, 2)) == None;
    var r0 := Descend(cave, {}, Pos(4, 0));
    assert r0 == Descend(cave, {}, Pos(3, 1)) == Descend(cave, {}, Pos(3, 2)) == Pos(3, 2);
    // Second grain: (4,0) -> (3,1) -> (2,2), on the floor.
    assert Step(cave, {r0}, Pos(4, 0)) == Some(Pos(3, 1));
    assert Step(cave, {r0}, Pos(3, 1)) == Some(Pos(2, 2));
    assert Step(cave, {r0}, Pos(2, 2)) == None;
    var r1 := Descend(cave, {r0}, Pos(4, 0));
    assert r1 == Descend(cave, {r0}, Pos(3, 1)) == Descend(cave, {r0}, Pos(2, 2)) == Pos(2, 2);
    var rests := Settle(cave, {});
    SettleUnfold(cave, {});
    assert {} + {r0} == {r0};
    SettleUnfold(cave, {r0});
    assert rests[0] == r0;
    assert rests[0].y > 1;
    Part1AsWrittenSkipsFirst(rests, 1);
    assert rests[1..][0] == r1;
  }

  /** The rock path `500,1 -> 501,1` in a grid 9 columns wide: the source at column 4, rock below it, the floor at row 3. */
  lemma SentinelCave(paths: seq<seq<Pos>>)
    requires paths == [[Pos(500, 1), Pos(501, 1)]]
    ensures LowestRock(paths) == 1
    ensures var cave := CaveOf(paths, 9);
      && cave.floorY == 3 && cave.cx == 4
      && Pos(4, 1) in cave.rocks && Pos(3, 1) !in cave.rocks
      && Pos(3, 2) !in cave.rocks && Pos(2, 2) !in cave.rocks
  {
    assert OnRun(paths[0][0], paths[0][1], Pos(500, 1));
    assert OnPath(paths[0], Pos(500, 1));
    assert IsRockCell(paths, Pos(500, 1));
    assert !IsRockCell(paths, Pos(499, 1));
    assert !IsRockCell(paths, Pos(499, 2));
    assert !IsRockCell(paths, Pos(498, 2));
  }

  /**
   * The source's first answer on a cave whose only rock is `500,1 -> 501,1`, in a
   * grid 9 columns wide: the first grain slides off the rock and rests below it,
   * already past the lowest rock, so the intended answer is 0; the source keeps 0 as
   * "not yet set" and reports the second grain's count, 1.
   */
  lemma Part1SentinelExample(paths: seq<seq<Pos>>)
    requires paths == [[Pos(500, 1), Pos(501, 1)]]
    ensures var cave := CaveOf(paths, 9);
      && Fits(cave, 9, 4) && LowestRock(paths) == 1
      && PreOverflowCount(Settle(cave, {}), 1) == 0
      && Part1AsWritten(Settle(cave, {}), 1) == 1
  {
    SentinelCave(paths);
    SentinelGrains(CaveOf(paths, 9));
  }
}
