/**
 * Day 8 (src/days/day8.rs): which trees of a height map are visible from
 * outside, and the best scenic score.
 *
 * The solver swaps the roles of width and height when it enumerates the
 * cells; on a square grid that makes no difference, and the model keeps to
 * square grids (`Square`).
 */
module Day08 {
  import opened Wrappers
  import Text

  datatype Grid = Grid(inner: seq<seq<int>>, width: int, height: int)

  /** `Grid::new`: the width is the length of the first row; an empty grid panics. */
  function New(inner: seq<seq<int>>): (g: Option<Grid>)
    ensures g.Some? <==> inner != []
    ensures g.Some? ==> g.value.inner == inner && g.value.width == |inner[0]| && g.value.height == |inner|
  {
    if inner == [] then None else Some(Grid(inner, |inner[0]|, |inner|))
  }

  /** Every row as long as the grid is high. */
  predicate Square(g: Grid)
  {
    g.height == |g.inner| && g.width == g.height && forall r :: 0 <= r < |g.inner| ==> |g.inner[r]| == g.width
  }

  /**
   * `get`: a negative coordinate becomes a huge `usize`, so everything off
   * the grid is `None`.
   */
  function Get(g: Grid, x: int, y: int): (r: Option<int>)
    ensures r.Some? <==> 0 <= y < |g.inner| && 0 <= x < |g.inner[y]|
    ensures r.Some? ==> r.value == g.inner[y][x]
  {
    if 0 <= y < |g.inner| && 0 <= x < |g.inner[y]| then Some(g.inner[y][x]) else None
  }

  /** `parse`: one row per line, one decimal digit per character. */
  function ParseRow(line: string): (r: Option<seq<int>>)
    ensures r.Some? <==> forall k :: 0 <= k < |line| ==> Text.IsDigit(line[k])
    ensures r.Some? ==> |r.value| == |line| && forall k :: 0 <= k < |line| ==> r.value[k] == Text.DigitValue(line[k])
  {
    if line == [] then Some([])
    else if !Text.IsDigit(line[0]) then None
    else
      var rest := ParseRow(line[1..]);
      if rest.None? then None else Some([Text.DigitValue(line[0])] + rest.value)
  }

  function ParseRows(lines: seq<string>): (r: Option<seq<seq<int>>>)
    ensures r.Some? ==> |r.value| == |lines|
    ensures r.Some? ==> forall i :: 0 <= i < |lines| ==> ParseRow(lines[i]) == Some(r.value[i])
  {
    if lines == [] then Some([])
    else
      var row := ParseRow(lines[0]);
      var rest := ParseRows(lines[1..]);
      if row.None? || rest.None? then None else Some([row.value] + rest.value)
  }

  function Parse(input: string): Option<Grid>
  {
    var rows := ParseRows(Text.Lines(input));
    if rows.None? then None else New(rows.value)
  }

  /** The four directions, in the order the solver tries them. */
  const Dirs: seq<(int, int)> := [(-1, 0), (0, 1), (1, 0), (0, -1)]

  /** A coordinate moved `k` unit steps along a direction component `d` of -1, 0 or 1. */
  function Along(c: int, d: int, k: nat): int
  {
    if d == 1 then c + k else if d == -1 then c - k else c
  }

  /** How many trees lie between a cell and the edge in a direction. */
  function Steps(g: Grid, x: nat, y: nat, d: (int, int)): nat
    requires Square(g) && x < g.width && y < g.height && d in Dirs
  {
    if d == (-1, 0) then x
    else if d == (1, 0) then g.width - 1 - x
    else if d == (0, 1) then g.height - 1 - y
    else y
  }

  /** The tree `k` steps away, for `k` up to the edge. */
  function At(g: Grid, x: nat, y: nat, d: (int, int), k: nat): int
    requires Square(g) && x < g.width && y < g.height && d in Dirs && k <= Steps(g, x, y, d)
  {
    g.inner[Along(y, d.1, k)][Along(x, d.0, k)]
  }

  /** Every tree between the cell and the edge is strictly shorter. */
  predicate ClearTowards(g: Grid, x: nat, y: nat, d: (int, int))
    requires Square(g) && x < g.width && y < g.height && d in Dirs
  {
    forall k :: 1 <= k <= Steps(g, x, y, d) ==> At(g, x, y, d, k) < g.inner[y][x]
  }

  predicate Visible(g: Grid, x: nat, y: nat)
    requires Square(g) && x < g.width && y < g.height
  {
    exists i :: 0 <= i < 4 && ClearTowards(g, x, y, Dirs[i])
  }

  /** A tree on the edge is visible from that side. */
  lemma EdgeTreesVisible(g: Grid, x: nat, y: nat)
    requires Square(g) && x < g.width && y < g.height
    requires x == 0 || y == 0 || x == g.width - 1 || y == g.height - 1
    ensures Visible(g, x, y)
  {
    if x == 0 {
      assert ClearTowards(g, x, y, Dirs[0]);
    } else if y == g.height - 1 {
      assert ClearTowards(g, x, y, Dirs[1]);
    } else if x == g.width - 1 {
      assert ClearTowards(g, x, y, Dirs[2]);
    } else {
      assert ClearTowards(g, x, y, Dirs[3]);
    }
  }

  /**
   * The walk of the `'dirs` loop in one direction: it stops with `false` at
   * the first tree at least as tall. It runs one row past the bottom edge
   * (`y <= height`), where `get` is `None` and nothing is blocked.
   */
  method IsClear(g: Grid, x: nat, y: nat, d: (int, int)) returns (clear: bool)
    requires Square(g) && x < g.width && y < g.height && d in Dirs
    ensures clear <==> ClearTowards(g, x, y, d)
  {
    var val := g.inner[y][x];
    var steps := Steps(g, x, y, d);
    var cx, cy := x + d.0, y + d.1;
    var k: nat := 1;
    while cx >= 0 && cx < g.width && cy >= 0 && cy <= g.height
      invariant cx == Along(x, d.0, k) && cy == Along(y, d.1, k)
      invariant 1 <= k <= steps + 2
      invariant forall j :: 1 <= j < k && j <= steps ==> At(g, x, y, d, j) < val
      decreases steps + 2 - k
    {
      var adj := Get(g, cx, cy);
      if adj.Some? && adj.value >= val {
        assert k <= steps && adj.value == At(g, x, y, d, k);
        return false;
      }
      cx, cy := cx + d.0, cy + d.1;
      k := k + 1;
    }
    return true;
  }

  /** The `filter` closure of `part1`: clear in some direction. */
  method IsVisible(g: Grid, x: nat, y: nat) returns (v: bool)
    requires Square(g) && x < g.width && y < g.height
    ensures v <==> Visible(g, x, y)
  {
    for i := 0 to 4
      invariant forall j :: 0 <= j < i ==> !ClearTowards(g, x, y, Dirs[j])
    {
      var clear := IsClear(g, x, y, Dirs[i]);
      if clear {
        return true;
      }
    }
    return false;
  }

  /** The visible trees of row `y` among its first `m` cells. */
  function CountRow(g: Grid, y: nat, m: nat): (c: nat)
    requires Square(g) && y < g.height && m <= g.width
    ensures c <= m
  {
    if m == 0 then 0 else CountRow(g, y, m - 1) + (if Visible(g, m - 1, y) then 1 else 0)
  }

  /** The visible trees of the first `m` rows. */
  function CountGrid(g: Grid, m: nat): (c: nat)
    requires Square(g) && m <= g.height
  {
    if m == 0 then 0 else CountGrid(g, m - 1) + CountRow(g, m - 1, g.width)
  }

  /** `part1`: the number of visible trees. */
  method Part1(g: Grid) returns (r: nat)
    requires Square(g)
    ensures r == CountGrid(g, g.height)
  {
    r := 0;
    for y := 0 to g.width
      invariant r == CountGrid(g, y)
    {
      var row := VisibleInRow(g, y);
      r := r + row;
    }
  }

  /** The inner loop of `part1`: the visible trees of row `y`. */
  method VisibleInRow(g: Grid, y: nat) returns (row: nat)
    requires Square(g) && y < g.height
    ensures row == CountRow(g, y, g.width)
  {
    row := 0;
    for x := 0 to g.height
      invariant row == CountRow(g, y, x)
    {
      var v := IsVisible(g, x, y);
      if v {
        row := row + 1;
      }
    }
  }

  /** A row has every tree visible when it is an edge row, and at least its two ends otherwise. */
  lemma {:induction false} CountRowBounds(g: Grid, y: nat, m: nat)
    requires Square(g) && y < g.height && 1 <= m <= g.width
    ensures y == 0 || y == g.height - 1 ==> CountRow(g, y, m) == m
    ensures CountRow(g, y, m) >= (if m == g.width && m > 1 then 2 else 1)
  {
    if m == 1 {
      EdgeTreesVisible(g, 0, y);
    } else {
      CountRowBounds(g, y, m - 1);
      if y == 0 || y == g.height - 1 || m == g.width {
        EdgeTreesVisible(g, m - 1, y);
      }
    }
  }

  /** Every edge tree counts: at least `4 * (n - 1)` trees are visible on an `n`-by-`n` grid. */
  lemma {:induction false} EdgeTreesCounted(g: Grid, m: nat)
    requires Square(g) && 2 <= g.height && 1 <= m <= g.height
    ensures m < g.height ==> CountGrid(g, m) >= g.width + 2 * (m - 1)
    ensures m == g.height ==> CountGrid(g, m) >= 4 * (g.width - 1)
  {
    CountRowBounds(g, m - 1, g.width);
    if m > 1 {
      EdgeTreesCounted(g, m - 1);
    }
  }

  /**
   * The trees seen from step `k` on: every shorter tree, then the first one
   * at least as tall, and nothing past the edge.
   */
  function View(g: Grid, x: nat, y: nat, d: (int, int), k: nat): nat
    requires Square(g) && x < g.width && y < g.height && d in Dirs && k >= 1
    decreases Steps(g, x, y, d) + 1 - k
  {
    if k > Steps(g, x, y, d) then 0
    else if At(g, x, y, d, k) < g.inner[y][x] then 1 + View(g, x, y, d, k + 1)
    else 1
  }

  function ViewDistance(g: Grid, x: nat, y: nat, d: (int, int)): nat
    requires Square(g) && x < g.width && y < g.height && d in Dirs
  {
    View(g, x, y, d, 1)
  }

  /**
   * The view distance: all trees before it are shorter, it stops at the
   * first tree at least as tall or at the edge, and it is 0 on the edge.
   */
  lemma {:induction false} ViewMeaning(g: Grid, x: nat, y: nat, d: (int, int), k: nat)
    requires Square(g) && x < g.width && y < g.height && d in Dirs && 1 <= k <= Steps(g, x, y, d) + 1
    ensures var r := View(g, x, y, d, k);
      && k + r <= Steps(g, x, y, d) + 1
      && (r == 0 <==> k > Steps(g, x, y, d))
      && (forall j :: k <= j < k + r - 1 ==> At(g, x, y, d, j) < g.inner[y][x])
      && (r > 0 && k + r - 1 < Steps(g, x, y, d) ==> At(g, x, y, d, k + r - 1) >= g.inner[y][x])
    decreases Steps(g, x, y, d) + 1 - k
  {
    if k <= Steps(g, x, y, d) && At(g, x, y, d, k) < g.inner[y][x] {
      ViewMeaning(g, x, y, d, k + 1);
    }
  }

  /** The `while` loop of `part2` in one direction. */
  method DirScore(g: Grid, x: nat, y: nat, d: (int, int)) returns (score: nat)
    requires Square(g) && x < g.width && y < g.height && d in Dirs
    ensures score == ViewDistance(g, x, y, d)
  {
    var val := g.inner[y][x];
    var steps := Steps(g, x, y, d);
    var cx, cy := x + d.0, y + d.1;
    var k: nat := 1;
    score := 0;
    while cx >= 0 && cx < g.width && cy >= 0 && cy <= g.height
      invariant cx == Along(x, d.0, k) && cy == Along(y, d.1, k)
      invariant 1 <= k <= steps + 1 && score == k - 1
      invariant ViewDistance(g, x, y, d) == score + View(g, x, y, d, k)
      decreases steps + 1 - k
    {
      var adj := Get(g, cx, cy);
      if adj.Some? && adj.value < val {
        score := score + 1;
      } else if adj.None? {
        break;
      } else {
        score := score + 1;
        break;
      }
      cx, cy := cx + d.0, cy + d.1;
      k := k + 1;
    }
  }

  function ScenicScore(g: Grid, x: nat, y: nat): nat
    requires Square(g) && x < g.width && y < g.height
  {
    ViewDistance(g, x, y, Dirs[0]) * ViewDistance(g, x, y, Dirs[1])
      * ViewDistance(g, x, y, Dirs[2]) * ViewDistance(g, x, y, Dirs[3])
  }

  /** A tree on the edge sees nothing one way, so its score is 0. */
  lemma EdgeScoreIsZero(g: Grid, x: nat, y: nat)
    requires Square(g) && x < g.width && y < g.height
    requires x == 0 || y == 0 || x == g.width - 1 || y == g.height - 1
    ensures ScenicScore(g, x, y) == 0
  {
    var i := if x == 0 then 0 else if y == g.height - 1 then 1 else if x == g.width - 1 then 2 else 3;
    assert Steps(g, x, y, Dirs[i]) == 0;
    assert ViewDistance(g, x, y, Dirs[i]) == 0;
  }

  /** The `map` closure of `part2`: the product of the four view distances. */
  method Scenic(g: Grid, x: nat, y: nat) returns (score: nat)
    requires Square(g) && x < g.width && y < g.height
    ensures score == ScenicScore(g, x, y)
  {
    score := 1;
    for i := 0 to 4
      invariant score == if i == 0 then 1
        else if i == 1 then ViewDistance(g, x, y, Dirs[0])
        else if i == 2 then ViewDistance(g, x, y, Dirs[0]) * ViewDistance(g, x, y, Dirs[1])
        else if i == 3 then ViewDistance(g, x, y, Dirs[0]) * ViewDistance(g, x, y, Dirs[1]) * ViewDistance(g, x, y, Dirs[2])
        else ScenicScore(g, x, y)
    {
      var s := DirScore(g, x, y, Dirs[i]);
      score := score * s;
    }
  }

  /** No tree before column `x` of row `y`, in reading order, scores more than `r`. */
  ghost predicate Dominates(g: Grid, r: nat, y: nat, x: nat)
    requires Square(g)
  {
    forall x': nat, y': nat :: x' < g.width && y' < g.height && (y' < y || (y' == y && x' < x)) ==>
      ScenicScore(g, x', y') <= r
  }

  lemma DominatesStep(g: Grid, r: nat, r': nat, y: nat, x: nat)
    requires Square(g) && x < g.width && y < g.height && Dominates(g, r, y, x)
    requires r <= r' && ScenicScore(g, x, y) <= r'
    ensures Dominates(g, r', y, x + 1)
  {
  }

  lemma DominatesRow(g: Grid, r: nat, y: nat)
    requires Square(g) && Dominates(g, r, y, g.width)
    ensures Dominates(g, r, y + 1, 0)
  {
  }

  /** `part2`: the highest scenic score of any tree. */
  method Part2(g: Grid) returns (r: nat)
    requires Square(g) && g.height > 0
    ensures exists x: nat, y: nat :: x < g.width && y < g.height && r == ScenicScore(g, x, y)
    ensures forall x: nat, y: nat :: x < g.width && y < g.height ==> ScenicScore(g, x, y) <= r
  {
    r := Scenic(g, 0, 0);
    ghost var bestX: nat, bestY: nat := 0, 0;
    for y := 0 to g.width
      invariant bestX < g.width && bestY < g.height && r == ScenicScore(g, bestX, bestY)
      invariant Dominates(g, r, y, 0)
    {
      for x := 0 to g.height
        invariant bestX < g.width && bestY < g.height && r == ScenicScore(g, bestX, bestY)
        invariant Dominates(g, r, y, x)
      {
        var s := Scenic(g, x, y);
        if s > r {
          DominatesStep(g, r, s, y, x);
          r := s;
          bestX, bestY := x, y;
        } else {
          DominatesStep(g, r, r, y, x);
        }
      }
      DominatesRow(g, r, y);
    }
    assert Dominates(g, r, g.height, 0);
  }
}
