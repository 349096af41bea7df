/**
 * Day 14 (src/days/day14.rs): sand falls from (500, 0) into a cave of rock
 * segments, trying straight down, then down-left, then down-right, and
 * comes to rest when all three are blocked.
 *
 * Part 1 keeps the cave as columns of cells (`inner`) and counts the grains
 * that rest before one falls out; part 2 keeps the blocked cells as a set
 * (`blocks`) over an endless floor two rows below the lowest rock, and
 * counts the grains until the source is covered. `Settle` and `Drop` are
 * the two falls as functions, `Pour` and `Fill` the two counts; the methods
 * of `Grid` are the source's loops, proved to compute them.
 */
module Day14 {
  import opened Wrappers
  import Text

  type Pos = (int, int)

  /** A rock segment from `start` to `end`, both inclusive. */
  datatype Line = Line(start: Pos, end: Pos)

  datatype SandResult = Placed | Void

  /** The value `get_fixed` reports for a cell outside the grid: `u8::MAX`, which is never free. */
  const Outside: nat := 255

  function Min(a: int, b: int): int
  {
    if a <= b then a else b
  }

  function Max(a: int, b: int): int
  {
    if a <= b then b else a
  }

  // ---- Rock segments ----

  /** `v` lies between `a` and `b`, in whichever order they come. */
  predicate Between(a: int, b: int, v: int)
  {
    (a <= v <= b) || (b <= v <= a)
  }

  /** The `Line` that `parse` builds from two consecutive points of a path. */
  function Normalise(p: Pos, q: Pos): (l: Line)
    ensures l.start.0 <= l.end.0 && l.start.1 <= l.end.1
  {
    Line((Min(p.0, q.0), Min(p.1, q.1)), (Max(p.0, q.0), Max(p.1, q.1)))
  }

  /** The cells the nested loops of both parts visit for one segment. */
  function Cells(l: Line): set<Pos>
  {
    set x: int, y: int | l.start.0 <= x <= l.end.0 && l.start.1 <= y <= l.end.1 :: (x, y)
  }

  lemma CellsIn(l: Line, c: Pos)
    ensures c in Cells(l) <==> l.start.0 <= c.0 <= l.end.0 && l.start.1 <= c.1 <= l.end.1
  {
    if l.start.0 <= c.0 <= l.end.0 && l.start.1 <= c.1 <= l.end.1 {
      assert (c.0, c.1) in Cells(l);
    }
  }

  /** Normalising the ends keeps exactly the cells between the two points, and so loses no rock. */
  lemma NormaliseCells(p: Pos, q: Pos, c: Pos)
    ensures c in Cells(Normalise(p, q)) <==> Between(p.0, q.0, c.0) && Between(p.1, q.1, c.1)
  {
    var l := Normalise(p, q);
    if Between(p.0, q.0, c.0) && Between(p.1, q.1, c.1) {
      assert l.start.0 <= c.0 <= l.end.0 && l.start.1 <= c.1 <= l.end.1;
    }
  }

  /** All the rock cells of a list of segments. */
  function Rocks(lines: seq<Line>): set<Pos>
  {
    if lines == [] then {} else Rocks(lines[..|lines| - 1]) + Cells(lines[|lines| - 1])
  }

  lemma {:induction false} InRocks(lines: seq<Line>, c: Pos)
    ensures c in Rocks(lines) <==> exists i :: 0 <= i < |lines| && c in Cells(lines[i])
  {
    if lines != [] {
      var init := lines[..|lines| - 1];
      InRocks(init, c);
      if c in Rocks(init) {
        var i :| 0 <= i < |init| && c in Cells(init[i]);
        assert lines[i] == init[i];
      }
      if exists i :: 0 <= i < |lines| && c in Cells(lines[i]) {
        var i :| 0 <= i < |lines| && c in Cells(lines[i]);
        if i < |lines| - 1 {
          assert init[i] == lines[i];
        }
      }
    }
  }

  // ---- Parsing ----

  /** One `x,y` of a path; `None` where an `unwrap` panics. A third number is never read. */
  function ParsePoint(s: string): Option<Pos>
  {
    var parts := Text.Split(s, ",");
    if |parts| < 2 then None
    else
      match (Text.ParseUsize(parts[0]), Text.ParseUsize(parts[1]))
      case (Some(x), Some(y)) => Some((x, y))
      case _ => None
  }

  function ParsePoints(pieces: seq<string>): (r: Option<seq<Pos>>)
    ensures r.Some? ==> |r.value| == |pieces|
  {
    if pieces == [] then Some([])
    else
      match (ParsePoint(pieces[0]), ParsePoints(pieces[1..]))
      case (Some(p), Some(rest)) => Some([p] + rest)
      case _ => None
  }

  /** `windows(2)` over a path: one normalised segment per pair of consecutive points. */
  function Windows(points: seq<Pos>): (r: seq<Line>)
    ensures |r| == if |points| < 2 then 0 else |points| - 1
    ensures forall i :: 0 <= i < |r| ==> r[i] == Normalise(points[i], points[i + 1])
  {
    if |points| < 2 then [] else [Normalise(points[0], points[1])] + Windows(points[1..])
  }

  /** The segments of all the lines, in order. */
  function ParseSegments(rows: seq<string>): Option<seq<Line>>
  {
    if rows == [] then Some([])
    else
      match (ParsePoints(Text.Split(rows[0], " -> ")), ParseSegments(rows[1..]))
      case (Some(points), Some(rest)) => Some(Windows(points) + rest)
      case _ => None
  }

  /**
   * The running `(min_x, max_x, min_y, max_y)` of `parse`, from
   * `(usize::MAX, 0, usize::MAX, 0)`. The ends of a normalised segment are its
   * least and greatest coordinates, so taking them is taking both points.
   */
  function Bounds(lines: seq<Line>): (int, int, int, int)
  {
    if lines == [] then (Text.UsizeMax, 0, Text.UsizeMax, 0)
    else
      var b := Bounds(lines[..|lines| - 1]);
      var l := lines[|lines| - 1];
      (Min(b.0, l.start.0), Max(b.1, l.end.0), Min(b.2, l.start.1), Max(b.3, l.end.1))
  }

  /** Every segment lies inside the bounds, and with a segment at all the bounds are in order. */
  lemma {:induction false} BoundsContain(lines: seq<Line>)
    requires Normalised(lines)
    ensures var b := Bounds(lines);
      forall i :: 0 <= i < |lines| ==>
        b.0 <= lines[i].start.0 && lines[i].end.0 <= b.1 && b.2 <= lines[i].start.1 && lines[i].end.1 <= b.3
    ensures lines != [] ==> Bounds(lines).0 <= Bounds(lines).1 && Bounds(lines).2 <= Bounds(lines).3
    ensures 0 <= Bounds(lines).0 && 0 <= Bounds(lines).1 && 0 <= Bounds(lines).2 && 0 <= Bounds(lines).3
  {
    if lines != [] {
      var init := lines[..|lines| - 1];
      assert forall i :: 0 <= i < |init| ==> init[i] == lines[i];
      BoundsContain(init);
    }
  }

  /** The value `parse` builds; part 1 and part 2 each start from a copy (`input.clone()`). */
  datatype Cave = Cave(inner: seq<seq<nat>>, lines: seq<Line>, blocks: set<Pos>, xBounds: (int, int), yBounds: (int, int))

  /** Every column has the same number of cells. */
  predicate Rect(g: seq<seq<nat>>)
  {
    forall i :: 0 <= i < |g| ==> |g[i]| == Height(g)
  }

  /** `inner[0].len()`, the number of cells of a column. */
  function Height(g: seq<seq<nat>>): nat
  {
    if g == [] then 0 else |g[0]|
  }

  /**
   * What the grid keeps: one column per x from `min_x` to `max_x`, one cell
   * per y from 0 to `max_y`, and every segment inside those bounds.
   */
  predicate Valid(c: Cave)
  {
    0 <= c.xBounds.0 <= c.xBounds.1 && 0 <= c.yBounds.1
    && |c.inner| == c.xBounds.1 - c.xBounds.0 + 1 && Rect(c.inner) && Height(c.inner) == c.yBounds.1 + 1
    && forall i :: 0 <= i < |c.lines| ==> InBounds(c, c.lines[i])
  }

  predicate InBounds(c: Cave, l: Line)
  {
    c.xBounds.0 <= l.start.0 <= l.end.0 <= c.xBounds.1 && 0 <= l.start.1 <= l.end.1 <= c.yBounds.1
  }

  /**
   * `parse`: the segments of every line, the bounds, and an empty grid of
   * `max_x - min_x + 1` columns of `max_y + 1` cells. `None` where an
   * `unwrap` panics, and where there is no segment at all, since
   * `max_x - min_x` then underflows.
   */
  function Parse(input: string): (r: Option<Cave>)
    ensures r.Some? ==> Valid(r.value) && r.value.blocks == {}
    ensures r.Some? ==> forall i, j :: 0 <= i < |r.value.inner| && 0 <= j < |r.value.inner[i]| ==> r.value.inner[i][j] == 0
  {
    match ParseSegments(Text.Lines(input))
    case None => None
    case Some(lines) =>
      if lines == [] then None
      else
        var b := Bounds(lines);
        SegmentsNormalised(Text.Lines(input));
        BoundsContain(lines);
        var cave := Cave(Empty(b.1 - b.0 + 1, b.3 + 1), lines, {}, (b.0, b.1), (b.2, b.3));
        assert forall i :: 0 <= i < |lines| ==> InBounds(cave, lines[i]);
        Some(cave)
  }

  /** `vec![vec![0u8; height]; width]`. */
  function Empty(width: nat, height: nat): (g: seq<seq<nat>>)
    ensures |g| == width && Rect(g) && (width > 0 ==> Height(g) == height)
    ensures forall i, j :: 0 <= i < |g| && 0 <= j < |g[i]| ==> g[i][j] == 0
  {
    seq(width, i => seq(height, j => 0))
  }

  predicate Normalised(lines: seq<Line>)
  {
    forall i :: 0 <= i < |lines| ==> 0 <= lines[i].start.0 <= lines[i].end.0 && 0 <= lines[i].start.1 <= lines[i].end.1
  }

  lemma {:induction false} PointsNatural(pieces: seq<string>)
    requires ParsePoints(pieces).Some?
    ensures forall i :: 0 <= i < |pieces| ==> ParsePoints(pieces).value[i].0 >= 0 && ParsePoints(pieces).value[i].1 >= 0
  {
    if pieces != [] {
      PointsNatural(pieces[1..]);
      var rest := ParsePoints(pieces[1..]).value;
      assert forall i :: 1 <= i < |pieces| ==> ParsePoints(pieces).value[i] == rest[i - 1];
    }
  }

  /** Parsing normalises every segment: `start` is at most `end` on both axes, and nothing is negative. */
  lemma {:induction false} SegmentsNormalised(rows: seq<string>)
    requires ParseSegments(rows).Some?
    ensures Normalised(ParseSegments(rows).value)
  {
    if rows != [] {
      var pieces := Text.Split(rows[0], " -> ");
      PointsNatural(pieces);
      SegmentsNormalised(rows[1..]);
      var points := ParsePoints(pieces).value;
      var w := Windows(points);
      var rest := ParseSegments(rows[1..]).value;
      assert Normalised(w) by {
        forall i | 0 <= i < |w| ensures 0 <= w[i].start.0 <= w[i].end.0 && 0 <= w[i].start.1 <= w[i].end.1 {
          assert w[i] == Normalise(points[i], points[i + 1]);
        }
      }
      assert ParseSegments(rows).value == w + rest;
      forall i | 0 <= i < |w| + |rest|
        ensures 0 <= (w + rest)[i].start.0 <= (w + rest)[i].end.0 && 0 <= (w + rest)[i].start.1 <= (w + rest)[i].end.1
      {
        if i < |w| {
          assert (w + rest)[i] == w[i];
        } else {
          assert (w + rest)[i] == rest[i - |w|];
        }
      }
    }
  }

  // ---- Part 1: the cave as columns of cells ----

  /** `get_fixed`: the cell, or `u8::MAX` outside the grid. */
  function GetFixed(g: seq<seq<nat>>, x: nat, y: nat): nat
    requires Rect(g)
  {
    if x >= |g| || y >= Height(g) then Outside else g[x][y]
  }

  /** `fix_coords`: the column index of an x inside the bounds. */
  function FixCoords(xBounds: (int, int), c: Pos): (r: Option<Pos>)
    ensures r.Some? <==> xBounds.0 <= c.0 <= xBounds.1
  {
    if c.0 < xBounds.0 || c.0 > xBounds.1 then None else Some((c.0 - xBounds.0, c.1))
  }

  /** Something solid at `y` or below in the column. */
  predicate AnySolid(column: seq<nat>, y: nat)
  {
    exists k :: y <= k < |column| && column[k] != 0
  }

  /** `skip(y).position(|&v| v != 0)`: how far below `y` the first solid cell is. */
  function FirstSolid(column: seq<nat>, y: nat): (r: Option<nat>)
    ensures r.Some? ==> y + r.value < |column| && column[y + r.value] != 0
    ensures r.Some? ==> forall k :: y <= k < y + r.value ==> column[k] == 0
    ensures r.None? <==> !AnySolid(column, y)
    decreases |column| - y
  {
    if y >= |column| then None
    else if column[y] != 0 then Some(0)
    else
      match FirstSolid(column, y + 1)
      case None => None
      case Some(k) => Some(k + 1)
  }

  /**
   * The loop of `spawn_sand` from a grain at column `x`, row `y`: where it
   * comes to rest, or `None` where it is lost. It is lost below the grid, in
   * the leftmost column, right of the grid, and where nothing solid is left
   * below it in its column.
   */
  function Settle(g: seq<seq<nat>>, x: nat, y: nat): Option<Pos>
    requires Rect(g)
    decreases Height(g) - y
  {
    if y >= Height(g) || x == 0 || x >= |g| then None
    else if !AnySolid(g[x], y) then None
    else if GetFixed(g, x, y + 1) == 0 then Settle(g, x, y + 1)
    else if GetFixed(g, x - 1, y + 1) == 0 then Settle(g, x - 1, y + 1)
    else if GetFixed(g, x + 1, y + 1) == 0 then Settle(g, x + 1, y + 1)
    else Some((x, y))
  }

  /** At rest all three cells below are taken. */
  predicate Resting(g: seq<seq<nat>>, x: nat, y: nat)
    requires Rect(g) && x > 0
  {
    GetFixed(g, x, y + 1) != 0 && GetFixed(g, x - 1, y + 1) != 0 && GetFixed(g, x + 1, y + 1) != 0
  }

  /**
   * A grain that starts in a free cell rests in a free cell inside the
   * grid, not in the leftmost column, with all three cells below it taken,
   * no higher than it started and at most one column aside per row fallen.
   */
  lemma {:induction false} SettleRests(g: seq<seq<nat>>, x: nat, y: nat)
    requires Rect(g) && x < |g| && y < Height(g) && g[x][y] == 0
    requires Settle(g, x, y).Some?
    ensures var r := Settle(g, x, y).value;
      0 < r.0 < |g| && y <= r.1 < Height(g) && g[r.0][r.1] == 0 && Resting(g, r.0, r.1)
      && x - (r.1 - y) <= r.0 <= x + (r.1 - y)
    decreases Height(g) - y
  {
    if GetFixed(g, x, y + 1) == 0 {
      SettleRests(g, x, y + 1);
    } else if GetFixed(g, x - 1, y + 1) == 0 {
      SettleRests(g, x - 1, y + 1);
    } else if GetFixed(g, x + 1, y + 1) == 0 {
      SettleRests(g, x + 1, y + 1);
    }
  }

  /**
   * `spawn_sand` at `c`: where the grain it drops rests, or `None` where
   * it returns `Void`. The fall starts one row above the first solid cell
   * at or below `c`: when `c` itself is solid that is the row above `c`,
   * and in row 0 it is `0 - 1`, which wraps around to `usize::MAX`, below
   * the grid.
   */
  function SpawnTarget(g: seq<seq<nat>>, xBounds: (int, int), c: Pos): Option<Pos>
    requires Rect(g) && c.1 >= 0 && |g| == xBounds.1 - xBounds.0 + 1
  {
    match FixCoords(xBounds, c)
    case None => None
    case Some((x, y)) =>
      match FirstSolid(g[x], y)
      case None => None
      case Some(k) => if y + k == 0 then None else Settle(g, x, y + k - 1)
  }

  /** Out of the bounds, and with nothing solid below the source, `spawn_sand` returns `Void`. */
  lemma SpawnVoid(g: seq<seq<nat>>, xBounds: (int, int), c: Pos)
    requires Rect(g) && c.1 >= 0 && |g| == xBounds.1 - xBounds.0 + 1
    ensures c.0 < xBounds.0 || c.0 > xBounds.1 ==> SpawnTarget(g, xBounds, c).None?
    ensures xBounds.0 <= c.0 <= xBounds.1 && !AnySolid(g[c.0 - xBounds.0], c.1) ==> SpawnTarget(g, xBounds, c).None?
  {
  }

  /**
   * A grain that starts anywhere inside the grid rests inside it with all
   * three cells below it taken; it rests in a free cell unless it never
   * moved from a taken one.
   */
  lemma SettleAnywhere(g: seq<seq<nat>>, x: nat, y: nat)
    requires Rect(g) && x < |g| && y < Height(g)
    requires Settle(g, x, y).Some?
    ensures var r := Settle(g, x, y).value;
      0 < r.0 < |g| && y <= r.1 < Height(g) && Resting(g, r.0, r.1)
      && (r != (x, y) || g[x][y] == 0 ==> g[r.0][r.1] == 0)
  {
    if GetFixed(g, x, y + 1) == 0 {
      SettleRests(g, x, y + 1);
    } else if GetFixed(g, x - 1, y + 1) == 0 {
      SettleRests(g, x - 1, y + 1);
    } else if GetFixed(g, x + 1, y + 1) == 0 {
      SettleRests(g, x + 1, y + 1);
    }
  }

  /**
   * Where `spawn_sand` places a grain, all three cells below it are taken.
   * The cell was free whenever the fall started in a free cell: always from
   * row 0, and from lower down when the cell above the source is free.
   */
  lemma SpawnRests(g: seq<seq<nat>>, xBounds: (int, int), c: Pos)
    requires Rect(g) && c.1 >= 0 && |g| == xBounds.1 - xBounds.0 + 1
    requires SpawnTarget(g, xBounds, c).Some?
    ensures var r := SpawnTarget(g, xBounds, c).value;
      0 < r.0 < |g| && 0 <= r.1 < Height(g) && Resting(g, r.0, r.1)
    ensures var r := SpawnTarget(g, xBounds, c).value;
      c.1 == 0 || GetFixed(g, c.0 - xBounds.0, c.1 - 1) == 0 ==> g[r.0][r.1] == 0
  {
    var x, y := c.0 - xBounds.0, c.1;
    var k := FirstSolid(g[x], y).value;
    SettleAnywhere(g, x, y + k - 1);
  }

  /** The grid after a grain rests at `t`, if it does. */
  function Deposit(g: seq<seq<nat>>, t: Option<Pos>): seq<seq<nat>>
  {
    if t.Some? && 0 <= t.value.0 < |g| && 0 <= t.value.1 < |g[t.value.0]| then g[t.value.0 := g[t.value.0][t.value.1 := 1]] else g
  }

  /** The free cells of the grid. */
  function FreeCells(g: seq<seq<nat>>): set<Pos>
  {
    set i, j | 0 <= i < |g| && 0 <= j < |g[i]| && g[i][j] == 0 :: (i, j)
  }

  /** Each grain placed takes exactly one free cell, so the pouring ends. */
  lemma DepositTakesFreeCell(g: seq<seq<nat>>, x: int, y: int)
    requires 0 <= x < |g| && 0 <= y < |g[x]| && g[x][y] == 0
    ensures FreeCells(Deposit(g, Some((x, y)))) == FreeCells(g) - {(x, y)}
    ensures |FreeCells(Deposit(g, Some((x, y))))| == |FreeCells(g)| - 1
  {
    var h := Deposit(g, Some((x, y)));
    assert FreeCells(h) == FreeCells(g) - {(x, y)};
  }

  lemma DepositRect(g: seq<seq<nat>>, t: Option<Pos>)
    requires Rect(g)
    ensures Rect(Deposit(g, t)) && |Deposit(g, t)| == |g| && Height(Deposit(g, t)) == Height(g)
  {
  }

  /** Where part 1 pours its sand from. */
  const SandSource: Pos := (500, 0)

  /** One placed grain: one more in the count, one free cell fewer, and the grid keeps its shape. */
  lemma PourStep(g: seq<seq<nat>>, xBounds: (int, int))
    requires Rect(g) && |g| == xBounds.1 - xBounds.0 + 1
    requires SpawnTarget(g, xBounds, SandSource).Some?
    ensures var h := Deposit(g, SpawnTarget(g, xBounds, SandSource));
      Rect(h) && |h| == |g| && Height(h) == Height(g)
      && |FreeCells(h)| < |FreeCells(g)| && Pour(g, xBounds) == 1 + Pour(h, xBounds)
  {
    var t := SpawnTarget(g, xBounds, SandSource);
    SpawnRests(g, xBounds, SandSource);
    DepositTakesFreeCell(g, t.value.0, t.value.1);
    DepositRect(g, t);
  }

  /** The number of grains `spawn_sand` places from (500, 0) before one returns `Void`. */
  function Pour(g: seq<seq<nat>>, xBounds: (int, int)): nat
    requires Rect(g) && |g| == xBounds.1 - xBounds.0 + 1
    decreases |FreeCells(g)|
  {
    var t := SpawnTarget(g, xBounds, SandSource);
    if t.None? then 0
    else
      SpawnRests(g, xBounds, SandSource);
      DepositTakesFreeCell(g, t.value.0, t.value.1);
      DepositRect(g, t);
      1 + Pour(Deposit(g, t), xBounds)
  }

  /** A column with the cells `lo..=hi` set to 1, the rest as they were. */
  function PaintColumn(column: seq<nat>, lo: int, hi: int): (r: seq<nat>)
    ensures |r| == |column|
    ensures forall j :: 0 <= j < |column| ==> r[j] == if lo <= j <= hi then 1 else column[j]
  {
    seq(|column|, j requires 0 <= j < |column| => if lo <= j <= hi then 1 else column[j])
  }

  /** The grid (whose first column is x = `x0`) with the box `xlo..=xhi` by `ylo..=yhi` set to 1. */
  function PaintBox(g: seq<seq<nat>>, x0: int, xlo: int, xhi: int, ylo: int, yhi: int): (r: seq<seq<nat>>)
    ensures |r| == |g|
    ensures forall i :: 0 <= i < |g| ==> r[i] == if xlo <= i + x0 <= xhi then PaintColumn(g[i], ylo, yhi) else g[i]
  {
    seq(|g|, i requires 0 <= i < |g| => if xlo <= i + x0 <= xhi then PaintColumn(g[i], ylo, yhi) else g[i])
  }

  /** The grid after the part 1 loops over one segment have drawn it. */
  function Draw(g: seq<seq<nat>>, x0: int, l: Line): (r: seq<seq<nat>>)
    ensures |r| == |g|
  {
    PaintBox(g, x0, l.start.0, l.end.0, l.start.1, l.end.1)
  }

  lemma PaintColumnNone(column: seq<nat>, lo: int)
    ensures PaintColumn(column, lo, lo - 1) == column
  {
  }

  lemma PaintColumnStep(column: seq<nat>, lo: int, y: nat)
    requires lo <= y < |column|
    ensures Update(PaintColumn(column, lo, y - 1), y, 1) == PaintColumn(column, lo, y)
  {
  }

  lemma PaintBoxNone(g: seq<seq<nat>>, x0: int, xlo: int, ylo: int, yhi: int)
    ensures PaintBox(g, x0, xlo, xlo - 1, ylo, yhi) == g
  {
  }

  lemma PaintBoxStep(g: seq<seq<nat>>, x0: int, xlo: int, x: int, ylo: int, yhi: int)
    requires xlo <= x && 0 <= x - x0 < |g|
    ensures var p := PaintBox(g, x0, xlo, x - 1, ylo, yhi);
      p[x - x0 := PaintColumn(p[x - x0], ylo, yhi)] == PaintBox(g, x0, xlo, x, ylo, yhi)
  {
  }

  function Update(column: seq<nat>, y: nat, val: nat): (r: seq<nat>)
    requires y < |column|
  {
    column[y := val]
  }

  class Grid {
    var inner: seq<seq<nat>>
    var lines: seq<Line>
    var blocks: set<Pos>
    var xBounds: (int, int)
    var yBounds: (int, int)

    function State(): Cave
      reads this
    {
      Cave(inner, lines, blocks, xBounds, yBounds)
    }

    /** `input.clone()`. */
    constructor (c: Cave)
      ensures State() == c
    {
      inner, lines, blocks, xBounds, yBounds := c.inner, c.lines, c.blocks, c.xBounds, c.yBounds;
    }

    /** `set`: one cell, addressed by its x in the cave. */
    method Set(c: Pos, val: nat)
      requires Valid(State()) && xBounds.0 <= c.0 <= xBounds.1 && 0 <= c.1 <= yBounds.1
      modifies this
      ensures lines == old(lines) && blocks == old(blocks) && xBounds == old(xBounds) && yBounds == old(yBounds)
      ensures inner == old(inner)[c.0 - xBounds.0 := Update(old(inner)[c.0 - xBounds.0], c.1, val)]
      ensures Valid(State())
    {
      var x := c.0 - xBounds.0;
      var column: seq<nat> := inner[x][c.1 := val];
      inner := inner[x := column];
    }

    /** `spawn_sand`: drop one grain from `c` and write it where it rests. */
    method SpawnSand(c: Pos) returns (r: SandResult)
      requires Valid(State()) && c.1 >= 0
      modifies this
      ensures lines == old(lines) && blocks == old(blocks) && xBounds == old(xBounds) && yBounds == old(yBounds)
      ensures r == Placed <==> SpawnTarget(old(inner), xBounds, c).Some?
      ensures inner == Deposit(old(inner), SpawnTarget(old(inner), xBounds, c))
      ensures Valid(State())
    {
      var fixed := FixCoords(xBounds, c);
      if fixed.None? {
        return Void;
      }
      var (x, y) := fixed.value;
      var column := inner[x];
      var height := |column|;
      var obstacle := FirstSolid(column, y);
      if obstacle.None? || y + obstacle.value == 0 {
        return Void;
      }
      var yy: nat := y + obstacle.value - 1;
      var xx: nat := x;
      while true
        invariant inner == old(inner) && height == Height(inner)
        invariant Settle(inner, xx, yy) == SpawnTarget(inner, xBounds, c)
        decreases height - yy
      {
        if yy >= height || xx == 0 || xx >= |inner| {
          return Void;
        }
        if !AnySolid(inner[xx], yy) {
          return Void;
        }
        if GetFixed(inner, xx, yy + 1) == 0 {
          yy := yy + 1;
          continue;
        }
        if GetFixed(inner, xx - 1, yy + 1) == 0 {
          xx, yy := xx - 1, yy + 1;
          continue;
        }
        if GetFixed(inner, xx + 1, yy + 1) == 0 {
          xx, yy := xx + 1, yy + 1;
          continue;
        }
        inner := inner[xx := inner[xx][yy := 1]];
        return Placed;
      }
    }

    /** `spawn_sand_til_top`: drop one grain from `c` onto the blocks and the floor. */
    method SpawnSandTilTop(c: Pos) returns (r: SandResult)
      requires c.1 < yBounds.1 + 2
      modifies this
      ensures inner == old(inner) && lines == old(lines) && xBounds == old(xBounds) && yBounds == old(yBounds)
      ensures r == Placed <==> c !in old(blocks)
      ensures blocks == if r == Placed then old(blocks) + {Drop(old(blocks), yBounds.1 + 2, c)} else old(blocks)
    {
      var floor := yBounds.1 + 2;
      var (x, y) := c;
      if c in blocks {
        return Void;
      }
      while true
        invariant y < floor && blocks == old(blocks)
        invariant Drop(blocks, floor, (x, y)) == Drop(blocks, floor, c)
        decreases floor - y
      {
        if !TestBlock(blocks, floor, (x, y + 1)) {
          y := y + 1;
          continue;
        }
        if !TestBlock(blocks, floor, (x - 1, y + 1)) {
          x, y := x - 1, y + 1;
          continue;
        }
        if !TestBlock(blocks, floor, (x + 1, y + 1)) {
          x, y := x + 1, y + 1;
          continue;
        }
        blocks := blocks + {(x, y)};
        return Placed;
      }
    }

    /** The nested loops of part 1 over one segment: `set` each of its cells to 1. */
    method DrawLine(l: Line)
      requires Valid(State()) && InBounds(State(), l)
      modifies this
      ensures lines == old(lines) && blocks == old(blocks) && xBounds == old(xBounds) && yBounds == old(yBounds)
      ensures Valid(State()) && inner == Draw(old(inner), xBounds.0, l)
    {
      PaintBoxNone(inner, xBounds.0, l.start.0, l.start.1, l.end.1);
      ghost var g := inner;
      for x := l.start.0 to l.end.0 + 1
        invariant lines == old(lines) && blocks == old(blocks) && xBounds == old(xBounds) && yBounds == old(yBounds)
        invariant Valid(State()) && inner == PaintBox(g, xBounds.0, l.start.0, x - 1, l.start.1, l.end.1)
      {
        PaintBoxStep(g, xBounds.0, l.start.0, x, l.start.1, l.end.1);
        DrawColumn(l, x);
      }
    }

    /** The inner loop of `DrawLine`: the cells of the segment in column `x`. */
    method DrawColumn(l: Line, x: int)
      requires Valid(State()) && InBounds(State(), l) && l.start.0 <= x <= l.end.0
      modifies this
      ensures lines == old(lines) && blocks == old(blocks) && xBounds == old(xBounds) && yBounds == old(yBounds)
      ensures Valid(State())
      ensures inner == old(inner)[x - xBounds.0 := PaintColumn(old(inner)[x - xBounds.0], l.start.1, l.end.1)]
    {
      ghost var i := x - xBounds.0;
      ghost var column := inner[i];
      PaintColumnNone(column, l.start.1);
      assert inner == inner[i := PaintColumn(column, l.start.1, l.start.1 - 1)];
      for y := l.start.1 to l.end.1 + 1
        invariant lines == old(lines) && blocks == old(blocks) && xBounds == old(xBounds) && yBounds == old(yBounds)
        invariant Valid(State()) && inner == old(inner)[i := PaintColumn(column, l.start.1, y - 1)]
      {
        PaintColumnStep(column, l.start.1, y);
        Set((x, y), 1);
      }
    }

    /** The first loop of part 1: draw every segment in order. */
    method DrawRocks()
      requires Valid(State())
      modifies this
      ensures lines == old(lines) && blocks == old(blocks) && xBounds == old(xBounds) && yBounds == old(yBounds)
      ensures Valid(State()) && inner == DrawAll(old(inner), xBounds.0, lines)
    {
      for k := 0 to |lines|
        invariant lines == old(lines) && blocks == old(blocks) && xBounds == old(xBounds) && yBounds == old(yBounds)
        invariant Valid(State()) && inner == DrawAll(old(inner), xBounds.0, lines[..k])
      {
        assert lines[..k + 1][..k] == lines[..k];
        DrawLine(lines[k]);
      }
      assert lines[..|lines|] == lines;
    }

    /** The second loop of part 1: spawn grains at (500, 0) until one is lost, and count the placed ones. */
    method PourAll() returns (count: nat)
      requires Valid(State())
      modifies this
      ensures count == old(Pour(inner, xBounds))
    {
      count := 0;
      ghost var total := Pour(inner, xBounds);
      while true
        invariant Valid(State())
        invariant count + Pour(inner, xBounds) == total
        decreases |FreeCells(inner)|
      {
        ghost var before := inner;
        var result := SpawnSand(SandSource);
        if result == Void {
          break;
        }
        PourStep(before, xBounds);
        count := count + 1;
      }
    }

    /** The first loop of part 2: insert the cells of every segment into `blocks`. */
    method BlockRocks()
      requires Normalised(lines)
      modifies this
      ensures inner == old(inner) && lines == old(lines) && xBounds == old(xBounds) && yBounds == old(yBounds)
      ensures blocks == old(blocks) + Rocks(lines)
    {
      for k := 0 to |lines|
        invariant inner == old(inner) && lines == old(lines) && xBounds == old(xBounds) && yBounds == old(yBounds)
        invariant blocks == old(blocks) + Rocks(lines[..k])
      {
        assert lines[..k + 1][..k] == lines[..k];
        BlockLine(lines[k]);
      }
      assert lines[..|lines|] == lines;
    }

    /** The second loop of part 2: spawn grains at (500, 0) until the source is blocked, and count them. */
    method FillAll() returns (count: nat)
      requires 0 < yBounds.1 + 2
      modifies this
      ensures count == old(Fill(blocks, yBounds.1 + 2, (500, 0)))
    {
      var floor := yBounds.1 + 2;
      count := 0;
      ghost var total := Fill(blocks, floor, (500, 0));
      while true
        invariant floor == yBounds.1 + 2
        invariant count + Fill(blocks, floor, (500, 0)) == total
        decreases |Cone((500, 0), floor) - blocks|
      {
        ghost var before := blocks;
        var result := SpawnSandTilTop((500, 0));
        if result == Void {
          break;
        }
        assert (500, 0) in Cone((500, 0), floor);
        DropRests(before, floor, (500, 0), (500, 0));
        assert Cone((500, 0), floor) - blocks == (Cone((500, 0), floor) - before) - {Drop(before, floor, (500, 0))};
        count := count + 1;
      }
    }

    /** The nested loops of part 2 over one segment: insert each of its cells into `blocks`. */
    method BlockLine(l: Line)
      requires l.start.0 <= l.end.0 && l.start.1 <= l.end.1
      modifies this
      ensures blocks == old(blocks) + Cells(l)
      ensures inner == old(inner) && lines == old(lines) && xBounds == old(xBounds) && yBounds == old(yBounds)
    {
      VisitedNone(l);
      for x := l.start.0 to l.end.0 + 1
        invariant blocks == old(blocks) + Visited(l, x, l.start.1)
        invariant inner == old(inner) && lines == old(lines) && xBounds == old(xBounds) && yBounds == old(yBounds)
      {
        for y := l.start.1 to l.end.1 + 1
          invariant blocks == old(blocks) + Visited(l, x, y)
          invariant inner == old(inner) && lines == old(lines) && xBounds == old(xBounds) && yBounds == old(yBounds)
        {
          VisitedNext(l, x, y);
          blocks := blocks + {(x, y)};
        }
        VisitedColumn(l, x);
      }
      VisitedAll(l);
    }
  }

  /** The cells from `l.start` up to (excluding) `(x, y)` in the order the loops visit them. */
  function Visited(l: Line, x: int, y: int): set<Pos>
  {
    set p | p in Cells(l) && (p.0 < x || (p.0 == x && p.1 < y))
  }

  lemma VisitedNone(l: Line)
    ensures Visited(l, l.start.0, l.start.1) == {}
  {
  }

  lemma VisitedNext(l: Line, x: int, y: int)
    requires l.start.0 <= x <= l.end.0 && l.start.1 <= y <= l.end.1
    ensures Visited(l, x, y + 1) == Visited(l, x, y) + {(x, y)}
  {
    assert (x, y) in Cells(l);
  }

  lemma VisitedColumn(l: Line, x: int)
    requires l.start.1 <= l.end.1
    ensures Visited(l, x, l.end.1 + 1) == Visited(l, x + 1, l.start.1)
  {
  }

  lemma VisitedAll(l: Line)
    requires l.start.0 <= l.end.0
    ensures Visited(l, l.end.0 + 1, l.start.1) == Cells(l)
  {
  }

  /** The grid of part 1 after the segments are drawn in order. */
  function DrawAll(g: seq<seq<nat>>, x0: int, lines: seq<Line>): (r: seq<seq<nat>>)
    ensures |r| == |g|
  {
    if lines == [] then g else Draw(DrawAll(g, x0, lines[..|lines| - 1]), x0, lines[|lines| - 1])
  }

  /**
   * Drawing the segments one by one paints exactly the rock cells of part 2:
   * a cell is 1 where it is a rock, and as parsed elsewhere.
   */
  lemma {:induction false} DrawAllRocks(g: seq<seq<nat>>, x0: int, lines: seq<Line>)
    ensures var r := DrawAll(g, x0, lines);
      forall i :: 0 <= i < |g| ==> (|r[i]| == |g[i]| &&
        forall j :: 0 <= j < |g[i]| ==> r[i][j] == if (i + x0, j) in Rocks(lines) then 1 else g[i][j])
  {
    if lines != [] {
      var init := lines[..|lines| - 1];
      var l := lines[|lines| - 1];
      assert forall k :: 0 <= k < |init| ==> init[k] == lines[k];
      DrawAllRocks(g, x0, init);
      var r := DrawAll(g, x0, lines);
      var p := DrawAll(g, x0, init);
      forall i, j | 0 <= i < |g| && 0 <= j < |g[i]|
        ensures r[i][j] == if (i + x0, j) in Rocks(lines) then 1 else g[i][j]
      {
        CellsIn(l, (i + x0, j));
      }
    }
  }

  /** The cave of part 1 after the rocks are drawn. */
  function Drawn(c: Cave): (r: seq<seq<nat>>)
    requires Valid(c)
    ensures Rect(r) && |r| == |c.inner| && Height(r) == Height(c.inner)
  {
    DrawAllRocks(c.inner, c.xBounds.0, c.lines);
    DrawAll(c.inner, c.xBounds.0, c.lines)
  }

  /** `part1`: draw the rocks, then count the grains placed until one is lost. */
  method Part1(input: Cave) returns (count: nat)
    requires Valid(input)
    ensures count == Pour(Drawn(input), input.xBounds)
  {
    var grid := new Grid(input);
    grid.DrawRocks();
    count := grid.PourAll();
  }

  // ---- Part 2: the blocked cells as a set, over a floor ----

  /** `test_block`: the floor row, or a blocked cell. */
  predicate TestBlock(blocks: set<Pos>, floor: int, c: Pos)
  {
    c.1 == floor || c in blocks
  }

  /** The loop of `spawn_sand_til_top` from `p`: where the grain rests. */
  function Drop(blocks: set<Pos>, floor: int, p: Pos): Pos
    requires p.1 < floor
    decreases floor - p.1
  {
    var (x, y) := p;
    if !TestBlock(blocks, floor, (x, y + 1)) then Drop(blocks, floor, (x, y + 1))
    else if !TestBlock(blocks, floor, (x - 1, y + 1)) then Drop(blocks, floor, (x - 1, y + 1))
    else if !TestBlock(blocks, floor, (x + 1, y + 1)) then Drop(blocks, floor, (x + 1, y + 1))
    else p
  }

  /** The cells a grain from `src` can reach above the floor: one column aside per row fallen. */
  function Cone(src: Pos, floor: int): set<Pos>
  {
    set y: int, x: int | src.1 <= y < floor && src.0 - (y - src.1) <= x <= src.0 + (y - src.1) :: (x, y)
  }

  /**
   * A grain that starts in a free cell rests in a free cell above the
   * floor, inside the cone below its start, with all three cells below it
   * blocked.
   */
  lemma {:induction false} DropRests(blocks: set<Pos>, floor: int, p: Pos, src: Pos)
    requires p.1 < floor && p !in blocks && p in Cone(src, floor)
    ensures var r := Drop(blocks, floor, p);
      r !in blocks && r in Cone(src, floor) && r.1 < floor && p.1 <= r.1
      && TestBlock(blocks, floor, (r.0, r.1 + 1)) && TestBlock(blocks, floor, (r.0 - 1, r.1 + 1))
      && TestBlock(blocks, floor, (r.0 + 1, r.1 + 1))
    decreases floor - p.1
  {
    var (x, y) := p;
    if !TestBlock(blocks, floor, (x, y + 1)) {
      assert (x, y + 1) in Cone(src, floor);
      DropRests(blocks, floor, (x, y + 1), src);
    } else if !TestBlock(blocks, floor, (x - 1, y + 1)) {
      assert (x - 1, y + 1) in Cone(src, floor);
      DropRests(blocks, floor, (x - 1, y + 1), src);
    } else if !TestBlock(blocks, floor, (x + 1, y + 1)) {
      assert (x + 1, y + 1) in Cone(src, floor);
      DropRests(blocks, floor, (x + 1, y + 1), src);
    }
  }

  /** The number of grains `spawn_sand_til_top` places from `src` before the source is blocked. */
  function Fill(blocks: set<Pos>, floor: int, src: Pos): nat
    requires src.1 < floor
    decreases |Cone(src, floor) - blocks|
  {
    if src in blocks then 0
    else
      var r := Drop(blocks, floor, src);
      assert src in Cone(src, floor);
      DropRests(blocks, floor, src, src);
      assert Cone(src, floor) - (blocks + {r}) == (Cone(src, floor) - blocks) - {r};
      1 + Fill(blocks + {r}, floor, src)
  }

  /** Each grain placed adds exactly one new block. */
  lemma PlacedAddsOne(blocks: set<Pos>, floor: int, src: Pos)
    requires src.1 < floor && src !in blocks
    ensures |blocks + {Drop(blocks, floor, src)}| == |blocks| + 1
  {
    assert src in Cone(src, floor);
    DropRests(blocks, floor, src, src);
  }

  /**
   * `part2`: insert the rocks into `blocks`, then count the grains placed
   * from (500, 0) until the source itself is blocked.
   */
  method Part2(input: Cave) returns (count: nat)
    requires Valid(input)
    ensures count == Fill(input.blocks + Rocks(input.lines), input.yBounds.1 + 2, (500, 0))
  {
    var grid := new Grid(input);
    grid.BlockRocks();
    count := grid.FillAll();
  }
}
