/**
 * Day 12 (src/days/day12.rs): the fewest steps up a height map. Going
 * forward, a step may climb at most one level and descend any number. Part
 * 2 searches backwards from the summit with the converse relation, until it
 * reaches a cell of elevation `a`.
 *
 * The search itself is the module `Search`, run on `get_neighbors`; here
 * its answer is read back as the length of a shortest walk of allowed steps.
 */
module Day12 {
  import opened Wrappers
  import Search

  type Pos = (int, int)

  datatype Grid = Grid(elevations: seq<seq<int>>, start: Pos, end: Pos, width: nat, height: nat)

  /** Every row has `width` elevations, and there are `height` rows. */
  predicate Valid(g: Grid)
  {
    |g.elevations| == g.height && forall y :: 0 <= y < g.height ==> |g.elevations[y]| == g.width
  }

  predicate InBounds(g: Grid, p: Pos)
  {
    0 <= p.0 < g.width && 0 <= p.1 < g.height
  }

  function Elevation(g: Grid, p: Pos): int
    requires Valid(g) && InBounds(g, p)
  {
    g.elevations[p.1][p.0]
  }

  function AbsDiff(a: int, b: int): nat
  {
    if a < b then b - a else a - b
  }

  /** The elevation test of `get_neighbors` for a step from `p` to `q`. */
  predicate CanStep(g: Grid, p: Pos, q: Pos, reverse: bool)
    requires Valid(g) && InBounds(g, p) && InBounds(g, q)
  {
    var elevation, next := Elevation(g, p), Elevation(g, q);
    if !reverse then next < elevation || AbsDiff(next, elevation) < 2
    else elevation < next || AbsDiff(elevation, next) < 2
  }

  /**
   * Forward, a step climbs at most one level; in reverse, it is exactly a
   * forward step taken backwards.
   */
  lemma CanStepMeaning(g: Grid, p: Pos, q: Pos)
    requires Valid(g) && InBounds(g, p) && InBounds(g, q)
    ensures CanStep(g, p, q, false) <==> Elevation(g, q) <= Elevation(g, p) + 1
    ensures CanStep(g, p, q, true) <==> CanStep(g, q, p, false)
  {
  }

  /** The directions `get_neighbors` tries, in order. */
  const Deltas: seq<(int, int)> := [(-1, 0), (1, 0), (0, 1), (0, -1)]

  function Shift(p: Pos, d: (int, int)): Pos
  {
    (p.0 + d.0, p.1 + d.1)
  }

  /** `q` is one of the four orthogonal neighbours of `p`. */
  predicate Adjacent(p: Pos, q: Pos)
  {
    AbsDiff(p.0, q.0) + AbsDiff(p.1, q.1) == 1
  }

  /** The `filter_map` of `get_neighbors` over the directions `ds`. */
  function Filter(g: Grid, p: Pos, reverse: bool, ds: seq<(int, int)>): seq<Pos>
    requires Valid(g) && InBounds(g, p)
  {
    if ds == [] then []
    else
      var q := Shift(p, ds[0]);
      (if InBounds(g, q) && CanStep(g, p, q, reverse) then [q] else []) + Filter(g, p, reverse, ds[1..])
  }

  /** `Filter` keeps exactly the shifted cells that are in bounds and allowed. */
  lemma {:induction false} FilterMeaning(g: Grid, p: Pos, reverse: bool, ds: seq<(int, int)>)
    requires Valid(g) && InBounds(g, p)
    ensures forall q :: q in Filter(g, p, reverse, ds) <==>
      (exists d :: d in ds && q == Shift(p, d)) && InBounds(g, q) && CanStep(g, p, q, reverse)
  {
    if ds != [] {
      FilterMeaning(g, p, reverse, ds[1..]);
      assert forall d :: d in ds <==> d == ds[0] || d in ds[1..];
    }
  }

  /** `get_neighbors`: the in-bounds neighbours in the order tried. */
  function Neighbors(g: Grid, p: Pos, reverse: bool): (r: seq<Pos>)
    requires Valid(g) && InBounds(g, p)
    ensures forall q :: q in r ==> InBounds(g, q)
  {
    FilterMeaning(g, p, reverse, Deltas);
    Filter(g, p, reverse, Deltas)
  }

  /** `get_neighbors` returns exactly the orthogonal neighbours the elevation rule allows. */
  lemma NeighborsMeaning(g: Grid, p: Pos, reverse: bool)
    requires Valid(g) && InBounds(g, p)
    ensures forall q :: q in Neighbors(g, p, reverse) <==> InBounds(g, q) && Adjacent(p, q) && CanStep(g, p, q, reverse)
  {
    FilterMeaning(g, p, reverse, Deltas);
    forall q ensures Adjacent(p, q) <==> exists d :: d in Deltas && q == Shift(p, d) {
      if Adjacent(p, q) {
        if q.0 < p.0 {
          assert q == Shift(p, Deltas[0]);
        } else if q.0 > p.0 {
          assert q == Shift(p, Deltas[1]);
        } else if q.1 > p.1 {
          assert q == Shift(p, Deltas[2]);
        } else {
          assert q == Shift(p, Deltas[3]);
        }
      }
    }
  }

  /** `is_end`: the summit going forward, any cell of elevation `a` in reverse. */
  predicate IsEnd(g: Grid, p: Pos, reverse: bool)
    requires Valid(g) && InBounds(g, p)
  {
    if reverse then Elevation(g, p) == 'a' as int else p == g.end
  }

  // ---- Parsing ----

  /** One character of the map: `S` stands for `a` and `E` for `z`; `as u8` keeps the low byte of the code point. */
  function ElevationOf(c: char): int
  {
    if c == 'S' then 'a' as int else if c == 'E' then 'z' as int else (c as int) % 256
  }

  function Row(line: string): (r: seq<int>)
    ensures |r| == |line| && forall x :: 0 <= x < |line| ==> r[x] == ElevationOf(line[x])
  {
    if line == [] then [] else [ElevationOf(line[0])] + Row(line[1..])
  }

  function Rows(lines: seq<string>): (r: seq<seq<int>>)
    ensures |r| == |lines| && forall y :: 0 <= y < |lines| ==> r[y] == Row(lines[y])
  {
    if lines == [] then [] else [Row(lines[0])] + Rows(lines[1..])
  }

  /** The last column of `line` holding `c`. */
  function LastInRow(line: string, c: char): (r: Option<nat>)
    ensures r.Some? ==> r.value < |line| && line[r.value] == c
    ensures r.Some? ==> forall x :: r.value < x < |line| ==> line[x] != c
    ensures r.None? ==> c !in line
  {
    if line == [] then None
    else if line[|line| - 1] == c then Some(|line| - 1)
    else
      var r := LastInRow(line[..|line| - 1], c);
      assert line == line[..|line| - 1] + [line[|line| - 1]];
      r
  }

  /**
   * Where the closure of `parse` last saw `c`: it overwrites `start` (or
   * `end`) on every occurrence, so the last one in reading order wins.
   */
  function Locate(lines: seq<string>, c: char): (r: Option<Pos>)
    ensures r.Some? ==> 0 <= r.value.1 < |lines| && 0 <= r.value.0 < |lines[r.value.1]|
    ensures r.Some? ==> lines[r.value.1][r.value.0] == c
    ensures r.Some? ==> forall y :: r.value.1 < y < |lines| ==> c !in lines[y]
    ensures r.None? ==> forall y :: 0 <= y < |lines| ==> c !in lines[y]
  {
    if lines == [] then None
    else
      var n := |lines|;
      match LastInRow(lines[n - 1], c)
      case Some(x) => Some((x as int, n - 1))
      case None => Locate(lines[..n - 1], c)
  }

  /** `parse`; `None` where `elevations[0]` would panic on an empty input. */
  function Parse(lines: seq<string>): (r: Option<Grid>)
    ensures r.Some? <==> |lines| > 0
    ensures r.Some? ==> r.value.height == |lines| && r.value.width == |lines[0]|
    ensures r.Some? && (forall y :: 0 <= y < |lines| ==> |lines[y]| == |lines[0]|) ==> Valid(r.value)
  {
    if lines == [] then None
    else
      var s := Locate(lines, 'S');
      var e := Locate(lines, 'E');
      Some(Grid(Rows(lines), if s.Some? then s.value else (0, 0), if e.Some? then e.value else (0, 0),
        |lines[0]|, |lines|))
  }

  /** The start marker stands at elevation `a` and the summit marker at `z`. */
  lemma MarkersElevation(lines: seq<string>)
    requires |lines| > 0 && forall y :: 0 <= y < |lines| ==> |lines[y]| == |lines[0]|
    ensures var g := Parse(lines).value;
      Locate(lines, 'S').Some? ==> g.start == Locate(lines, 'S').value && InBounds(g, g.start) && Elevation(g, g.start) == 'a' as int
    ensures var g := Parse(lines).value;
      Locate(lines, 'E').Some? ==> g.end == Locate(lines, 'E').value && InBounds(g, g.end) && Elevation(g, g.end) == 'z' as int
  {
  }

  // ---- Walks ----

  /** One allowed step: both cells on the map, orthogonally adjacent, and the elevation rule satisfied. */
  predicate Step(g: Grid, p: Pos, q: Pos, reverse: bool)
    requires Valid(g)
  {
    InBounds(g, p) && InBounds(g, q) && Adjacent(p, q) && CanStep(g, p, q, reverse)
  }

  /** Consecutive cells of `w` are one allowed step apart. */
  predicate Walk(g: Grid, w: seq<Pos>, reverse: bool)
    requires Valid(g)
  {
    forall i :: 0 < i < |w| ==> Step(g, w[i - 1], w[i], reverse)
  }

  /** A walk from `start` that ends on a goal cell; it takes `|w| - 1` steps. */
  predicate GoalWalk(g: Grid, start: Pos, w: seq<Pos>, reverse: bool)
    requires Valid(g)
  {
    |w| > 0 && w[0] == start && Walk(g, w, reverse) && InBounds(g, w[|w| - 1]) && IsEnd(g, w[|w| - 1], reverse)
  }

  /** `get_neighbors` as a map over all cells, listing nothing for a cell off the map. */
  function Next(g: Grid, reverse: bool): Pos -> seq<Pos>
    requires Valid(g)
  {
    p => if InBounds(g, p) then Neighbors(g, p, reverse) else []
  }

  /** `is_end` as a map over all cells. */
  function Goal(g: Grid, reverse: bool): Pos -> bool
    requires Valid(g)
  {
    p => InBounds(g, p) && IsEnd(g, p, reverse)
  }

  ghost function Cells(g: Grid): set<Pos>
  {
    set x, y | 0 <= x < g.width && 0 <= y < g.height :: (x, y)
  }

  /** No step leaves the map. */
  lemma CellsClosed(g: Grid, reverse: bool)
    requires Valid(g)
    ensures Search.Closed(Next(g, reverse), Cells(g))
  {
    forall p, q | p in Cells(g) && q in Next(g, reverse)(p) ensures q in Cells(g) {
      var (x, y) := q;
    }
  }

  /** A walk in the search's sense is a walk of allowed steps. */
  lemma WalkIsSearchWalk(g: Grid, w: seq<Pos>, reverse: bool)
    requires Valid(g)
    ensures Search.IsWalk(Next(g, reverse), w) <==> Walk(g, w, reverse)
  {
    forall i | 0 < i < |w| ensures w[i] in Next(g, reverse)(w[i - 1]) <==> Step(g, w[i - 1], w[i], reverse) {
      if InBounds(g, w[i - 1]) {
        NeighborsMeaning(g, w[i - 1], reverse);
      }
    }
  }

  /** A goal walk of `n` steps puts a goal within `n` steps. */
  lemma GoalWalkWithin(g: Grid, start: Pos, w: seq<Pos>, reverse: bool)
    requires Valid(g) && GoalWalk(g, start, w, reverse)
    ensures Search.EndWithin(Next(g, reverse), Goal(g, reverse), start, |w| - 1)
  {
    WalkIsSearchWalk(g, w, reverse);
    Search.WalkReaches(Next(g, reverse), w);
    assert Goal(g, reverse)(w[|w| - 1]);
  }

  /** A goal within `k` steps is the end of a goal walk of at most `k` steps. */
  lemma WithinGoalWalk(g: Grid, start: Pos, k: nat, reverse: bool) returns (w: seq<Pos>)
    requires Valid(g) && InBounds(g, start) && Search.EndWithin(Next(g, reverse), Goal(g, reverse), start, k)
    ensures GoalWalk(g, start, w, reverse) && |w| <= k + 1
  {
    var p :| p in Search.Reach(Next(g, reverse), start, k) && Goal(g, reverse)(p);
    w := Search.ReachHasWalk(Next(g, reverse), start, k, p);
    WalkIsSearchWalk(g, w, reverse);
  }

  /**
   * `bfs`: the length of a shortest walk from `start` to a goal cell, or
   * `None` where the source panics because no goal can be reached.
   */
  method Bfs(g: Grid, start: Pos, reverse: bool) returns (r: Option<nat>)
    requires Valid(g) && InBounds(g, start)
    ensures r.Some? ==> exists w :: GoalWalk(g, start, w, reverse) && |w| == r.value + 1
    ensures r.Some? ==> forall w :: GoalWalk(g, start, w, reverse) ==> |w| >= r.value + 1
    ensures r.None? ==> forall w :: !GoalWalk(g, start, w, reverse)
  {
    CellsClosed(g, reverse);
    r := Search.Bfs(Next(g, reverse), Goal(g, reverse), Cells(g), start);
    forall w | GoalWalk(g, start, w, reverse) ensures r.Some? && |w| >= r.value + 1 {
      GoalWalkWithin(g, start, w, reverse);
    }
    if r.Some? {
      var w := WithinGoalWalk(g, start, r.value, reverse);
    }
  }

  /** `part1`: the fewest steps from the start marker to the summit. */
  method Part1(g: Grid) returns (r: Option<nat>)
    requires Valid(g) && InBounds(g, g.start)
    ensures r.Some? ==> exists w :: GoalWalk(g, g.start, w, false) && |w| == r.value + 1
    ensures r.Some? ==> forall w :: GoalWalk(g, g.start, w, false) ==> |w| >= r.value + 1
    ensures r.None? ==> forall w :: !GoalWalk(g, g.start, w, false)
  {
    r := Bfs(g, g.start, false);
  }

  /** `part2`: the fewest steps down from the summit to a cell of elevation `a`. */
  method Part2(g: Grid) returns (r: Option<nat>)
    requires Valid(g) && InBounds(g, g.end)
    ensures r.Some? ==> exists w :: GoalWalk(g, g.end, w, true) && |w| == r.value + 1
    ensures r.Some? ==> forall w :: GoalWalk(g, g.end, w, true) ==> |w| >= r.value + 1
    ensures r.None? ==> forall w :: !GoalWalk(g, g.end, w, true)
  {
    r := Bfs(g, g.end, true);
  }
}
