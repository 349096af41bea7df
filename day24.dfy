/**
 * Day 24 (src/days/day24.rs): crossing a valley full of blizzards. Each
 * blizzard keeps its direction and reappears on the opposite side when it
 * reaches a wall; the expedition moves one cell or waits each minute, and
 * may never share a cell with a blizzard.
 *
 * `has_blizzard` does not simulate the blizzards: it traces each direction
 * back from the cell to where such a blizzard would have started. It is
 * proved equal to the forward picture, `Occupied`, and periodic in the
 * minute with period `width * height`. That period lets `bfs` key its
 * explored set by the minute modulo the period: the search is the module
 * `TimedSearch`, whose answer is the arrival minute of a fastest trip.
 */
module Day24 {
  import opened Wrappers
  import TimedSearch

  type Pos = (int, int)

  datatype Direction = Up | Down | Left | Right

  datatype Cell = Empty | Wall | Blizzard(dir: Direction)

  /** The map with its walls; `width` and `height` count the inner cells only. */
  datatype Grid = Grid(cells: seq<seq<Cell>>, width: nat, height: nat)

  /** The walls form a rectangle around at least one inner cell. */
  predicate Valid(g: Grid)
  {
    g.width >= 1 && g.height >= 1 && |g.cells| == g.height + 2 &&
    forall y :: 0 <= y < |g.cells| ==> |g.cells[y]| == g.width + 2
  }

  /** A cell of the map, walls included. */
  predicate OnMap(g: Grid, p: Pos)
  {
    0 <= p.0 <= g.width + 1 && 0 <= p.1 <= g.height + 1
  }

  /** An inner cell, where blizzards blow. */
  predicate Inside(g: Grid, p: Pos)
  {
    1 <= p.0 <= g.width && 1 <= p.1 <= g.height
  }

  // ---- Wrapping ----

  /** `wrap`: the coordinate `coord` brought back into `1..=v`. */
  function Wrap(coord: int, v: int): (r: int)
    requires v > 0
    ensures 1 <= r <= v
  {
    (coord - 1) % v + 1
  }

  /** `wrap` differs from its argument by a multiple of `v`. */
  lemma WrapQuot(c: int, v: int) returns (q: int)
    requires v > 0
    ensures c == q * v + Wrap(c, v)
  {
    q := (c - 1) / v;
  }

  /** Coordinates `v` apart wrap to the same cell. */
  lemma WrapShift(c: int, v: int, k: int)
    requires v > 0
    ensures Wrap(c + k * v, v) == Wrap(c, v)
  {
    var a := c - 1;
    TimedSearch.ModUnique(a + k * v, v, a / v + k, a % v);
  }

  /** A coordinate already in `1..=v` is left alone. */
  lemma WrapSelf(c: int, v: int)
    requires v > 0 && 1 <= c <= v
    ensures Wrap(c, v) == c
  {
    TimedSearch.ModUnique(c - 1, v, 0, c - 1);
  }

  lemma WrapBack(v: int, s: int, m: int, c: int)
    requires v > 0 && 1 <= s <= v && Wrap(s + m, v) == c
    ensures Wrap(c - m, v) == s
  {
    var q := WrapQuot(s + m, v);
    WrapShift(s, v, -q);
    assert c - m == s + (-q) * v;
    WrapSelf(s, v);
  }

  /** Going `m` cells forward round the ring and `m` back are inverse moves. */
  lemma WrapInverse(v: int, s: int, m: int, c: int)
    requires v > 0 && 1 <= s <= v && 1 <= c <= v
    ensures Wrap(s + m, v) == c <==> Wrap(c - m, v) == s
  {
    if Wrap(s + m, v) == c {
      WrapBack(v, s, m, c);
    }
    if Wrap(c - m, v) == s {
      WrapBack(v, c, -m, s);
    }
  }

  // ---- Blizzards ----

  /** `is_blizzard_direction`: the map shows a blizzard heading `d` on `p`. */
  predicate IsBlizzardDirection(g: Grid, p: Pos, d: Direction)
    requires Valid(g) && OnMap(g, p)
  {
    match g.cells[p.1][p.0]
    case Blizzard(dir) => dir == d
    case _ => false
  }

  /** The cell `has_blizzard` looks at for a blizzard heading `d` onto `p` at minute `m`. */
  function Traced(g: Grid, p: Pos, m: int, d: Direction): Pos
    requires g.width >= 1 && g.height >= 1
  {
    match d
    case Up => (p.0, Wrap(p.1 + m, g.height))
    case Down => (p.0, Wrap(p.1 - m, g.height))
    case Right => (Wrap(p.0 - m, g.width), p.1)
    case Left => (Wrap(p.0 + m, g.width), p.1)
  }

  lemma TracedOnMap(g: Grid, p: Pos, m: int, d: Direction)
    requires Valid(g) && OnMap(g, p)
    ensures OnMap(g, Traced(g, p, m, d))
  {
  }

  /**
   * `has_blizzard`: a blizzard is on `p` at minute `time + 1`, found by
   * looking, for each direction, at the cell such a blizzard started from.
   */
  predicate HasBlizzard(g: Grid, p: Pos, time: nat)
    requires Valid(g) && OnMap(g, p)
  {
    IsBlizzardDirection(g, Traced(g, p, time + 1, Up), Up)
    || IsBlizzardDirection(g, Traced(g, p, time + 1, Down), Down)
    || IsBlizzardDirection(g, Traced(g, p, time + 1, Right), Right)
    || IsBlizzardDirection(g, Traced(g, p, time + 1, Left), Left)
  }

  /** Where a blizzard that starts on `from` heading `d` is after `m` minutes. */
  function After(g: Grid, from: Pos, d: Direction, m: int): Pos
    requires g.width >= 1 && g.height >= 1
  {
    match d
    case Up => (from.0, Wrap(from.1 - m, g.height))
    case Down => (from.0, Wrap(from.1 + m, g.height))
    case Left => (Wrap(from.0 - m, g.width), from.1)
    case Right => (Wrap(from.0 + m, g.width), from.1)
  }

  /** Some blizzard of the map is on `p` after `m` minutes. */
  ghost predicate Occupied(g: Grid, p: Pos, m: int)
    requires Valid(g)
  {
    exists from :: Inside(g, from) && g.cells[from.1][from.0].Blizzard? &&
      After(g, from, g.cells[from.1][from.0].dir, m) == p
  }

  /** For inner cells, the traced cell is where a blizzard heading `d` must start to be on `p` after `m` minutes. */
  lemma TracedIffAfter(g: Grid, p: Pos, m: int, d: Direction, from: Pos)
    requires g.width >= 1 && g.height >= 1 && Inside(g, p) && Inside(g, from)
    ensures Traced(g, p, m, d) == from <==> After(g, from, d, m) == p
  {
    match d
    case Up => WrapInverse(g.height, p.1, m, from.1);
    case Down => WrapInverse(g.height, from.1, m, p.1);
    case Right => WrapInverse(g.width, from.0, m, p.0);
    case Left => WrapInverse(g.width, p.0, m, from.0);
  }

  /** A blizzard on the traced cell, heading `d`, is on `p` after `m` minutes. */
  lemma TracedOccupied(g: Grid, p: Pos, m: int, d: Direction)
    requires Valid(g) && Inside(g, p) && IsBlizzardDirection(g, Traced(g, p, m, d), d)
    ensures Occupied(g, p, m)
  {
    var from := Traced(g, p, m, d);
    assert Inside(g, from);
    TracedIffAfter(g, p, m, d, from);
    assert g.cells[from.1][from.0].Blizzard? && g.cells[from.1][from.0].dir == d;
  }

  /** A blizzard that is on `p` after `m` minutes is on the cell traced for its direction. */
  lemma OccupiedTraced(g: Grid, p: Pos, m: int, from: Pos)
    requires Valid(g) && Inside(g, p) && Inside(g, from) && g.cells[from.1][from.0].Blizzard?
    requires After(g, from, g.cells[from.1][from.0].dir, m) == p
    ensures var d := g.cells[from.1][from.0].dir; IsBlizzardDirection(g, Traced(g, p, m, d), d)
  {
    TracedIffAfter(g, p, m, g.cells[from.1][from.0].dir, from);
  }

  /**
   * On an inner cell the trace is right: `has_blizzard(p, time)` holds
   * exactly when some blizzard of the map is on `p` at minute `time + 1`.
   */
  lemma HasBlizzardOccupied(g: Grid, p: Pos, time: nat)
    requires Valid(g) && Inside(g, p)
    ensures HasBlizzard(g, p, time) <==> Occupied(g, p, time + 1)
  {
    var m := time + 1;
    if IsBlizzardDirection(g, Traced(g, p, m, Up), Up) {
      TracedOccupied(g, p, m, Up);
    } else if IsBlizzardDirection(g, Traced(g, p, m, Down), Down) {
      TracedOccupied(g, p, m, Down);
    } else if IsBlizzardDirection(g, Traced(g, p, m, Right), Right) {
      TracedOccupied(g, p, m, Right);
    } else if IsBlizzardDirection(g, Traced(g, p, m, Left), Left) {
      TracedOccupied(g, p, m, Left);
    }
    if Occupied(g, p, m) {
      var from :| Inside(g, from) && g.cells[from.1][from.0].Blizzard? &&
        After(g, from, g.cells[from.1][from.0].dir, m) == p;
      OccupiedTraced(g, p, m, from);
    }
  }

  /** The blizzards' period: every `width * height` minutes the map repeats. */
  function Period(g: Grid): (r: nat)
    requires Valid(g)
    ensures r >= 1
  {
    g.width * g.height
  }

  /** Coordinates a multiple of `v` apart, either way, wrap to the same cell. */
  lemma WrapAhead(c: int, v: int, t: int, k: int)
    requires v > 0 && t == k * v
    ensures Wrap(c + t, v) == Wrap(c, v) && Wrap(c - t, v) == Wrap(c, v)
  {
    WrapShift(c, v, k);
    WrapShift(c, v, -k);
    assert c - t == c + (-k) * v;
  }

  /** `k` periods are `k * width` columns of height `height`, and `k * height` rows of width `width`. */
  lemma PeriodMultiple(g: Grid, k: nat)
    requires Valid(g)
    ensures k * Period(g) == (k * g.width) * g.height == (k * g.height) * g.width
  {
  }

  /** The traced cells are the same `width * height` minutes later. */
  lemma TracedShift(g: Grid, p: Pos, m: int, k: nat, d: Direction)
    requires Valid(g)
    ensures Traced(g, p, m + k * Period(g), d) == Traced(g, p, m, d)
  {
    PeriodMultiple(g, k);
    var t := k * Period(g);
    match d
    case Up => WrapAhead(p.1 + m, g.height, t, k * g.width);
    case Down => WrapAhead(p.1 - m, g.height, t, k * g.width);
    case Right => WrapAhead(p.0 - m, g.width, t, k * g.height);
    case Left => WrapAhead(p.0 + m, g.width, t, k * g.height);
  }

  /** `has_blizzard` is periodic in the minute, with period `width * height`. */
  lemma HasBlizzardShift(g: Grid, p: Pos, time: nat, k: nat)
    requires Valid(g) && OnMap(g, p)
    ensures HasBlizzard(g, p, time + k * Period(g)) == HasBlizzard(g, p, time)
  {
    assert time + k * Period(g) + 1 == time + 1 + k * Period(g);
    TracedShift(g, p, time + 1, k, Up);
    TracedShift(g, p, time + 1, k, Down);
    TracedShift(g, p, time + 1, k, Right);
    TracedShift(g, p, time + 1, k, Left);
  }

  /** So `has_blizzard` only depends on the minute modulo the period. */
  lemma HasBlizzardPhase(g: Grid, p: Pos, time: nat)
    requires Valid(g) && OnMap(g, p)
    ensures HasBlizzard(g, p, time) == HasBlizzard(g, p, time % Period(g))
  {
    var n := Period(g);
    assert time == time % n + (time / n) * n;
    HasBlizzardShift(g, p, time % n, time / n);
  }

  // ---- Moves ----

  function PosMod(d: Direction): Pos
  {
    match d
    case Up => (0, -1)
    case Down => (0, 1)
    case Left => (-1, 0)
    case Right => (1, 0)
  }

  function Shift(p: Pos, d: Direction): Pos
  {
    (p.0 + PosMod(d).0, p.1 + PosMod(d).1)
  }

  /** `is_end`: the top-left opening going back, the bottom-right one going forward. */
  predicate IsEnd(g: Grid, p: Pos, reverse: bool)
  {
    if reverse then p == (1, 0) else p.1 == g.height + 1 && p.0 == g.width
  }

  /** The cell the expedition enters from, and the one it leaves by. */
  function Entrance(): Pos
  {
    (1, 0)
  }

  function Exit(g: Grid): Pos
  {
    (g.width, g.height + 1)
  }

  /**
   * The closure of `get_neighbors` for one direction: the goal, or an inner
   * cell that `free` says no blizzard is on.
   */
  function Admit(g: Grid, p: Pos, reverse: bool, free: Pos -> bool, d: Direction): Option<Pos>
  {
    var q := Shift(p, d);
    if IsEnd(g, q, reverse) then Some(q)
    else if q.0 < 1 || q.1 < 1 || q.0 > g.width || q.1 > g.height then None
    else if free(q) then Some(q)
    else None
  }

  function Listed(o: Option<Pos>): seq<Pos>
  {
    if o.Some? then [o.value] else []
  }

  /** `get_neighbors`, in the order of `Direction`'s variants. */
  function Neighbors(g: Grid, p: Pos, reverse: bool, free: Pos -> bool): seq<Pos>
  {
    Listed(Admit(g, p, reverse, free, Up)) + Listed(Admit(g, p, reverse, free, Down)) +
    Listed(Admit(g, p, reverse, free, Left)) + Listed(Admit(g, p, reverse, free, Right))
  }

  /** What `bfs` enqueues from `p`: the neighbours, then `p` itself when it is free. */
  function Options(g: Grid, p: Pos, reverse: bool, free: Pos -> bool): seq<Pos>
  {
    Neighbors(g, p, reverse, free) + (if free(p) then [p] else [])
  }

  /** A cell the expedition may step onto: the goal, or a free inner cell. */
  predicate Admissible(g: Grid, q: Pos, reverse: bool, free: Pos -> bool)
  {
    IsEnd(g, q, reverse) || (Inside(g, q) && free(q))
  }

  /** One direction's closure admits exactly its admissible neighbour. */
  lemma AdmitMeaning(g: Grid, p: Pos, reverse: bool, free: Pos -> bool, d: Direction, q: Pos)
    ensures Admit(g, p, reverse, free, d) == Some(q) <==> q == Shift(p, d) && Admissible(g, q, reverse, free)
  {
  }

  /** The neighbours are exactly the admissible orthogonal neighbours. */
  lemma NeighborsMeaning(g: Grid, p: Pos, reverse: bool, free: Pos -> bool, q: Pos)
    ensures q in Neighbors(g, p, reverse, free) <==>
      exists d :: q == Shift(p, d) && Admissible(g, q, reverse, free)
  {
    var up, down := Listed(Admit(g, p, reverse, free, Up)), Listed(Admit(g, p, reverse, free, Down));
    var left, right := Listed(Admit(g, p, reverse, free, Left)), Listed(Admit(g, p, reverse, free, Right));
    assert Neighbors(g, p, reverse, free) == up + down + left + right;
    AdmitMeaning(g, p, reverse, free, Up, q);
    AdmitMeaning(g, p, reverse, free, Down, q);
    AdmitMeaning(g, p, reverse, free, Left, q);
    AdmitMeaning(g, p, reverse, free, Right, q);
    if exists d :: q == Shift(p, d) && Admissible(g, q, reverse, free) {
      var d :| q == Shift(p, d) && Admissible(g, q, reverse, free);
      match d
      case Up => assert q in up;
      case Down => assert q in down;
      case Left => assert q in left;
      case Right => assert q in right;
    }
  }

  /** A move goes to an admissible neighbour, or waits on `p` when `p` is free. */
  lemma OptionsMeaning(g: Grid, p: Pos, reverse: bool, free: Pos -> bool, q: Pos)
    ensures q in Options(g, p, reverse, free) <==>
      (exists d :: q == Shift(p, d) && Admissible(g, q, reverse, free)) || (q == p && free(p))
  {
    NeighborsMeaning(g, p, reverse, free, q);
  }

  /** Waiting is enqueued exactly when the cell is free. */
  lemma WaitIffFree(g: Grid, p: Pos, reverse: bool, free: Pos -> bool)
    ensures p in Options(g, p, reverse, free) <==> free(p)
  {
    OptionsMeaning(g, p, reverse, free, p);
  }

  /** The moves only depend on which cells are free. */
  lemma OptionsAgree(g: Grid, p: Pos, reverse: bool, free: Pos -> bool, free': Pos -> bool)
    requires forall q :: free(q) == free'(q)
    ensures Options(g, p, reverse, free) == Options(g, p, reverse, free')
  {
  }

  /** The cells of the map no blizzard is on at minute `time + 1`. */
  function Clear(g: Grid, time: nat): Pos -> bool
    requires Valid(g)
  {
    q => OnMap(g, q) && !HasBlizzard(g, q, time)
  }

  /** `bfs`'s moves from a cell at a minute, with `has_blizzard` deciding which cells are free. */
  function Moves(g: Grid, reverse: bool): (Pos, nat) -> seq<Pos>
    requires Valid(g)
  {
    (p: Pos, time: nat) => if OnMap(g, p) then Options(g, p, reverse, Clear(g, time)) else []
  }

  /**
   * From `p` on the map at minute `time`, a move steps onto the goal or an
   * inner cell no blizzard is on at the next minute, or waits on `p` when no
   * blizzard is on it then.
   */
  lemma MovesMeaning(g: Grid, reverse: bool, p: Pos, time: nat, q: Pos)
    requires Valid(g) && OnMap(g, p)
    ensures q in Moves(g, reverse)(p, time) <==>
      (exists d :: q == Shift(p, d) && (IsEnd(g, q, reverse) || (Inside(g, q) && !HasBlizzard(g, q, time)))) ||
      (q == p && !HasBlizzard(g, p, time))
  {
    var free := Clear(g, time);
    OptionsMeaning(g, p, reverse, free, q);
    if exists d :: q == Shift(p, d) && Admissible(g, q, reverse, free) {
      var d :| q == Shift(p, d) && Admissible(g, q, reverse, free);
      assert IsEnd(g, q, reverse) || (Inside(g, q) && !HasBlizzard(g, q, time));
    }
    if exists d :: q == Shift(p, d) && (IsEnd(g, q, reverse) || (Inside(g, q) && !HasBlizzard(g, q, time))) {
      var d :| q == Shift(p, d) && (IsEnd(g, q, reverse) || (Inside(g, q) && !HasBlizzard(g, q, time)));
      assert Admissible(g, q, reverse, free);
    }
  }

  /** Every cell of the map. */
  ghost function MapCells(g: Grid): set<Pos>
  {
    set x, y | 0 <= x <= g.width + 1 && 0 <= y <= g.height + 1 :: (x, y)
  }

  /** No move leaves the map. */
  lemma MovesWithin(g: Grid, reverse: bool)
    requires Valid(g)
    ensures TimedSearch.Within(Moves(g, reverse), MapCells(g))
  {
    forall p, time: nat, q | q in Moves(g, reverse)(p, time) ensures q in MapCells(g) {
      OptionsMeaning(g, p, reverse, Clear(g, time), q);
      var (x, y) := q;
    }
  }

  /** The moves repeat every `width * height` minutes, which is why `bfs` keys its states by the minute modulo that. */
  lemma MovesPeriodic(g: Grid, reverse: bool)
    requires Valid(g)
    ensures TimedSearch.Periodic(Moves(g, reverse), Period(g))
  {
    forall p, time: nat ensures Moves(g, reverse)(p, time) == Moves(g, reverse)(p, time % Period(g)) {
      forall q ensures Clear(g, time)(q) == Clear(g, time % Period(g))(q) {
        if OnMap(g, q) {
          HasBlizzardPhase(g, q, time);
        }
      }
      OptionsAgree(g, p, reverse, Clear(g, time), Clear(g, time % Period(g)));
    }
  }

  /** `is_end` as a map over cells. */
  function End(g: Grid, reverse: bool): Pos -> bool
  {
    p => IsEnd(g, p, reverse)
  }

  // ---- The trips ----

  /** `arrival` is the earliest minute a trip from `start` at minute `step` reaches the goal. */
  ghost predicate Fastest(g: Grid, start: Pos, step: nat, reverse: bool, arrival: nat)
    requires Valid(g)
  {
    TimedSearch.Fastest(Moves(g, reverse), End(g, reverse), start, step, arrival)
  }

  /** No trip from `start` at minute `step` reaches the goal. */
  ghost predicate NoTrip(g: Grid, start: Pos, step: nat, reverse: bool)
    requires Valid(g)
  {
    TimedSearch.NoTrip(Moves(g, reverse), End(g, reverse), start, step)
  }

  /**
   * `bfs` from `start` at minute `step`: the minute of the earliest arrival
   * on the goal, which is never before `step`; `None` where the source
   * panics because it cannot reach the goal.
   */
  method Bfs(g: Grid, start: Pos, reverse: bool, step: nat) returns (r: Option<nat>)
    requires Valid(g) && OnMap(g, start)
    ensures r.Some? ==> r.value >= step && Fastest(g, start, step, reverse, r.value)
    ensures r.None? ==> NoTrip(g, start, step, reverse)
  {
    MovesPeriodic(g, reverse);
    MovesWithin(g, reverse);
    assert start in MapCells(g);
    r := TimedSearch.Bfs(Moves(g, reverse), End(g, reverse), MapCells(g), Period(g), start, step);
  }

  /** `part1`: the earliest arrival at the exit, leaving the entrance at minute 0. */
  method Part1(g: Grid) returns (r: Option<nat>)
    requires Valid(g)
    ensures r.Some? ==> Fastest(g, Entrance(), 0, false, r.value)
    ensures r.None? ==> NoTrip(g, Entrance(), 0, false)
  {
    r := Bfs(g, Entrance(), false, 0);
  }

  /** The three fastest trips of `part2`, arriving at minutes `a`, `b` and `c`. */
  ghost predicate ThreeTrips(g: Grid, a: nat, b: nat, c: nat)
    requires Valid(g)
  {
    Fastest(g, Entrance(), 0, false, a) && Fastest(g, Exit(g), a, true, b) && Fastest(g, Entrance(), b, false, c)
  }

  /** The first trip arrives at `a`, and there is no way back from there. */
  ghost predicate LostBack(g: Grid, a: nat)
    requires Valid(g)
  {
    Fastest(g, Entrance(), 0, false, a) && NoTrip(g, Exit(g), a, true)
  }

  /** Two trips arrive at `a` and `b`, and there is no way to the exit again. */
  ghost predicate LostAgain(g: Grid, a: nat, b: nat)
    requires Valid(g)
  {
    Fastest(g, Entrance(), 0, false, a) && Fastest(g, Exit(g), a, true, b) && NoTrip(g, Entrance(), b, false)
  }

  /** One of the three trips of `part2` cannot reach its goal. */
  ghost predicate Lost(g: Grid)
    requires Valid(g)
  {
    NoTrip(g, Entrance(), 0, false) || (exists a: nat :: LostBack(g, a)) || (exists a: nat, b: nat :: LostAgain(g, a, b))
  }

  /**
   * `part2`: to the exit, back to the entrance and to the exit again, each
   * trip as fast as possible and leaving when the one before arrived, so
   * the arrivals never decrease.
   */
  method Part2(g: Grid) returns (r: Option<nat>)
    requires Valid(g)
    ensures r.Some? ==> exists a: nat, b: nat :: a <= b <= r.value && ThreeTrips(g, a, b, r.value)
    ensures r.None? ==> Lost(g)
  {
    var a := Bfs(g, Entrance(), false, 0);
    if a.None? {
      return None;
    }
    var b := Bfs(g, Exit(g), true, a.value);
    if b.None? {
      assert LostBack(g, a.value);
      return None;
    }
    r := Bfs(g, Entrance(), false, b.value);
    if r.Some? {
      assert ThreeTrips(g, a.value, b.value, r.value);
    } else {
      assert LostAgain(g, a.value, b.value);
    }
  }
}
