/**
 * Day 18 (src/days/day18.rs): the surface of a droplet made of unit cubes.
 * Part 1 counts every face whose neighbouring cell holds no cube. Part 2
 * floods the air from a corner of a box one cell larger than the droplet on
 * every side, and counts only the faces that touch that outside air.
 *
 * The parser is not modelled: the input is the sequence of cube positions.
 */
module Day18 {
  import opened Wrappers

  type Cell = (int, int, int)

  function AbsDiff(a: int, b: int): nat
  {
    if a < b then b - a else a - b
  }

  /** `a` and `b` share a face. */
  predicate Adjacent(a: Cell, b: Cell)
  {
    AbsDiff(a.0, b.0) + AbsDiff(a.1, b.1) + AbsDiff(a.2, b.2) == 1
  }

  /** The six cells that share a face with `c`, in the order the source looks at them. */
  function Neighbours(c: Cell): (r: seq<Cell>)
    ensures |r| == 6
  {
    [(c.0 - 1, c.1, c.2), (c.0 + 1, c.1, c.2),
     (c.0, c.1 - 1, c.2), (c.0, c.1 + 1, c.2),
     (c.0, c.1, c.2 - 1), (c.0, c.1, c.2 + 1)]
  }

  /** The neighbours are exactly the cells sharing a face, and no two are the same. */
  lemma NeighboursAdjacent(c: Cell, n: Cell)
    ensures n in Neighbours(c) <==> Adjacent(c, n)
    ensures Distinct(Neighbours(c))
  {
  }

  predicate Distinct<T(==)>(s: seq<T>)
  {
    forall i, j :: 0 <= i < j < |s| ==> s[i] != s[j]
  }

  /** The number of elements of `s` that satisfy `p`. */
  function CountIf<T>(s: seq<T>, p: T -> bool): (r: nat)
    ensures r <= |s|
  {
    if s == [] then 0 else (if p(s[0]) then 1 else 0) + CountIf(s[1..], p)
  }

  /** The elements of `s` that satisfy `p`. */
  ghost function Satisfying<T>(s: seq<T>, p: T -> bool): set<T>
  {
    set x | x in s && p(x)
  }

  /** The tail of a sequence without repeats has none, and lacks the head. */
  lemma DistinctTail<T>(s: seq<T>)
    requires Distinct(s) && s != []
    ensures Distinct(s[1..]) && s[0] !in s[1..]
  {
    var rest := s[1..];
    forall i, j | 0 <= i < j < |rest| ensures rest[i] != rest[j] {
      assert rest[i] == s[i + 1] && rest[j] == s[j + 1];
    }
    forall i | 0 <= i < |rest| ensures rest[i] != s[0] {
      assert rest[i] == s[i + 1];
    }
  }

  /** The satisfying elements of a sequence: its head if it qualifies, and those of its tail. */
  lemma SatisfyingCons<T>(s: seq<T>, p: T -> bool)
    requires s != []
    ensures Satisfying(s, p) == (if p(s[0]) then {s[0]} else {}) + Satisfying(s[1..], p)
  {
    forall x | x in s ensures x == s[0] || x in s[1..] {
      var i :| 0 <= i < |s| && s[i] == x;
      if i > 0 {
        assert s[1..][i - 1] == x;
      }
    }
  }

  /** On distinct elements, the count is the size of the set of elements that satisfy `p`. */
  lemma {:induction false} CountIfCard<T>(s: seq<T>, p: T -> bool)
    requires Distinct(s)
    ensures CountIf(s, p) == |Satisfying(s, p)|
  {
    if s != [] {
      DistinctTail(s);
      CountIfCard(s[1..], p);
      SatisfyingCons(s, p);
    }
  }

  /** Counting a weaker condition counts at least as many elements. */
  lemma {:induction false} CountIfMonotone<T>(s: seq<T>, p: T -> bool, q: T -> bool)
    requires forall x :: x in s && p(x) ==> q(x)
    ensures CountIf(s, p) <= CountIf(s, q)
  {
    if s != [] {
      CountIfMonotone(s[1..], p, q);
    }
  }

  /** The set of cube positions built from the input. */
  function Cubes(input: seq<Cell>): set<Cell>
  {
    set c | c in input
  }

  // ---- Part 1 ----

  /** The test of part 1 for a neighbouring cell: no cube there. */
  function Free(cubes: set<Cell>): Cell -> bool
  {
    n => n !in cubes
  }

  /** The faces of the cube at `c` whose neighbour holds no cube. */
  function Exposed(cubes: set<Cell>, c: Cell): nat
  {
    CountIf(Neighbours(c), Free(cubes))
  }

  /**
   * A cube has between 0 and 6 exposed faces: one for each face-sharing cell
   * (the cells `NeighboursAdjacent` characterises) that holds no cube.
   */
  lemma ExposedFaces(cubes: set<Cell>, c: Cell)
    ensures Exposed(cubes, c) <= 6
    ensures Exposed(cubes, c) == |set n | n in Neighbours(c) && n !in cubes|
  {
    NeighboursAdjacent(c, c);
    CountIfCard(Neighbours(c), Free(cubes));
    var a := Satisfying(Neighbours(c), Free(cubes));
    var b := set n | n in Neighbours(c) && n !in cubes;
    assert CountIf(Neighbours(c), Free(cubes)) == |a|;
    assert a == b;
    assert Exposed(cubes, c) == |b|;
  }

  /** The sum over `input` of the exposed faces of each cube. */
  function SumExposed(cubes: set<Cell>, input: seq<Cell>): (r: nat)
    ensures r <= 6 * |input|
  {
    if input == [] then 0 else Exposed(cubes, input[0]) + SumExposed(cubes, input[1..])
  }

  /** `part1`: every cube of the input, with its exposed faces. */
  function Part1(input: seq<Cell>): (r: nat)
    ensures r <= 6 * |input|
  {
    SumExposed(Cubes(input), input)
  }

  // ---- The flood fill ----

  /** `Space`: the cubes and the bounds of the box the air is searched in. */
  datatype Space = Space(cubes: set<Cell>, min: int, max: int)

  /** The bounds test of `push`, inclusive on every axis. */
  predicate InSpace(space: Space, c: Cell)
  {
    && space.min <= c.0 <= space.max
    && space.min <= c.1 <= space.max
    && space.min <= c.2 <= space.max
  }

  /** The integers from `lo` to `hi`, both included. */
  function Span(lo: int, hi: int): (r: seq<int>)
    ensures forall x :: x in r <==> lo <= x <= hi
    decreases hi - lo
  {
    if hi < lo then [] else Span(lo, hi - 1) + [hi]
  }

  /** The cells of the box. */
  function Box(space: Space): (r: set<Cell>)
    ensures forall c :: c in r <==> InSpace(space, c)
  {
    var xs := Span(space.min, space.max);
    set x, y, z | x in xs && y in xs && z in xs :: (x, y, z)
  }

  /** `Space::is_outside`: a cell that holds no cube and that the flood reached. */
  predicate IsOutside(space: Space, air: set<Cell>, c: Cell)
  {
    c !in space.cubes && c in air
  }

  /** `push`: a cell is queued only when it lies inside the box. */
  method Push(queue: seq<Cell>, space: Space, coords: Cell) returns (queue': seq<Cell>)
    ensures InSpace(space, coords) ==> queue' == queue + [coords]
    ensures !InSpace(space, coords) ==> queue' == queue
  {
    queue' := queue;
    if space.min <= coords.0 && coords.0 <= space.max
      && space.min <= coords.1 && coords.1 <= space.max
      && space.min <= coords.2 && coords.2 <= space.max
    {
      queue' := queue' + [coords];
    }
  }

  /** The six `push` calls of `try_fill` for the cell `c`: they queue exactly the neighbours of `c` inside the box. */
  method PushNeighbours(queue: seq<Cell>, space: Space, c: Cell) returns (queue': seq<Cell>)
    ensures forall n :: n in queue ==> n in queue'
    ensures forall n :: n in queue' ==> n in queue || (n in Neighbours(c) && InSpace(space, n))
    ensures forall n :: n in Neighbours(c) && InSpace(space, n) ==> n in queue'
  {
    var ns := Neighbours(c);
    queue' := queue;
    for i := 0 to 6
      invariant forall n :: n in queue ==> n in queue'
      invariant forall n :: n in queue' ==> n in queue || (n in ns && InSpace(space, n))
      invariant forall j :: 0 <= j < i && InSpace(space, ns[j]) ==> ns[j] in queue'
    {
      var q := Push(queue', space, ns[i]);
      assert forall n :: n in queue' ==> n in q;
      queue' := q;
    }
  }

  /** Adding a cell of `b` that `a` lacks shrinks what of `b` is left over. */
  lemma RemainingShrinks(b: set<Cell>, a: set<Cell>, c: Cell)
    requires c in b && c !in a
    ensures |b - (a + {c})| < |b - a|
  {
    assert b - a == (b - (a + {c})) + {c};
  }

  /**
   * The state of `try_fill`'s loop: everything queued or visited lies in the
   * box; the cells expanded so far, each once, are the visited cells that hold
   * no cube; `air` is the start plus those; and every neighbour inside the
   * box of an expanded cell has been visited or is still queued.
   */
  ghost predicate Filling(space: Space, start: Cell, visited: set<Cell>, queue: seq<Cell>,
    air: set<Cell>, expanded: seq<Cell>)
  {
    && (forall i :: 0 <= i < |queue| ==> InSpace(space, queue[i]))
    && visited <= Box(space)
    && Distinct(expanded)
    && (forall c :: c in expanded <==> c in visited && c !in space.cubes)
    && air == {start} + (visited - space.cubes)
    && (start in visited || start in queue)
    && (forall c, n :: c in visited && c !in space.cubes && n in Neighbours(c) && InSpace(space, n) ==>
          n in visited || n in queue)
  }

  /** The other half of the loop's state: every queued cell and every air cell is reached from `start`. */
  ghost predicate Tracked(space: Space, start: Cell, queue: seq<Cell>, air: set<Cell>)
  {
    && (forall q :: q in queue ==> Queued(space, start, air, q))
    && (forall c :: c in air ==> Reached(space, start, c))
  }

  /** A queued cell is the start or a neighbour of a cube-free air cell. */
  ghost predicate Queued(space: Space, start: Cell, air: set<Cell>, q: Cell)
  {
    q == start || exists e :: e in air && e !in space.cubes && q in Neighbours(e)
  }

  lemma QueuedGrows(space: Space, start: Cell, air: set<Cell>, air': set<Cell>, q: Cell)
    requires air <= air' && Queued(space, start, air, q)
    ensures Queued(space, start, air', q)
  {
    if q != start {
      var e :| e in air && e !in space.cubes && q in Neighbours(e);
      assert e in air';
    }
  }

  /** `c` is the start, or the end of a walk from the start through free cells of the box. */
  ghost predicate Reached(space: Space, start: Cell, c: Cell)
  {
    c == start || exists w :: AirWalk(space, w) && w != [] && w[0] == start && w[|w| - 1] == c
  }

  /** A free neighbour inside the box of a reached free cell is reached. */
  lemma ReachedStep(space: Space, start: Cell, e: Cell, n: Cell)
    requires Reached(space, start, e) && InSpace(space, e) && e !in space.cubes
    requires n in Neighbours(e) && InSpace(space, n) && n !in space.cubes
    ensures Reached(space, start, n)
  {
    var w: seq<Cell>;
    if e == start {
      w := [start];
    } else {
      w :| AirWalk(space, w) && w != [] && w[0] == start && w[|w| - 1] == e;
    }
    assert AirWalk(space, w) && w[|w| - 1] == e;
    var w' := w + [n];
    assert AirWalk(space, w') by {
      forall i | 0 < i < |w'| ensures w'[i] in Neighbours(w'[i - 1]) {
        if i < |w| {
          assert w'[i] == w[i] && w'[i - 1] == w[i - 1];
        }
      }
    }
    assert w'[0] == start && w'[|w'| - 1] == n;
  }

  /** The exterior reached from `start`: the cells of the box that the start reaches through free cells. */
  ghost function Exterior(space: Space, start: Cell): set<Cell>
  {
    set c | c in Box(space) && Reached(space, start, c)
  }

  /** What the flood guarantees of `air` from `start`. */
  ghost predicate Flooded(space: Space, start: Cell, air: set<Cell>)
  {
    && start in air
    && (forall c :: c in air ==> InSpace(space, c))
    && (forall c :: c in air && c != start ==> c !in space.cubes)
    && (forall c, n :: c in air && c !in space.cubes && n in Neighbours(c) && InSpace(space, n) && n !in space.cubes ==>
          n in air)
  }

  /** Expanding the front cell, free of cubes, and queueing its neighbours inside the box keeps every cell reached. */
  lemma TrackExpand(space: Space, start: Cell, queue: seq<Cell>, air: set<Cell>, queue': seq<Cell>)
    requires Tracked(space, start, queue, air) && queue != []
    requires InSpace(space, queue[0]) && queue[0] !in space.cubes
    requires forall c :: c in air ==> InSpace(space, c)
    requires forall n :: n in queue' ==> n in queue[1..] || (n in Neighbours(queue[0]) && InSpace(space, n))
    ensures Tracked(space, start, queue', air + {queue[0]})
  {
    var cube := queue[0];
    var air' := air + {cube};
    assert Reached(space, start, cube) by {
      assert Queued(space, start, air, cube);
      if cube != start {
        var e :| e in air && e !in space.cubes && cube in Neighbours(e);
        ReachedStep(space, start, e, cube);
      }
    }
    forall q | q in queue' ensures Queued(space, start, air', q) {
      if q in queue[1..] {
        QueuedGrows(space, start, air, air', q);
      } else {
        assert cube in air' && q in Neighbours(cube);
      }
    }
  }

  /** One pass of `try_fill`'s loop: pop the front cell and, unless it is a cube or already visited, expand it. */
  method FillStep(space: Space, start: Cell, visited: set<Cell>, queue: seq<Cell>, air: set<Cell>,
    ghost expanded: seq<Cell>)
    returns (visited': set<Cell>, queue': seq<Cell>, air': set<Cell>, ghost expanded': seq<Cell>)
    requires Filling(space, start, visited, queue, air, expanded) && queue != []
    requires Tracked(space, start, queue, air)
    ensures Filling(space, start, visited', queue', air', expanded')
    ensures Tracked(space, start, queue', air')
    ensures visited' == visited + {queue[0]}
    ensures queue[0] in visited ==> visited' == visited && queue' == queue[1..]
    ensures air' == air || air' == air + {queue[0]}
    ensures expanded' == expanded || expanded' == expanded + [queue[0]]
  {
    var cube := queue[0];
    assert InSpace(space, queue[0]);
    var rest := queue[1..];
    assert forall n :: n in queue ==> n == cube || n in rest;
    queue', air', expanded' := rest, air, expanded;
    if cube !in space.cubes && cube !in visited {
      air' := air + {cube};
      queue' := PushNeighbours(rest, space, cube);
      assert forall n :: n in rest ==> n in queue';
      TrackExpand(space, start, queue, air, queue');
      expanded' := expanded + [cube];
      assert forall c :: c in expanded' <==> c in expanded || c == cube;
    }
    visited' := visited + {cube};
  }

  /**
   * `try_fill`: a breadth-first flood from `start` through the cells of the
   * box that hold no cube. Only cells without a cube are added to `air`
   * (besides the start), each cell is expanded at most once (the ghost
   * `expanded` lists them in order), and the result is closed: every
   * cube-free neighbour inside the box of a cube-free air cell is air too.
   */
  method TryFill(start: Cell, space: Space) returns (air: set<Cell>, ghost expanded: seq<Cell>)
    requires InSpace(space, start)
    ensures Flooded(space, start, air)
    ensures air == Exterior(space, start)
    ensures Distinct(expanded) && forall c :: c in expanded <==> c in air && c !in space.cubes
  {
    var visited: set<Cell> := {};
    var queue := [start];
    air := {start};
    expanded := [];
    ghost var box := Box(space);
    while queue != []
      invariant Filling(space, start, visited, queue, air, expanded)
      invariant Tracked(space, start, queue, air)
      decreases |box - visited|, |queue|
    {
      var cube := queue[0];
      ghost var visited0 := visited;
      visited, queue, air, expanded := FillStep(space, start, visited, queue, air, expanded);
      if cube !in visited0 {
        RemainingShrinks(box, visited0, cube);
      }
    }
    Filled(space, start, visited, air, expanded);
    FloodIsExterior(space, start, air);
  }

  /** A flooded air set whose every cell is reached is the exterior: the flood finds exactly the reached cells. */
  lemma FloodIsExterior(space: Space, start: Cell, air: set<Cell>)
    requires Flooded(space, start, air) && forall c :: c in air ==> Reached(space, start, c)
    ensures air == Exterior(space, start)
  {
    forall c | c in Exterior(space, start) ensures c in air {
      if c != start {
        var w :| AirWalk(space, w) && w != [] && w[0] == start && w[|w| - 1] == c;
        FloodReaches(space, start, air, w);
      }
    }
  }

  /** Once the queue is empty, the air is flooded. */
  lemma Filled(space: Space, start: Cell, visited: set<Cell>, air: set<Cell>, expanded: seq<Cell>)
    requires Filling(space, start, visited, [], air, expanded)
    ensures Flooded(space, start, air)
    ensures Distinct(expanded) && forall c :: c in expanded <==> c in air && c !in space.cubes
  {
  }

  // ---- Part 2 ----

  /** The faces of the cube at `c` whose neighbour is outside air. */
  function ExposedOutside(space: Space, air: set<Cell>, c: Cell): nat
  {
    CountIf(Neighbours(c), Outside(space, air))
  }

  /** The test of part 2 for a neighbouring cell. */
  function Outside(space: Space, air: set<Cell>): Cell -> bool
  {
    n => IsOutside(space, air, n)
  }

  function SumExposedOutside(space: Space, air: set<Cell>, input: seq<Cell>): nat
  {
    if input == [] then 0 else ExposedOutside(space, air, input[0]) + SumExposedOutside(space, air, input[1..])
  }

  /** The least coordinate, on any axis, of any cube. */
  function MinCoord(input: seq<Cell>): (r: int)
    requires input != []
    ensures forall c :: c in input ==> r <= c.0 && r <= c.1 && r <= c.2
    ensures exists c :: c in input && (r == c.0 || r == c.1 || r == c.2)
  {
    var c := input[0];
    var m := if c.0 <= c.1 && c.0 <= c.2 then c.0 else if c.1 <= c.2 then c.1 else c.2;
    if |input| == 1 then m
    else
      var rest := MinCoord(input[1..]);
      assert forall d :: d in input ==> d == c || d in input[1..];
      if m <= rest then m else rest
  }

  /** The greatest coordinate, on any axis, of any cube. */
  function MaxCoord(input: seq<Cell>): (r: int)
    requires input != []
    ensures forall c :: c in input ==> c.0 <= r && c.1 <= r && c.2 <= r
    ensures exists c :: c in input && (r == c.0 || r == c.1 || r == c.2)
  {
    var c := input[0];
    var m := if c.0 >= c.1 && c.0 >= c.2 then c.0 else if c.1 >= c.2 then c.1 else c.2;
    if |input| == 1 then m
    else
      var rest := MaxCoord(input[1..]);
      assert forall d :: d in input ==> d == c || d in input[1..];
      if m >= rest then m else rest
  }

  /** The box of `part2`: one cell beyond the cubes on every side, on every axis alike. */
  function Bounds(input: seq<Cell>): (space: Space)
    requires input != []
    ensures space.cubes == Cubes(input)
    ensures forall c, n :: c in input && n in Neighbours(c) ==> InSpace(space, n)
  {
    Space(Cubes(input), MinCoord(input) - 1, MaxCoord(input) + 1)
  }

  /** The corner the flood starts from lies in the box and holds no cube. */
  lemma CornerIsFree(input: seq<Cell>)
    requires input != []
    ensures var space := Bounds(input); var m := space.min;
      InSpace(space, (m, m, m)) && (m, m, m) !in space.cubes
  {
    var m := Bounds(input).min;
    var c := input[0];
    assert MinCoord(input) <= c.0 <= MaxCoord(input);
  }

  /** Cells one after the other sharing a face, all inside the box and free of cubes. */
  ghost predicate AirWalk(space: Space, w: seq<Cell>)
  {
    && (forall i :: 0 <= i < |w| ==> InSpace(space, w[i]) && w[i] !in space.cubes)
    && (forall i :: 0 < i < |w| ==> w[i] in Neighbours(w[i - 1]))
  }

  /** The flood reaches every cell that a walk through free cells of the box leads to from a free start. */
  lemma {:induction false} FloodReaches(space: Space, start: Cell, air: set<Cell>, w: seq<Cell>)
    requires Flooded(space, start, air)
    requires AirWalk(space, w) && w != [] && w[0] == start
    ensures forall i :: 0 <= i < |w| ==> w[i] in air
  {
    if |w| > 1 {
      var init := w[..|w| - 1];
      assert AirWalk(space, init);
      FloodReaches(space, start, air, init);
      assert w[|w| - 2] == init[|w| - 2];
      forall i | 0 <= i < |w| ensures w[i] in air {
        if i < |w| - 1 {
          assert w[i] == init[i];
        }
      }
    }
  }

  /** An outside face is an exposed face, whatever air the flood found: part 2 never exceeds part 1. */
  lemma {:induction false} OutsideAtMostExposed(space: Space, air: set<Cell>, input: seq<Cell>)
    ensures SumExposedOutside(space, air, input) <= SumExposed(space.cubes, input)
  {
    if input != [] {
      CountIfMonotone(Neighbours(input[0]), Outside(space, air), Free(space.cubes));
      OutsideAtMostExposed(space, air, input[1..]);
    }
  }

  /**
   * `part2`: flood the air from the corner of the padded box and count the
   * faces that touch it. The source panics on an empty input (`max` of
   * nothing); that is `None` here.
   */
  method Part2(input: seq<Cell>) returns (r: Option<nat>)
    ensures r.None? <==> input == []
    ensures r.Some? ==> r.value <= Part1(input)
    ensures r.Some? ==> var space := Bounds(input); var m := space.min;
      r.value == SumExposedOutside(space, Exterior(space, (m, m, m)), input)
  {
    if input == [] {
      return None;
    }
    var space := Bounds(input);
    var min := space.min;
    CornerIsFree(input);
    var air, expanded := TryFill((min, min, min), space);
    OutsideAtMostExposed(space, air, input);
    r := Some(SumExposedOutside(space, air, input));
  }
}
