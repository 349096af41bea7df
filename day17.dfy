/**
 * Day 17 (src/days/day17.rs): rocks of five shapes fall, in turn, into a
 * chamber seven cells wide, pushed left or right by a repeating jet pattern
 * and then down, until a downward move is blocked. Part 1 measures the tower
 * after 2022 rocks; part 2 finds a repeated snapshot of the tower and
 * extrapolates to 10^12 rocks.
 *
 * The grid maps each occupied cell to the number of the rock holding it; a
 * falling rock is in the map too, so it does not obstruct itself. The pure
 * functions `Move`, `Step`, `Drop` and `Tower` state what the methods of
 * `Grid` do to the map.
 */
module Day17 {
  import opened Wrappers
  import Sorting

  /** A cell: x from the left wall, y up from the floor. */
  type Pos = (int, int)

  const LineArea: seq<Pos> := [(0, 0), (1, 0), (2, 0), (3, 0)]
  const CrossArea: seq<Pos> := [(1, 0), (0, 1), (1, 1), (2, 1), (1, 2)]
  const SeatArea: seq<Pos> := [(2, 0), (2, 1), (0, 2), (1, 2), (2, 2)]
  const ColumnArea: seq<Pos> := [(0, 0), (0, 1), (0, 2), (0, 3)]
  const DotArea: seq<Pos> := [(0, 0), (1, 0), (0, 1), (1, 1)]

  /** The `k`-th rock of the falling order, with its height; the order repeats every five rocks. */
  function Rock(k: nat): (r: (seq<Pos>, int))
    ensures Shape(r.0) && r.1 >= 1
  {
    match k % 5
    case 0 => (LineArea, 1)
    case 1 => (CrossArea, 3)
    case 2 => (SeatArea, 3)
    case 3 => (ColumnArea, 4)
    case _ => (DotArea, 2)
  }

  /**
   * A rock's area: offsets right and down from its top-left corner, inside
   * the 4 by 4 box `move_all`'s array of 16 moves is indexed by.
   */
  predicate Shape(area: seq<Pos>)
  {
    |area| > 0 && forall i :: 0 <= i < |area| ==> 0 <= area[i].0 < 4 && 0 <= area[i].1 < 4
  }

  function Offset(p: Pos, d: Pos): Pos
  {
    (p.0 + d.0, p.1 + d.1)
  }

  /** The cells of a rock whose top-left corner is `top`. */
  function Cells(area: seq<Pos>, top: Pos): (r: seq<Pos>)
    ensures |r| == |area|
    ensures forall i :: 0 <= i < |area| ==> r[i] == (top.0 + area[i].0, top.1 - area[i].1)
  {
    seq(|area|, i requires 0 <= i < |area| => (top.0 + area[i].0, top.1 - area[i].1))
  }

  /** `is_obstructed`: outside the chamber, below the floor, or held by another rock. */
  predicate Obstructed(inner: map<Pos, nat>, pos: Pos, id: nat)
  {
    pos.0 < 0 || pos.0 > 6 || pos.1 < 0 || (pos in inner && inner[pos] != id)
  }

  /** Some cell of the rock, shifted by `dir`, is obstructed. */
  predicate Blocked(inner: map<Pos, nat>, area: seq<Pos>, id: nat, top: Pos, dir: Pos)
  {
    exists i :: 0 <= i < |area| && Obstructed(inner, Offset(Cells(area, top)[i], dir), id)
  }

  /** `inner.remove(old)` for each cell, in order. */
  function RemoveAll(m: map<Pos, nat>, ps: seq<Pos>): map<Pos, nat>
  {
    if ps == [] then m else RemoveAll(m, ps[..|ps| - 1]) - {ps[|ps| - 1]}
  }

  /** `inner.insert(new, id)` for each cell, in order. */
  function InsertAll(m: map<Pos, nat>, ps: seq<Pos>, v: nat): map<Pos, nat>
  {
    if ps == [] then m else InsertAll(m, ps[..|ps| - 1], v)[ps[|ps| - 1] := v]
  }

  lemma {:induction false} RemoveAllCells(m: map<Pos, nat>, ps: seq<Pos>)
    ensures forall p :: p in RemoveAll(m, ps) <==> p in m && p !in ps
    ensures forall p :: p in RemoveAll(m, ps) ==> RemoveAll(m, ps)[p] == m[p]
    decreases |ps|
  {
    if ps != [] {
      RemoveAllCells(m, ps[..|ps| - 1]);
      assert ps == ps[..|ps| - 1] + [ps[|ps| - 1]];
    }
  }

  lemma {:induction false} InsertAllCells(m: map<Pos, nat>, ps: seq<Pos>, v: nat)
    ensures forall p :: p in InsertAll(m, ps, v) <==> p in m || p in ps
    ensures forall p :: p in ps ==> InsertAll(m, ps, v)[p] == v
    ensures forall p :: p in m && p !in ps ==> InsertAll(m, ps, v)[p] == m[p]
    decreases |ps|
  {
    if ps != [] {
      InsertAllCells(m, ps[..|ps| - 1], v);
      assert ps == ps[..|ps| - 1] + [ps[|ps| - 1]];
    }
  }

  /**
   * `move_all`: when a shifted cell is obstructed, nothing moves; otherwise
   * the rock's cells are vacated and its shifted cells take its number.
   */
  function Move(inner: map<Pos, nat>, area: seq<Pos>, id: nat, top: Pos, dir: Pos): (bool, Pos, map<Pos, nat>)
  {
    if Blocked(inner, area, id, top, dir) then (true, top, inner)
    else (false, Offset(top, dir), InsertAll(RemoveAll(inner, Cells(area, top)), Cells(area, Offset(top, dir)), id))
  }

  /**
   * `move_all` is all or nothing: a blocked move changes nothing; a free one
   * moves the corner by `dir`, leaves the rock's number on every shifted
   * cell, frees the cells it left and touches no other cell.
   */
  lemma MoveEffect(inner: map<Pos, nat>, area: seq<Pos>, id: nat, top: Pos, dir: Pos)
    ensures var (blocked, newTop, g) := Move(inner, area, id, top, dir);
      && (blocked <==> exists i :: 0 <= i < |area| && Obstructed(inner, Offset(Cells(area, top)[i], dir), id))
      && (blocked ==> newTop == top && g == inner)
      && (!blocked ==> (newTop == Offset(top, dir)
        && (forall i :: 0 <= i < |area| ==> Cells(area, newTop)[i] in g && g[Cells(area, newTop)[i]] == id)
        && (forall p :: p in Cells(area, top) && p !in Cells(area, newTop) ==> p !in g)
        && (forall p :: p !in Cells(area, top) && p !in Cells(area, newTop) ==>
          (p in g <==> p in inner) && (p in g ==> g[p] == inner[p]))))
  {
    var cells := Cells(area, top);
    var moved := Cells(area, Offset(top, dir));
    RemoveAllCells(inner, cells);
    InsertAllCells(RemoveAll(inner, cells), moved, id);
  }

  /** A free move leaves every cell of the rock inside the chamber. */
  lemma MoveInside(inner: map<Pos, nat>, area: seq<Pos>, id: nat, top: Pos, dir: Pos)
    requires !Move(inner, area, id, top, dir).0
    ensures forall i :: 0 <= i < |area| ==>
      var c := Cells(area, Move(inner, area, id, top, dir).1)[i];
      0 <= c.0 <= 6 && c.1 >= 0
  {
    forall i | 0 <= i < |area|
      ensures !Obstructed(inner, Offset(Cells(area, top)[i], dir), id)
    {
    }
  }

  /** The jet's direction. */
  function Wind(right: bool): Pos
  {
    (if right then 1 else -1, 0)
  }

  /** `do_move`: the jet's push, whose failure is ignored, then one cell down; only the fall decides rest. */
  function Step(inner: map<Pos, nat>, right: bool, area: seq<Pos>, id: nat, top: Pos): (bool, Pos, map<Pos, nat>)
  {
    var (_, pushed, g) := Move(inner, area, id, top, Wind(right));
    Move(g, area, id, pushed, (0, -1))
  }

  /** A step that does not rest lowers the corner by one and keeps it at or above the floor. */
  lemma StepDown(inner: map<Pos, nat>, right: bool, area: seq<Pos>, id: nat, top: Pos)
    requires Shape(area) && !Step(inner, right, area, id, top).0
    ensures Step(inner, right, area, id, top).1.1 == top.1 - 1 >= 0
  {
    var (_, pushed, g) := Move(inner, area, id, top, Wind(right));
    MoveInside(g, area, id, pushed, (0, -1));
    assert Cells(area, Step(inner, right, area, id, top).1)[0].1 >= 0;
  }

  /**
   * The inner loop of `part1` and `part2`: steps until the rock rests,
   * moving to the next jet after every step, the resting one included.
   */
  function Drop(inner: map<Pos, nat>, winds: seq<bool>, wi: nat, area: seq<Pos>, id: nat, top: Pos): (r: (map<Pos, nat>, nat))
    requires Shape(area) && wi < |winds|
    ensures r.1 < |winds|
    decreases top.1
  {
    var (rest, next, g) := Step(inner, winds[wi], area, id, top);
    var wi' := (wi + 1) % |winds|;
    if rest then (g, wi')
    else
      StepDown(inner, winds[wi], area, id, top);
      Drop(g, winds, wi', area, id, next)
  }

  /** A move keeps a non-empty grid non-empty, and a free move leaves the rock's cells in the grid. */
  lemma MoveNonEmpty(inner: map<Pos, nat>, area: seq<Pos>, id: nat, top: Pos, dir: Pos)
    requires Shape(area)
    requires inner != map[] || !Move(inner, area, id, top, dir).0
    ensures Move(inner, area, id, top, dir).2 != map[]
  {
    MoveEffect(inner, area, id, top, dir);
    var (blocked, newTop, g) := Move(inner, area, id, top, dir);
    if !blocked {
      assert Cells(area, newTop)[0] in g;
    }
  }

  /** A rock dropped onto a non-empty grid, or whose first step does not rest, leaves the grid non-empty. */
  lemma {:induction false} DropNonEmpty(inner: map<Pos, nat>, winds: seq<bool>, wi: nat, area: seq<Pos>, id: nat, top: Pos)
    requires Shape(area) && wi < |winds|
    requires inner != map[] || !Step(inner, winds[wi], area, id, top).0
    ensures Drop(inner, winds, wi, area, id, top).0 != map[]
    decreases top.1
  {
    var (_, pushed, g) := Move(inner, area, id, top, Wind(winds[wi]));
    if inner != map[] {
      MoveNonEmpty(inner, area, id, top, Wind(winds[wi]));
    }
    if g != map[] || !Move(g, area, id, pushed, (0, -1)).0 {
      MoveNonEmpty(g, area, id, pushed, (0, -1));
    }
    var (rest, next, g') := Step(inner, winds[wi], area, id, top);
    if !rest {
      StepDown(inner, winds[wi], area, id, top);
      DropNonEmpty(g', winds, (wi + 1) % |winds|, area, id, next);
    }
  }

  /** The first rock, a line spawned at (2, 3) on the empty floor, does not rest on its first step. */
  lemma FirstStepFree(right: bool)
    ensures !Step(map[], right, LineArea, 0, (2, 3)).0
  {
    var (_, pushed, g) := Move(map[], LineArea, 0, (2, 3), Wind(right));
    MoveOnEmpty(LineArea, 0, (2, 3), Wind(right));
    PushedLine(right);
    DownFree(g, LineArea, 0, pushed);
  }

  /** A move on the empty grid leaves only the rock's own cells. */
  lemma MoveOnEmpty(area: seq<Pos>, id: nat, top: Pos, dir: Pos)
    ensures var g := Move(map[], area, id, top, dir).2; forall p :: p in g ==> g[p] == id
  {
    var inner: map<Pos, nat> := map[];
    RemoveAllCells(inner, Cells(area, top));
    InsertAllCells(RemoveAll(inner, Cells(area, top)), Cells(area, Offset(top, dir)), id);
  }

  /** The first rock, pushed either way on the empty floor, stays in row 3 inside the chamber. */
  lemma PushedLine(right: bool)
    ensures var pushed := Move(map[], LineArea, 0, (2, 3), Wind(right)).1;
      forall i :: 0 <= i < |LineArea| ==> 0 <= Cells(LineArea, pushed)[i].0 <= 6 && Cells(LineArea, pushed)[i].1 == 3
  {
    if !Move(map[], LineArea, 0, (2, 3), Wind(right)).0 {
      MoveInside(map[], LineArea, 0, (2, 3), Wind(right));
    }
  }

  /** A rock falling onto a non-empty grid leaves it non-empty. */
  lemma FallNonEmpty(g: map<Pos, nat>, winds: seq<bool>, wi: nat, id: nat)
    requires wi < |winds| && g != map[]
    ensures Fall(g, winds, wi, id).0 != map[]
  {
    DropNonEmpty(g, winds, wi, Rock(id).0, id, Spawn(MaxY(g.Keys), Rock(id).1));
  }

  /** The first rock, falling onto the empty floor, leaves cells behind. */
  lemma FirstFallNonEmpty(winds: seq<bool>)
    requires |winds| > 0
    ensures Fall(map[], winds, 0, 0).0 != map[]
  {
    var g: map<Pos, nat> := map[];
    assert Spawn(MaxY(g.Keys), Rock(0).1) == (2, 3);
    FirstStepFree(winds[0]);
    DropNonEmpty(g, winds, 0, LineArea, 0, (2, 3));
  }

  /** A rock clear of the walls and the floor, in a grid holding only its own cells, can move down. */
  lemma DownFree(g: map<Pos, nat>, area: seq<Pos>, id: nat, top: Pos)
    requires forall p :: p in g ==> g[p] == id
    requires forall i :: 0 <= i < |area| ==> 0 <= Cells(area, top)[i].0 <= 6 && Cells(area, top)[i].1 >= 1
    ensures !Blocked(g, area, id, top, (0, -1))
  {
  }

  // ---- Heights ----

  /** The highest y of a set of cells, -1 for none (`unwrap_or((0, -1))`). */
  ghost function MaxY(s: set<Pos>): (r: int)
    ensures s == {} ==> r == -1
    ensures forall p :: p in s ==> p.1 <= r
    ensures s != {} ==> exists p :: p in s && p.1 == r
  {
    if s == {} then -1
    else
      var p :| p in s;
      if s - {p} == {} then assert s == {p}; p.1
      else
        var rest := MaxY(s - {p});
        if rest < p.1 then p.1 else rest
  }

  /** Any bound attained by a cell is `MaxY`. */
  lemma MaxYUnique(s: set<Pos>, r: int)
    requires s != {} && (forall p :: p in s ==> p.1 <= r) && exists p :: p in s && p.1 == r
    ensures r == MaxY(s)
  {
  }

  /** `keys().max_by_key(|pos| pos.1)`, `-1` when there are none. */
  method TopY(s: set<Pos>) returns (r: int)
    ensures r == MaxY(s)
  {
    r := -1;
    var rest := s;
    while rest != {}
      invariant rest <= s
      invariant forall p :: p in s - rest ==> p.1 <= r
      invariant s - rest != {} ==> exists p :: p in s - rest && p.1 == r
      invariant s - rest == {} ==> r == -1
      decreases |rest|
    {
      var p :| p in rest;
      if s - rest == {} || r < p.1 {
        r := p.1;
      }
      rest := rest - {p};
    }
    if s != {} {
      MaxYUnique(s, r);
    }
  }

  /** Some element of a non-empty set: the next one in a hash set's iteration order. */
  method Pick<T>(s: set<T>) returns (x: T)
    requires s != {}
    ensures x in s
  {
    x :| x in s;
  }

  /** The state after `k` rocks, in part 1: the grid and the jet index. */
  ghost function Tower(winds: seq<bool>, k: nat): (r: (map<Pos, nat>, nat))
    requires |winds| > 0
    ensures r.1 < |winds|
  {
    if k == 0 then (map[], 0)
    else
      var (g, wi) := Tower(winds, k - 1);
      Fall(g, winds, wi, k - 1)
  }

  /** The corner of a rock of height `height` that spawns two cells from the left wall with three empty rows above `maxY`. */
  function Spawn(maxY: int, height: int): Pos
  {
    (2, maxY + 3 + height)
  }

  /** Rock number `id` spawns two cells from the left wall with three empty rows below it, then falls. */
  ghost function Fall(g: map<Pos, nat>, winds: seq<bool>, wi: nat, id: nat): (r: (map<Pos, nat>, nat))
    requires wi < |winds|
    ensures r.1 < |winds|
  {
    Drop(g, winds, wi, Rock(id).0, id, Spawn(MaxY(g.Keys), Rock(id).1))
  }

  /** `Fall` is `Drop` from the spawn point. */
  lemma Spawned(g: map<Pos, nat>, winds: seq<bool>, wi: nat, id: nat, rock: (seq<Pos>, int), maxY: int, g': map<Pos, nat>, wi': nat)
    requires wi < |winds| && rock == Rock(id) && maxY == MaxY(g.Keys)
    requires (g', wi') == Drop(g, winds, wi, rock.0, id, Spawn(maxY, rock.1))
    ensures (g', wi') == Fall(g, winds, wi, id)
  {
  }

  /**
   * A spawned rock is clear of the tower: each of its cells is free, two to
   * five cells from the left wall and at least four rows above the highest
   * resting cell.
   */
  lemma SpawnClear(g: map<Pos, nat>, id: nat)
    ensures forall i :: 0 <= i < |Rock(id).0| ==>
      var c := Cells(Rock(id).0, Spawn(MaxY(g.Keys), Rock(id).1))[i];
      c !in g && 2 <= c.0 <= 5 && c.1 >= MaxY(g.Keys) + 4
  {
  }

  // ---- The chamber ----

  class Grid {
    var inner: map<Pos, nat>
    var windDirection: bool

    /** `Grid::new`: an empty chamber and the first jet. */
    constructor (firstDirection: bool)
      ensures inner == map[] && windDirection == firstDirection
    {
      inner := map[];
      windDirection := firstDirection;
    }

    /**
     * `move_all`. The source gathers the moves in an array indexed by
     * `dx + 4 * dy`; for every shape that index grows along the area, so the
     * moves are taken in the order of the area.
     */
    method MoveAll(area: seq<Pos>, id: nat, top: Pos, dir: Pos) returns (blocked: bool, newTop: Pos)
      requires Shape(area)
      modifies this
      ensures windDirection == old(windDirection)
      ensures (blocked, newTop, inner) == Move(old(inner), area, id, top, dir)
    {
      var moves;
      blocked, moves := PlanMoves(area, id, top, dir);
      if blocked {
        return true, top;
      }
      Vacate(moves, Cells(area, top));
      Occupy(moves, Cells(area, Offset(top, dir)), id);
      newTop := Offset(top, dir);
    }

    /** The first loop of `move_all`: each cell's old and new place, or blocked at the first obstructed one. */
    method PlanMoves(area: seq<Pos>, id: nat, top: Pos, dir: Pos) returns (blocked: bool, moves: seq<(Pos, Pos)>)
      requires Shape(area)
      ensures blocked <==> Blocked(inner, area, id, top, dir)
      ensures !blocked ==> |moves| == |area|
      ensures !blocked ==> forall k :: 0 <= k < |area| ==> moves[k] == (Cells(area, top)[k], Cells(area, Offset(top, dir))[k])
    {
      moves := [];
      ghost var cells := Cells(area, top);
      ghost var moved := Cells(area, Offset(top, dir));
      for i := 0 to |area|
        invariant |moves| == i
        invariant forall k :: 0 <= k < i ==> moves[k] == (cells[k], moved[k])
        invariant forall k :: 0 <= k < i ==> !Obstructed(inner, Offset(cells[k], dir), id)
      {
        var (dx, dy) := area[i];
        var (oldX, oldY) := (top.0 + dx, top.1 - dy);
        var (newX, newY) := (oldX + dir.0, oldY + dir.1);
        if Obstructed(inner, (newX, newY), id) {
          assert Offset(cells[i], dir) == (newX, newY);
          return true, moves;
        }
        moves := moves + [((oldX, oldY), (newX, newY))];
      }
      blocked := false;
    }

    /** The second loop of `move_all`: every old cell is removed. */
    method Vacate(moves: seq<(Pos, Pos)>, cells: seq<Pos>)
      requires |moves| == |cells| && forall k :: 0 <= k < |cells| ==> moves[k].0 == cells[k]
      modifies this
      ensures windDirection == old(windDirection) && inner == RemoveAll(old(inner), cells)
    {
      for i := 0 to |moves|
        invariant windDirection == old(windDirection)
        invariant inner == RemoveAll(old(inner), cells[..i])
      {
        assert cells[..i + 1][..i] == cells[..i];
        inner := inner - {moves[i].0};
      }
      assert cells[..|moves|] == cells;
    }

    /** The third loop of `move_all`: every new cell takes the rock's number. */
    method Occupy(moves: seq<(Pos, Pos)>, moved: seq<Pos>, id: nat)
      requires |moves| == |moved| && forall k :: 0 <= k < |moved| ==> moves[k].1 == moved[k]
      modifies this
      ensures windDirection == old(windDirection) && inner == InsertAll(old(inner), moved, id)
    {
      for i := 0 to |moves|
        invariant windDirection == old(windDirection)
        invariant inner == InsertAll(old(inner), moved[..i], id)
      {
        assert moved[..i + 1][..i] == moved[..i];
        inner := inner[moves[i].1 := id];
      }
      assert moved[..|moves|] == moved;
    }

    /** `do_move`. */
    method DoMove(area: seq<Pos>, id: nat, top: Pos) returns (rest: bool, newTop: Pos)
      requires Shape(area)
      modifies this
      ensures windDirection == old(windDirection)
      ensures (rest, newTop, inner) == Step(old(inner), old(windDirection), area, id, top)
    {
      var _, pushed := MoveAll(area, id, top, (if windDirection then 1 else -1, 0));
      rest, newTop := MoveAll(area, id, pushed, (0, -1));
    }

    /** The `while let` loop: the rock falls until it rests, and the jet advances after every step. */
    method DropPiece(winds: seq<bool>, wi: nat, area: seq<Pos>, id: nat, top: Pos) returns (wi': nat)
      requires Shape(area) && wi < |winds| && windDirection == winds[wi]
      modifies this
      ensures (inner, wi') == Drop(old(inner), winds, wi, area, id, top) && windDirection == winds[wi']
    {
      var pos := top;
      wi' := wi;
      while true
        invariant wi' < |winds| && windDirection == winds[wi']
        invariant Drop(inner, winds, wi', area, id, pos) == Drop(old(inner), winds, wi, area, id, top)
        decreases pos.1
      {
        ghost var g, w := inner, wi';
        var rest, newPos := DoMove(area, id, pos);
        wi' := (wi' + 1) % |winds|;
        windDirection := winds[wi'];
        if rest {
          return;
        }
        StepDown(g, winds[w], area, id, pos);
        pos := newPos;
      }
    }

    /** One rock of `part1`'s loop: spawn above the tower, then fall. */
    method Place(winds: seq<bool>, wi: nat, id: nat) returns (wi': nat)
      requires wi < |winds| && windDirection == winds[wi]
      modifies this
      ensures (inner, wi') == Fall(old(inner), winds, wi, id)
      ensures windDirection == winds[wi']
    {
      var rock := Rock(id);
      var maxY := TopY(inner.Keys);
      ghost var h := inner;
      wi' := DropPiece(winds, wi, rock.0, id, Spawn(maxY, rock.1));
      Spawned(h, winds, wi, id, rock, maxY, inner, wi');
    }
  }

  /** `part1`: the height of the tower after 2022 rocks. The source requires a non-empty jet pattern. */
  method Part1(winds: seq<bool>) returns (r: int)
    requires |winds| > 0
    ensures r == MaxY(Tower(winds, 2022).0.Keys) + 1
  {
    var grid := new Grid(winds[0]);
    var wi: nat := 0;
    var rested := 0;
    while rested < 2022
      invariant 0 <= rested <= 2022 && wi < |winds| && grid.windDirection == winds[wi]
      invariant (grid.inner, wi) == Tower(winds, rested)
    {
      wi := grid.Place(winds, wi, rested);
      rested := rested + 1;
    }
    var top := TopY(grid.inner.Keys);
    r := top + 1;
  }
}
