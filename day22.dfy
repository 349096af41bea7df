/**
 * Day 22 (src/days/day22.rs): walking a board of open tiles and walls by a
 * list of moves and turns. A step off the board wraps round to the other
 * side of its row or column (part 1), or, with the board folded into a
 * cube, onto the face across the edge, with a new facing (part 2). A move
 * stops at the first wall; the answer is a password made of the final
 * row, column and facing.
 *
 * The board is given as the parsed `Grid`: the walls, the row bands
 * (`bounds`: runs of rows sharing one column range), the start, the
 * moves, and the cube's faces and edges as constant tables.
 */
module Day22 {
  import opened Wrappers
  import RustInt

  type Pos = (int, int)

  // ---- Facings ----

  datatype Facing = Up | Down | Left | Right

  /** The enum's discriminant, as the password uses it. */
  function Value(f: Facing): (r: nat)
    ensures r < 4
  {
    match f
    case Right => 0
    case Down => 1
    case Left => 2
    case Up => 3
  }

  /** `turn`: clockwise for `right`, anticlockwise otherwise. */
  function Turn(f: Facing, right: bool): Facing
  {
    match (f, right)
    case (Up, true) => Right
    case (Right, true) => Down
    case (Down, true) => Left
    case (Left, true) => Up
    case (Up, false) => Left
    case (Left, false) => Down
    case (Down, false) => Right
    case (Right, false) => Up
  }

  /** A right turn adds one to the discriminant modulo 4, a left turn takes one away. */
  lemma TurnValue(f: Facing, right: bool)
    ensures right ==> Value(Turn(f, right)) == (Value(f) + 1) % 4
    ensures !right ==> Value(Turn(f, right)) == (Value(f) + 3) % 4
  {
  }

  /** A turn one way undoes a turn the other way. */
  lemma TurnInverse(f: Facing, right: bool)
    ensures Turn(Turn(f, right), !right) == f
  {
  }

  /** Four turns the same way come back to the start. */
  lemma TurnFour(f: Facing, right: bool)
    ensures Turn(Turn(Turn(Turn(f, right), right), right), right) == f
  {
  }

  /** `get_pos_mod`: the unit step of a facing; y grows downwards. */
  function PosMod(f: Facing): (r: Pos)
    ensures RustInt.Abs(r.0) + RustInt.Abs(r.1) == 1
    ensures f == Up ==> r == (0, -1)
    ensures f == Down ==> r == (0, 1)
    ensures f == Left ==> r == (-1, 0)
    ensures f == Right ==> r == (1, 0)
  {
    match f
    case Up => (0, -1)
    case Down => (0, 1)
    case Left => (-1, 0)
    case Right => (1, 0)
  }

  /** Opposite facings step in opposite directions. */
  lemma PosModOpposite(f: Facing)
    ensures PosMod(Turn(Turn(f, true), true)) == (-PosMod(f).0, -PosMod(f).1)
  {
  }

  // ---- Ranges and rectangles ----

  /** `RangeInclusive<isize>`. */
  datatype Range = Range(start: int, end: int)
  {
    predicate Contains(x: int)
    {
      start <= x <= end
    }
  }

  /** `Rect`: both corners inclusive. */
  datatype Rect = Rect(top: Pos, bottom: Pos)
  {
    /** `is_inside`. */
    predicate IsInside(p: Pos)
    {
      p.0 >= top.0 && p.0 <= bottom.0 && p.1 >= top.1 && p.1 <= bottom.1
    }
  }

  /** `Rect::new`: the bottom corner is given exclusive and stored inclusive. */
  function NewRect(topX: int, topY: int, bottomX: int, bottomY: int): Rect
  {
    Rect((topX, topY), (bottomX - 1, bottomY - 1))
  }

  /** The rectangle holds the points from the top corner, inclusive, to the bottom corner, exclusive. */
  lemma NewRectInside(topX: int, topY: int, bottomX: int, bottomY: int, p: Pos)
    ensures NewRect(topX, topY, bottomX, bottomY).IsInside(p) <==> topX <= p.0 < bottomX && topY <= p.1 < bottomY
  {
  }

  function MinStart(ranges: seq<Range>): (r: int)
    requires ranges != []
    ensures forall i :: 0 <= i < |ranges| ==> r <= ranges[i].start
    ensures exists i :: 0 <= i < |ranges| && r == ranges[i].start
  {
    if |ranges| == 1 then ranges[0].start
    else
      var rest := MinStart(ranges[1..]);
      assert forall i :: 1 <= i < |ranges| ==> ranges[i] == ranges[1..][i - 1];
      if ranges[0].start <= rest then ranges[0].start else rest
  }

  function MaxEnd(ranges: seq<Range>): (r: int)
    requires ranges != []
    ensures forall i :: 0 <= i < |ranges| ==> ranges[i].end <= r
    ensures exists i :: 0 <= i < |ranges| && r == ranges[i].end
  {
    if |ranges| == 1 then ranges[0].end
    else
      var rest := MaxEnd(ranges[1..]);
      assert forall i :: 1 <= i < |ranges| ==> ranges[i] == ranges[1..][i - 1];
      if ranges[0].end >= rest then ranges[0].end else rest
  }

  /**
   * `wrap`: bring `coord` into the span from the least start to the
   * greatest end of `ranges`, keeping it congruent modulo the span's
   * length. `None` where the source panics: no ranges (`unwrap` of
   * `min`) or a span of length 0 (`rem_euclid(0)`).
   */
  function Wrap(coord: int, ranges: seq<Range>): (r: Option<int>)
    ensures r.None? <==> ranges == [] || MaxEnd(ranges) + 1 == MinStart(ranges)
  {
    if ranges == [] then None
    else
      var lo, hi := MinStart(ranges), MaxEnd(ranges);
      var span := hi + 1 - lo;
      if span == 0 then None
      else Some((coord - lo) % span + lo)
  }

  /**
   * A wrapped coordinate lies in the span, and differs from the original by
   * a multiple of the span's length.
   */
  lemma WrapSound(coord: int, ranges: seq<Range>)
    requires Wrap(coord, ranges).Some?
    ensures var v, lo, span := Wrap(coord, ranges).value, MinStart(ranges), MaxEnd(ranges) + 1 - MinStart(ranges);
      lo <= v < lo + RustInt.Abs(span) && (v - coord) % span == 0
    ensures MinStart(ranges) <= MaxEnd(ranges) ==> MinStart(ranges) <= Wrap(coord, ranges).value <= MaxEnd(ranges)
  {
    var lo, hi := MinStart(ranges), MaxEnd(ranges);
    var span := hi + 1 - lo;
    var v := (coord - lo) % span + lo;
    RustInt.ModUnique(v - coord, span, -((coord - lo) / span), 0);
  }

  /** A coordinate already in a single range is left where it is. */
  lemma WrapInside(coord: int, range: Range)
    requires range.Contains(coord)
    ensures Wrap(coord, [range]) == Some(coord)
  {
    var span := range.end + 1 - range.start;
    RustInt.ModUnique(coord - range.start, span, 0, coord - range.start);
  }

  // ---- The board ----

  /** A band of rows (`y_bounds`) sharing one range of columns (`x_bounds`). */
  datatype Bound = Bound(rows: Range, cols: Range)

  datatype Direction = Move(steps: nat) | TurnTo(right: bool)

  /**
   * The parsed board. The hash tables of faces and edges are the source's
   * constant tables; the faces are searched in table order, which agrees
   * with any order once the faces are disjoint and their names distinct
   * (`InputTablesSound`, `ExampleTablesSound`).
   */
  datatype Grid = Grid(
    walls: set<Pos>,
    bounds: seq<Bound>,
    start: Pos,
    directions: seq<Direction>,
    faces: seq<(char, Rect)>,
    edges: map<(char, Facing), (char, Facing)>)

  datatype State = State(pos: Pos, facing: Facing)

  /** One step: to a new state, against a wall, or a panic of the source. */
  datatype Step = Moved(next: State) | Wall | Fail

  /** The band decides the step: the target is on it, or we leave the band's columns on our own row. */
  predicate Decides(b: Bound, current: Pos, target: Pos)
  {
    (b.cols.Contains(target.0) && b.rows.Contains(target.1)) || (!b.cols.Contains(target.0) && b.rows.Contains(current.1))
  }

  /** The first band from `i` on that decides the step, as the source's loop with `break` finds it. */
  function FirstFrom(bounds: seq<Bound>, i: nat, current: Pos, target: Pos): (r: Option<nat>)
    requires i <= |bounds|
    ensures r.Some? ==> i <= r.value < |bounds| && Decides(bounds[r.value], current, target)
    ensures r.Some? ==> forall k :: i <= k < r.value ==> !Decides(bounds[k], current, target)
    ensures r.None? ==> forall k :: i <= k < |bounds| ==> !Decides(bounds[k], current, target)
    decreases |bounds| - i
  {
    if i == |bounds| then None
    else if Decides(bounds[i], current, target) then Some(i)
    else FirstFrom(bounds, i + 1, current, target)
  }

  function Reverse<T>(s: seq<T>): (r: seq<T>)
    ensures |r| == |s|
  {
    if s == [] then [] else Reverse(s[1..]) + [s[0]]
  }

  lemma {:induction false} ReverseAt<T>(s: seq<T>, i: nat)
    requires i < |s|
    ensures Reverse(s)[i] == s[|s| - 1 - i]
  {
    if i < |s| - 1 {
      ReverseAt(s[1..], i);
    }
  }

  /** `skip_while`: drop the leading bands whose columns miss `x`. */
  function SkipWhileOutside(bounds: seq<Bound>, x: int): (r: seq<Bound>)
    ensures |r| <= |bounds|
  {
    if bounds == [] || bounds[0].cols.Contains(x) then bounds else SkipWhileOutside(bounds[1..], x)
  }

  /** `take_while`: keep the leading bands whose columns contain `x`. */
  function TakeWhileInside(bounds: seq<Bound>, x: int): (r: seq<Bound>)
    ensures |r| <= |bounds|
  {
    if bounds == [] || !bounds[0].cols.Contains(x) then [] else [bounds[0]] + TakeWhileInside(bounds[1..], x)
  }

  /** What is skipped misses `x`; what is left is a suffix, starting with a band containing `x`. */
  lemma {:induction false} SkipWhileOutsideSound(bounds: seq<Bound>, x: int)
    ensures var r := SkipWhileOutside(bounds, x);
      r == bounds[|bounds| - |r|..] && (r != [] ==> r[0].cols.Contains(x)) &&
      forall i :: 0 <= i < |bounds| - |r| ==> !bounds[i].cols.Contains(x)
  {
    if bounds != [] && !bounds[0].cols.Contains(x) {
      SkipWhileOutsideSound(bounds[1..], x);
      var r := SkipWhileOutside(bounds, x);
      assert bounds[1..][|bounds| - 1 - |r|..] == bounds[|bounds| - |r|..];
      forall i | 1 <= i < |bounds| - |r|
        ensures !bounds[i].cols.Contains(x)
      {
        assert bounds[i] == bounds[1..][i - 1];
      }
    }
  }

  /** What is taken is a prefix of bands containing `x`, and a non-empty one when the first band does. */
  lemma {:induction false} TakeWhileInsideSound(bounds: seq<Bound>, x: int)
    ensures var r := TakeWhileInside(bounds, x);
      r == bounds[..|r|] && (forall i :: 0 <= i < |r| ==> r[i].cols.Contains(x)) &&
      (bounds != [] && bounds[0].cols.Contains(x) ==> r != [])
  {
    if bounds != [] && bounds[0].cols.Contains(x) {
      TakeWhileInsideSound(bounds[1..], x);
    }
  }

  /** The row ranges of a run of bands. */
  function RowsOf(run: seq<Bound>): (r: seq<Range>)
    ensures |r| == |run|
  {
    if run == [] then [] else [run[0].rows] + RowsOf(run[1..])
  }

  lemma {:induction false} RowsOfAt(run: seq<Bound>, i: nat)
    requires i < |run|
    ensures RowsOf(run)[i] == run[i].rows
  {
    if i > 0 {
      RowsOfAt(run[1..], i - 1);
    }
  }

  /**
   * The row ranges of the first run of bands whose columns contain `x`:
   * `skip_while(..).take_while(..).map(|(y_b, _)| y_b)`.
   */
  function ColumnRows(bounds: seq<Bound>, x: int): seq<Range>
  {
    RowsOf(TakeWhileInside(SkipWhileOutside(bounds, x), x))
  }

  /**
   * The rows that a vertical wrap spans are rows of bands whose columns
   * contain `x`, and there are some exactly when some band's columns do.
   */
  lemma ColumnRowsSound(bounds: seq<Bound>, x: int)
    ensures (ColumnRows(bounds, x) != []) <==> exists i :: 0 <= i < |bounds| && bounds[i].cols.Contains(x)
    ensures forall i :: 0 <= i < |ColumnRows(bounds, x)| ==>
      exists j :: 0 <= j < |bounds| && bounds[j].rows == ColumnRows(bounds, x)[i] && bounds[j].cols.Contains(x)
  {
    var skipped := SkipWhileOutside(bounds, x);
    var run := TakeWhileInside(skipped, x);
    SkipWhileOutsideSound(bounds, x);
    TakeWhileInsideSound(skipped, x);
    forall i | 0 <= i < |ColumnRows(bounds, x)|
      ensures exists j :: 0 <= j < |bounds| && bounds[j].rows == ColumnRows(bounds, x)[i] && bounds[j].cols.Contains(x)
    {
      var j := |bounds| - |skipped| + i;
      RowsOfAt(run, i);
      assert run[i] == skipped[i] == bounds[j];
    }
  }

  /** The target of a flat step (`get_next_pos` before its wall test); `None` where the source panics. */
  function FlatTarget(grid: Grid, s: State): Option<Pos>
  {
    var d := PosMod(s.facing);
    var target := (s.pos.0 + d.0, s.pos.1 + d.1);
    match FirstFrom(grid.bounds, 0, s.pos, target)
    case Some(i) =>
      var b := grid.bounds[i];
      if b.cols.Contains(target.0) && b.rows.Contains(target.1) then Some(target)
      else
        var x := Wrap(target.0, [b.cols]);
        if x.None? then None else Some((x.value, target.1))
    case None =>
      if s.facing == Down || s.facing == Up then
        var rows := if s.facing == Down then ColumnRows(Reverse(grid.bounds), s.pos.0) else ColumnRows(grid.bounds, s.pos.0);
        var y := Wrap(target.1, rows);
        if y.None? then None else Some((target.0, y.value))
      else Some(target)
  }

  /** A flat step keeps its facing and fails only against a wall. */
  function FlatStep(grid: Grid, s: State): (r: Step)
    ensures r.Wall? <==> FlatTarget(grid, s).Some? && FlatTarget(grid, s).value in grid.walls
    ensures r.Moved? ==> r.next.facing == s.facing && r.next.pos !in grid.walls
  {
    match FlatTarget(grid, s)
    case None => Fail
    case Some(p) => if p in grid.walls then Wall else Moved(State(p, s.facing))
  }

  /** A step onto an open tile of the band the walker is on stays put in shape: no wrapping happens. */
  lemma FlatStepOnBoard(grid: Grid, s: State, i: nat)
    requires i < |grid.bounds|
    requires var d := PosMod(s.facing); var target := (s.pos.0 + d.0, s.pos.1 + d.1);
      FirstFrom(grid.bounds, 0, s.pos, target) == Some(i) &&
      grid.bounds[i].cols.Contains(target.0) && grid.bounds[i].rows.Contains(target.1) && target !in grid.walls
    ensures var d := PosMod(s.facing);
      FlatStep(grid, s) == Moved(State((s.pos.0 + d.0, s.pos.1 + d.1), s.facing))
  {
  }

  // ---- The cube ----

  /** The first face of the table containing `p`. */
  function FaceAt(faces: seq<(char, Rect)>, p: Pos): (r: Option<nat>)
    ensures r.Some? ==> r.value < |faces| && faces[r.value].1.IsInside(p)
    ensures r.None? ==> forall i :: 0 <= i < |faces| ==> !faces[i].1.IsInside(p)
  {
    if faces == [] then None
    else if faces[0].1.IsInside(p) then Some(0)
    else
      var rest := FaceAt(faces[1..], p);
      if rest.Some? then Some(rest.value + 1) else None
  }

  /** The first face of the table named `id`. */
  function FaceNamed(faces: seq<(char, Rect)>, id: char): (r: Option<nat>)
    ensures r.Some? ==> r.value < |faces| && faces[r.value].0 == id
    ensures r.None? ==> forall i :: 0 <= i < |faces| ==> faces[i].0 != id
  {
    if faces == [] then None
    else if faces[0].0 == id then Some(0)
    else
      var rest := FaceNamed(faces[1..], id);
      if rest.Some? then Some(rest.value + 1) else None
  }

  /** How far along the edge `prev` is, measured so that the new face's edge is walked the right way. */
  function RelativeCoord(prevFacing: Facing, nextFacing: Facing, prev: Pos, cube: Rect): int
  {
    var (relX, relY) := (prev.0 - cube.top.0, prev.1 - cube.top.1);
    match (prevFacing, nextFacing)
    case (Up, Right) => relX
    case (Up, Up) => relX
    case (Up, _) => cube.bottom.0 - prev.0
    case (Down, Left) => relX
    case (Down, Down) => relX
    case (Down, _) => cube.bottom.0 - prev.0
    case (Left, Down) => relY
    case (Left, Left) => relY
    case (Left, _) => cube.bottom.1 - prev.1
    case (Right, Up) => relY
    case (Right, Right) => relY
    case (Right, _) => cube.bottom.1 - prev.1
  }

  /** Where a walker facing `facing` enters `cube`, `rel` along the entry edge. */
  function Entry(cube: Rect, facing: Facing, rel: int): Pos
  {
    match facing
    case Down => (cube.top.0 + rel, cube.top.1)
    case Up => (cube.top.0 + rel, cube.bottom.1)
    case Left => (cube.bottom.0, cube.top.1 + rel)
    case Right => (cube.top.0, cube.top.1 + rel)
  }

  /**
   * `wrap_cube`: leave the face containing `prev` across the edge the
   * facing points at, onto the face and facing that the edge table names.
   * `None` where the source panics: no face contains `prev`, or a table
   * has no entry.
   */
  function WrapCube(grid: Grid, prev: Pos, facing: Facing): (r: Option<State>)
    ensures r.Some? ==> (FaceAt(grid.faces, prev).Some? &&
      var (id, cube) := grid.faces[FaceAt(grid.faces, prev).value];
      (id, facing) in grid.edges &&
      var (nextId, nextFacing) := grid.edges[(id, facing)];
      FaceNamed(grid.faces, nextId).Some? && r.value.facing == nextFacing &&
      r.value.pos == Entry(grid.faces[FaceNamed(grid.faces, nextId).value].1, nextFacing,
        RelativeCoord(facing, nextFacing, prev, cube)))
  {
    match FaceAt(grid.faces, prev)
    case None => None
    case Some(i) =>
      var (id, cube) := grid.faces[i];
      if (id, facing) !in grid.edges then None
      else
        var (nextId, nextFacing) := grid.edges[(id, facing)];
        var rel := RelativeCoord(facing, nextFacing, prev, cube);
        match FaceNamed(grid.faces, nextId)
        case None => None
        case Some(j) => Some(State(Entry(grid.faces[j].1, nextFacing, rel), nextFacing))
  }

  /** A square face of side `side` + 1 tiles. */
  predicate Square(r: Rect, side: int)
  {
    r.bottom.0 - r.top.0 == side && r.bottom.1 - r.top.1 == side && side >= 0
  }

  /**
   * Between square faces of one size, the walker enters the new face on the
   * edge its new facing points away from, and lands inside that face.
   */
  lemma EntryOnEdge(prevFacing: Facing, nextFacing: Facing, prev: Pos, cube: Rect, next: Rect, side: int)
    requires Square(cube, side) && Square(next, side) && cube.IsInside(prev)
    ensures var p := Entry(next, nextFacing, RelativeCoord(prevFacing, nextFacing, prev, cube));
      next.IsInside(p) &&
      (nextFacing == Down ==> p.1 == next.top.1) && (nextFacing == Up ==> p.1 == next.bottom.1) &&
      (nextFacing == Left ==> p.0 == next.bottom.0) && (nextFacing == Right ==> p.0 == next.top.0)
  {
  }

  /** The target of a cube step (`get_next_cube_pos` before its wall test). */
  function CubeTarget(grid: Grid, s: State): Option<State>
  {
    var d := PosMod(s.facing);
    var target := (s.pos.0 + d.0, s.pos.1 + d.1);
    match FirstFrom(grid.bounds, 0, s.pos, target)
    case Some(i) =>
      var b := grid.bounds[i];
      if b.cols.Contains(target.0) && b.rows.Contains(target.1) then Some(State(target, s.facing))
      else WrapCube(grid, s.pos, s.facing)
    case None => WrapCube(grid, s.pos, s.facing)
  }

  /** A cube step fails only against a wall. */
  function CubeStep(grid: Grid, s: State): (r: Step)
    ensures r.Wall? <==> CubeTarget(grid, s).Some? && CubeTarget(grid, s).value.pos in grid.walls
    ensures r.Moved? ==> r.next.pos !in grid.walls
  {
    match CubeTarget(grid, s)
    case None => Fail
    case Some(t) => if t.pos in grid.walls then Wall else Moved(t)
  }

  // ---- The two steps, as the source computes them ----

  /** `get_next_pos`, proved against `FlatStep`. */
  method NextPos(grid: Grid, current: Pos, facing: Facing) returns (r: Step)
    ensures r == FlatStep(grid, State(current, facing))
  {
    var posMod := PosMod(facing);
    var newPos := (current.0 + posMod.0, current.1 + posMod.1);
    var wrappedPos := newPos;
    var found := false;
    var i := 0;
    while i < |grid.bounds|
      invariant 0 <= i <= |grid.bounds|
      invariant FirstFrom(grid.bounds, 0, current, newPos) == FirstFrom(grid.bounds, i, current, newPos)
      invariant !found
    {
      var b := grid.bounds[i];
      if b.cols.Contains(newPos.0) && b.rows.Contains(newPos.1) {
        assert FirstFrom(grid.bounds, 0, current, newPos) == Some(i);
        wrappedPos := newPos;
        found := true;
        break;
      } else if !b.cols.Contains(newPos.0) && b.rows.Contains(current.1) {
        assert FirstFrom(grid.bounds, 0, current, newPos) == Some(i);
        var x := Wrap(newPos.0, [b.cols]);
        if x.None? {
          return Fail;
        }
        wrappedPos := (x.value, newPos.1);
        found := true;
        break;
      }
      i := i + 1;
    }
    if !found {
      assert FirstFrom(grid.bounds, 0, current, newPos).None?;
      var y := newPos.1;
      if facing == Down || facing == Up {
        var rows := if facing == Down then ColumnRows(Reverse(grid.bounds), current.0) else ColumnRows(grid.bounds, current.0);
        var w := Wrap(newPos.1, rows);
        if w.None? {
          return Fail;
        }
        y := w.value;
      }
      wrappedPos := (newPos.0, y);
    }
    r := if wrappedPos in grid.walls then Wall else Moved(State(wrappedPos, facing));
  }

  /** `get_next_cube_pos`, proved against `CubeStep`. */
  method NextCubePos(grid: Grid, current: Pos, facing: Facing) returns (r: Step)
    ensures r == CubeStep(grid, State(current, facing))
  {
    var posMod := PosMod(facing);
    var newPos := (current.0 + posMod.0, current.1 + posMod.1);
    var wrapped: Option<State> := None;
    var found := false;
    var i := 0;
    while i < |grid.bounds|
      invariant 0 <= i <= |grid.bounds|
      invariant FirstFrom(grid.bounds, 0, current, newPos) == FirstFrom(grid.bounds, i, current, newPos)
      invariant !found
    {
      var b := grid.bounds[i];
      if b.cols.Contains(newPos.0) && b.rows.Contains(newPos.1) {
        assert FirstFrom(grid.bounds, 0, current, newPos) == Some(i);
        wrapped := Some(State(newPos, facing));
        found := true;
        break;
      } else if !b.cols.Contains(newPos.0) && b.rows.Contains(current.1) {
        assert FirstFrom(grid.bounds, 0, current, newPos) == Some(i);
        wrapped := WrapCube(grid, current, facing);
        found := true;
        break;
      }
      i := i + 1;
    }
    if !found {
      assert FirstFrom(grid.bounds, 0, current, newPos).None?;
      wrapped := WrapCube(grid, current, facing);
    }
    if wrapped.None? {
      return Fail;
    }
    r := if wrapped.value.pos in grid.walls then Wall else Moved(wrapped.value);
  }

  // ---- Walking ----

  datatype Mode = Flat | Cube

  function StepOf(grid: Grid, mode: Mode, s: State): Step
  {
    match mode
    case Flat => FlatStep(grid, s)
    case Cube => CubeStep(grid, s)
  }

  /** The step of a mode, as a function of the state. */
  function Stepper(grid: Grid, mode: Mode): State -> Step
  {
    s => StepOf(grid, mode, s)
  }

  /** Up to `n` steps, stopping at the first wall; `None` once the source panics. */
  function MoveN(step: State -> Step, s: State, n: nat): Option<State>
    decreases n
  {
    if n == 0 then Some(s)
    else match step(s)
      case Fail => None
      case Wall => Some(s)
      case Moved(t) => MoveN(step, t, n - 1)
  }

  /** A step that moves leaves one step fewer to take. */
  lemma MoveOneStep(step: State -> Step, s: State, t: State, n: nat)
    requires n > 0 && step(s) == Moved(t)
    ensures MoveN(step, s, n) == MoveN(step, t, n - 1)
  {
  }

  /** Against a wall, no number of steps moves the walker. */
  lemma {:induction false} MoveStopsAtWall(step: State -> Step, s: State, n: nat)
    requires step(s) == Wall
    ensures MoveN(step, s, n) == Some(s)
  {
  }

  /** A move of `a + b` steps is a move of `a` steps followed by one of `b`. */
  lemma {:induction false} MoveSplit(step: State -> Step, s: State, a: nat, b: nat)
    ensures MoveN(step, s, a + b) ==
      match MoveN(step, s, a)
      case None => None
      case Some(t) => MoveN(step, t, b)
    decreases a
  {
    if a > 0 {
      match step(s)
      case Fail =>
      case Wall =>
        MoveStopsAtWall(step, s, a + b);
        MoveStopsAtWall(step, s, b);
      case Moved(t) =>
        MoveSplit(step, t, a - 1, b);
        assert a + b - 1 == (a - 1) + b;
    }
  }

  /** The walk over a list of directions. */
  function Walk(step: State -> Step, s: State, directions: seq<Direction>): Option<State>
    decreases |directions|
  {
    if directions == [] then Some(s)
    else match directions[0]
      case TurnTo(right) => Walk(step, State(s.pos, Turn(s.facing, right)), directions[1..])
      case Move(n) =>
        match MoveN(step, s, n)
        case None => None
        case Some(t) => Walk(step, t, directions[1..])
  }

  /** The walk from a state is the walk of a prefix of the directions, then of the rest. */
  lemma {:induction false} WalkSplit(step: State -> Step, s: State, front: seq<Direction>, back: seq<Direction>)
    ensures Walk(step, s, front + back) ==
      match Walk(step, s, front)
      case None => None
      case Some(t) => Walk(step, t, back)
    decreases |front|
  {
    if front != [] {
      assert (front + back)[1..] == front[1..] + back;
      match front[0]
      case TurnTo(right) =>
        WalkSplit(step, State(s.pos, Turn(s.facing, right)), front[1..], back);
      case Move(n) =>
        if MoveN(step, s, n).Some? {
          WalkSplit(step, MoveN(step, s, n).value, front[1..], back);
        }
    } else {
      assert front + back == back;
    }
  }

  /** One step as the source computes it for the mode. */
  method Advance(grid: Grid, mode: Mode, s: State) returns (r: Step)
    ensures r == Stepper(grid, mode)(s)
  {
    if mode == Flat {
      r := NextPos(grid, s.pos, s.facing);
    } else {
      r := NextCubePos(grid, s.pos, s.facing);
    }
  }

  /** One step of a move with `remaining` steps to go, and what it leaves of the move. */
  method MoveStep(grid: Grid, mode: Mode, current: State, remaining: nat) returns (step: Step)
    requires remaining > 0
    ensures step.Fail? ==> MoveN(Stepper(grid, mode), current, remaining).None?
    ensures step.Wall? ==> MoveN(Stepper(grid, mode), current, remaining) == Some(current)
    ensures step.Moved? ==> MoveN(Stepper(grid, mode), current, remaining) == MoveN(Stepper(grid, mode), step.next, remaining - 1)
  {
    step := Advance(grid, mode, current);
    if step.Wall? {
      MoveStopsAtWall(Stepper(grid, mode), current, remaining);
    } else if step.Moved? {
      MoveOneStep(Stepper(grid, mode), current, step.next, remaining);
    }
  }

  /** The inner `for _ in 0..n` loop, leaving at the first wall. */
  method MoveSteps(grid: Grid, mode: Mode, s: State, n: nat) returns (r: Option<State>)
    ensures r == MoveN(Stepper(grid, mode), s, n)
  {
    var current := s;
    var k := 0;
    while k < n
      invariant 0 <= k <= n
      invariant MoveN(Stepper(grid, mode), current, n - k) == MoveN(Stepper(grid, mode), s, n)
    {
      var step := MoveStep(grid, mode, current, n - k);
      if step.Fail? {
        return None;
      } else if step.Wall? {
        break;
      }
      current := step.next;
      k := k + 1;
    }
    r := Some(current);
  }

  /** The outer loop of `part1`/`part2`. */
  method Travel(grid: Grid, mode: Mode) returns (r: Option<State>)
    ensures r == Walk(Stepper(grid, mode), State(grid.start, Right), grid.directions)
  {
    var state := State(grid.start, Right);
    for i := 0 to |grid.directions|
      invariant Walk(Stepper(grid, mode), state, grid.directions[i..]) == Walk(Stepper(grid, mode), State(grid.start, Right), grid.directions)
    {
      assert grid.directions[i..][1..] == grid.directions[i + 1..];
      match grid.directions[i] {
        case TurnTo(right) =>
          state := State(state.pos, Turn(state.facing, right));
        case Move(n) =>
          var moved := MoveSteps(grid, mode, state, n);
          if moved.None? {
            return None;
          }
          state := moved.value;
      }
    }
    r := Some(state);
  }

  /** The password of a final state. */
  function Password(s: State): int
  {
    1000 * (s.pos.1 + 1) + 4 * (s.pos.0 + 1) + Value(s.facing)
  }

  /** On a board narrower than 249 columns, the password gives back row, column and facing. */
  lemma PasswordDecodes(s: State)
    requires 0 <= s.pos.0 < 249
    ensures Password(s) / 1000 == s.pos.1 + 1
    ensures (Password(s) % 1000) / 4 == s.pos.0 + 1 && Password(s) % 4 == Value(s.facing)
  {
    var low := 4 * (s.pos.0 + 1) + Value(s.facing);
    RustInt.ModUnique(Password(s), 1000, s.pos.1 + 1, low);
    RustInt.ModUnique(low, 4, s.pos.0 + 1, Value(s.facing));
    RustInt.ModUnique(Password(s), 4, 250 * (s.pos.1 + 1) + s.pos.0 + 1, Value(s.facing));
  }

  lemma PasswordInjective(s: State, t: State)
    requires 0 <= s.pos.0 < 249 && 0 <= t.pos.0 < 249 && Password(s) == Password(t)
    ensures s == t
  {
    PasswordDecodes(s);
    PasswordDecodes(t);
    assert Value(s.facing) == Value(t.facing);
  }

  /** `part1`: walk the flat board. */
  method Part1(grid: Grid) returns (r: Option<int>)
    ensures r.Some? <==> Walk(Stepper(grid, Flat), State(grid.start, Right), grid.directions).Some?
    ensures r.Some? ==> r.value == Password(Walk(Stepper(grid, Flat), State(grid.start, Right), grid.directions).value)
  {
    var last := Travel(grid, Flat);
    r := if last.Some? then Some(Password(last.value)) else None;
  }

  /** `part2`: walk the folded cube. */
  method Part2(grid: Grid) returns (r: Option<int>)
    ensures r.Some? <==> Walk(Stepper(grid, Cube), State(grid.start, Right), grid.directions).Some?
    ensures r.Some? ==> r.value == Password(Walk(Stepper(grid, Cube), State(grid.start, Right), grid.directions).value)
  {
    var last := Travel(grid, Cube);
    r := if last.Some? then Some(Password(last.value)) else None;
  }

  // ---- The constant tables ----

  /** `EDGES`: (old face, old facing) to (new face, new facing), for the fold of the puzzle input. */
  const Edges: map<(char, Facing), (char, Facing)> := map[
    ('A', Up) := ('F', Right),
    ('A', Left) := ('E', Right),
    ('B', Up) := ('F', Up),
    ('B', Down) := ('C', Left),
    ('B', Right) := ('D', Left),
    ('C', Left) := ('E', Down),
    ('C', Right) := ('B', Up),
    ('D', Right) := ('B', Left),
    ('D', Down) := ('F', Left),
    ('E', Up) := ('C', Right),
    ('E', Left) := ('A', Right),
    ('F', Down) := ('B', Down),
    ('F', Right) := ('D', Up),
    ('F', Left) := ('A', Down)]

  /** `RANGES`: the faces of the puzzle input, 50 tiles a side. */
  const Ranges: seq<(char, Rect)> := [
    ('A', NewRect(50, 0, 100, 50)),
    ('B', NewRect(100, 0, 150, 50)),
    ('C', NewRect(50, 50, 100, 100)),
    ('E', NewRect(0, 100, 50, 150)),
    ('D', NewRect(50, 100, 100, 150)),
    ('F', NewRect(0, 150, 50, 200))]

  /** `RANGES_EXAMPLE`: the same fold, 4 tiles a side. */
  const RangesExample: seq<(char, Rect)> := [
    ('A', NewRect(4, 0, 8, 4)),
    ('B', NewRect(8, 0, 12, 4)),
    ('C', NewRect(4, 4, 8, 8)),
    ('E', NewRect(0, 8, 4, 12)),
    ('D', NewRect(4, 8, 8, 12)),
    ('F', NewRect(0, 12, 4, 16))]

  /** One rectangle lies wholly left of, right of, above or below the other. */
  predicate Separated(a: Rect, b: Rect)
  {
    a.bottom.0 < b.top.0 || b.bottom.0 < a.top.0 || a.bottom.1 < b.top.1 || b.bottom.1 < a.top.1
  }

  lemma SeparatedDisjoint(a: Rect, b: Rect, p: Pos)
    requires Separated(a, b) && a.IsInside(p)
    ensures !b.IsInside(p)
  {
  }

  /** The faces every edge of the table mentions, both ends. */
  predicate EdgesNamed(faces: seq<(char, Rect)>, edges: map<(char, Facing), (char, Facing)>)
  {
    forall e :: e in edges ==> FaceNamed(faces, e.0).Some? && FaceNamed(faces, edges[e].0).Some?
  }

  /** Square faces of one size, pairwise separated, distinctly named, and naming every face the edges lead to. */
  predicate TablesSound(faces: seq<(char, Rect)>, edges: map<(char, Facing), (char, Facing)>, side: int)
  {
    SquareFaces(faces, side) && DistinctNames(faces) && SeparatedFaces(faces) && EdgesNamed(faces, edges)
  }

  predicate SquareFaces(faces: seq<(char, Rect)>, side: int)
  {
    forall i :: 0 <= i < |faces| ==> Square(faces[i].1, side)
  }

  predicate DistinctNames(faces: seq<(char, Rect)>)
  {
    forall i, j :: 0 <= i < j < |faces| ==> faces[i].0 != faces[j].0
  }

  predicate SeparatedFaces(faces: seq<(char, Rect)>)
  {
    forall i, j :: 0 <= i < j < |faces| ==> Separated(faces[i].1, faces[j].1)
  }

  /** Every name the edge table uses is one of the six faces. */
  lemma EdgesUseSixFaces()
    ensures forall e :: e in Edges ==> e.0 in "ABCDEF" && Edges[e].0 in "ABCDEF"
  {
    EdgesLeaveSixFaces();
    EdgesEnterSixFaces();
  }

  lemma EdgesLeaveSixFaces()
    ensures forall e :: e in Edges ==> e.0 in "ABCDEF"
  {
  }

  lemma EdgesEnterSixFaces()
    ensures forall e :: e in Edges.Values ==> e.0 in "ABCDEF"
  {
  }

  /** A table listing the six faces in the order of `RANGES` names each of them. */
  lemma SixFacesNamed(faces: seq<(char, Rect)>)
    requires |faces| == 6 && faces[0].0 == 'A' && faces[1].0 == 'B' && faces[2].0 == 'C'
    requires faces[3].0 == 'E' && faces[4].0 == 'D' && faces[5].0 == 'F'
    ensures forall c :: c in "ABCDEF" ==> FaceNamed(faces, c).Some?
  {
    assert faces[1..][1..] == faces[2..] && faces[2..][1..] == faces[3..];
    assert faces[3..][1..] == faces[4..] && faces[4..][1..] == faces[5..];
    assert FaceNamed(faces[5..], 'F') == Some(0);
    assert FaceNamed(faces[4..], 'D') == Some(0);
    assert FaceNamed(faces[3..], 'E') == Some(0);
    assert FaceNamed(faces[2..], 'C') == Some(0);
    assert FaceNamed(faces[1..], 'B') == Some(0);
  }

  /** The edge table only names faces of a table listing the six faces. */
  lemma SixFacesEdgesNamed(faces: seq<(char, Rect)>)
    requires forall c :: c in "ABCDEF" ==> FaceNamed(faces, c).Some?
    ensures EdgesNamed(faces, Edges)
  {
    EdgesUseSixFaces();
  }

  lemma InputTablesSound()
    ensures TablesSound(Ranges, Edges, 49)
  {
    assert SquareFaces(Ranges, 49);
    assert DistinctNames(Ranges);
    assert SeparatedFaces(Ranges);
    SixFacesNamed(Ranges);
    SixFacesEdgesNamed(Ranges);
  }

  lemma ExampleTablesSound()
    ensures TablesSound(RangesExample, Edges, 3)
  {
    assert SquareFaces(RangesExample, 3);
    assert DistinctNames(RangesExample);
    assert SeparatedFaces(RangesExample);
    SixFacesNamed(RangesExample);
    SixFacesEdgesNamed(RangesExample);
  }

  /**
   * With sound tables, leaving a face across an edge of the table lands
   * inside the face that the table names, on its entry edge.
   */
  lemma WrapCubeLands(grid: Grid, prev: Pos, facing: Facing, side: int)
    requires TablesSound(grid.faces, grid.edges, side)
    requires FaceAt(grid.faces, prev).Some? && (grid.faces[FaceAt(grid.faces, prev).value].0, facing) in grid.edges
    ensures WrapCube(grid, prev, facing).Some?
    ensures var next := grid.edges[(grid.faces[FaceAt(grid.faces, prev).value].0, facing)];
      var r := WrapCube(grid, prev, facing).value;
      r.facing == next.1 && grid.faces[FaceNamed(grid.faces, next.0).value].1.IsInside(r.pos)
  {
    var i := FaceAt(grid.faces, prev).value;
    var (id, cube) := grid.faces[i];
    var (nextId, nextFacing) := grid.edges[(id, facing)];
    var j := FaceNamed(grid.faces, nextId).value;
    EntryOnEdge(facing, nextFacing, prev, cube, grid.faces[j].1, side);
  }
}
