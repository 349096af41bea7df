/**
 * Day 9 (src/days/day9.rs): a rope of knots dragged by its head; the answer
 * is the number of positions the last knot visits.
 *
 * `Rope` keeps the knot positions, head first; the set of visited positions
 * is passed in and handed back, as the `&mut FxHashSet` of the source is.
 */
module Day09 {
  import opened Wrappers
  import Text

  type Pos = (int, int)

  /** One line of the input: `count` unit steps in direction `coords`. */
  datatype Move = Move(count: nat, coords: Pos)

  function Abs(n: int): nat
  {
    if n < 0 then -n else n
  }

  /** `i32::signum`. */
  function Sign(n: int): int
  {
    if n > 0 then 1 else if n < 0 then -1 else 0
  }

  /** The Chebyshev distance: knots within 1 of each other touch. */
  function Cheb(a: Pos, b: Pos): nat
  {
    var dx := Abs(a.0 - b.0);
    var dy := Abs(a.1 - b.1);
    if dx > dy then dx else dy
  }

  /**
   * The callback of `check_tail`: a knot more than 1 away on some axis from
   * the knot before it moves one step towards it on each axis.
   */
  function Follow(head: Pos, tail: Pos): Pos
  {
    var dx := head.0 - tail.0;
    var dy := head.1 - tail.1;
    if Abs(dx) > 1 || Abs(dy) > 1 then (tail.0 + Sign(dx), tail.1 + Sign(dy)) else tail
  }

  /** A knot stays put exactly when it touches the knot before it. */
  lemma FollowMovesIffApart(head: Pos, tail: Pos)
    ensures Follow(head, tail) == tail <==> Cheb(head, tail) <= 1
  {
  }

  /**
   * A knot at most 2 away is pulled back to touch the knot before it, and
   * moves at most one step on each axis doing so.
   */
  lemma FollowCloses(head: Pos, tail: Pos)
    requires Cheb(head, tail) <= 2
    ensures Cheb(head, Follow(head, tail)) <= 1
    ensures Cheb(tail, Follow(head, tail)) <= 1
  {
  }

  /** The windows from `a` on, each knot following the (already moved) knot before it. */
  function Settle(p: seq<Pos>, a: nat): (r: seq<Pos>)
    ensures |r| == |p|
    ensures forall i :: 0 <= i <= a && i < |p| ==> r[i] == p[i]
    decreases |p| - a
  {
    if a + 2 > |p| then p else Settle(p[a + 1 := Follow(p[a], p[a + 1])], a + 1)
  }

  /** The visited set after `check_tail`: the last knot's new position, if it moved. */
  function Visits(p: seq<Pos>, visited: set<Pos>): set<Pos>
  {
    var r := Settle(p, 0);
    if |p| >= 2 && r[|p| - 1] != p[|p| - 1] then visited + {r[|p| - 1]} else visited
  }

  /** Knots touch pairwise. */
  predicate Tight(p: seq<Pos>)
  {
    forall i :: 0 <= i < |p| - 1 ==> Cheb(p[i], p[i + 1]) <= 1
  }

  lemma ChebTriangle(a: Pos, b: Pos, c: Pos)
    ensures Cheb(a, c) <= Cheb(a, b) + Cheb(b, c)
  {
  }

  /**
   * If the rope touches from knot `a + 1` on and knot `a` is at most 2 from
   * knot `a + 1`, settling from `a` leaves the rope touching from `a` on.
   */
  lemma {:induction false} SettleTightens(p: seq<Pos>, a: nat)
    requires a + 1 < |p|
    requires Cheb(p[a], p[a + 1]) <= 2
    requires forall i :: a + 1 <= i < |p| - 1 ==> Cheb(p[i], p[i + 1]) <= 1
    ensures forall i :: a <= i < |p| - 1 ==> Cheb(Settle(p, a)[i], Settle(p, a)[i + 1]) <= 1
    decreases |p| - a
  {
    var q := p[a + 1 := Follow(p[a], p[a + 1])];
    FollowCloses(p[a], p[a + 1]);
    if a + 2 < |p| {
      ChebTriangle(q[a + 1], p[a + 1], p[a + 2]);
      SettleTightens(q, a + 1);
    }
  }

  /** After a head step of at most 1, the whole rope touches again. */
  lemma StepKeepsTight(p: seq<Pos>, delta: Pos)
    requires |p| >= 1 && Tight(p) && Cheb(delta, (0, 0)) <= 1
    ensures Tight(Settle(p[0 := (p[0].0 + delta.0, p[0].1 + delta.1)], 0))
  {
    var q := p[0 := (p[0].0 + delta.0, p[0].1 + delta.1)];
    if |p| >= 2 {
      ChebTriangle(q[0], p[0], p[1]);
      SettleTightens(q, 0);
    }
  }

  function Zeros(n: nat): (r: seq<Pos>)
    ensures |r| == n && forall i :: 0 <= i < n ==> r[i] == (0, 0)
  {
    if n == 0 then [] else Zeros(n - 1) + [(0, 0)]
  }

  class Rope {
    var parts: seq<Pos>

    /** `Rope::new`: every knot at the origin. */
    constructor(partCount: nat)
      ensures parts == Zeros(partCount)
    {
      parts := Zeros(partCount);
    }

    /**
     * `check_tail` with `for_each_window_mut(2, ..)`: the windows `[a, a + 2)`
     * for `a = 0 .. len - 2` in order, only the last one flagged as the tail.
     */
    method CheckTail(visited: set<Pos>) returns (visited': set<Pos>)
      modifies this
      ensures parts == Settle(old(parts), 0)
      ensures visited' == Visits(old(parts), visited)
    {
      var a, b := 0, 2;
      var last := |parts|;
      visited' := visited;
      while b <= |parts|
        invariant b == a + 2 && |parts| == last
        invariant Settle(old(parts), 0) == Settle(parts, a)
        invariant forall i :: a + 1 <= i < last ==> parts[i] == old(parts)[i]
        invariant b <= last ==> visited' == visited
        invariant b > last ==> visited' == Visits(old(parts), visited)
        decreases last - a
      {
        var head, tail := parts[a], parts[a + 1];
        var dx := head.0 - tail.0;
        var dy := head.1 - tail.1;
        assert Settle(parts, a) == Settle(parts[a + 1 := Follow(head, tail)], a + 1);
        if !(Abs(dx) > 1 || Abs(dy) > 1) {
          assert parts[a + 1 := Follow(head, tail)] == parts;
        }
        if Abs(dx) > 1 || Abs(dy) > 1 {
          parts := parts[a + 1 := (tail.0 + Sign(dx), tail.1 + Sign(dy))];
          if b == last {
            visited' := visited' + {parts[a + 1]};
          }
        }
        a, b := a + 1, b + 1;
      }
    }

    /** `do_move`: the head takes the step, the other knots follow. */
    method DoMove(delta: Pos, visited: set<Pos>) returns (visited': set<Pos>)
      requires |parts| >= 1
      modifies this
      ensures var moved := old(parts)[0 := (old(parts)[0].0 + delta.0, old(parts)[0].1 + delta.1)];
        parts == Settle(moved, 0) && visited' == Visits(moved, visited)
    {
      parts := parts[0 := (parts[0].0 + delta.0, parts[0].1 + delta.1)];
      visited' := CheckTail(visited);
    }
  }

  /** The state after one step of the head. */
  function Step(p: seq<Pos>, visited: set<Pos>, delta: Pos): (seq<Pos>, set<Pos>)
    requires |p| >= 1
  {
    var moved := p[0 := (p[0].0 + delta.0, p[0].1 + delta.1)];
    (Settle(moved, 0), Visits(moved, visited))
  }

  /** `count` steps in one direction. */
  function Repeat(p: seq<Pos>, visited: set<Pos>, delta: Pos, count: nat): (r: (seq<Pos>, set<Pos>))
    requires |p| >= 1
    ensures |r.0| == |p|
    decreases count
  {
    if count == 0 then (p, visited)
    else
      var s := Step(p, visited, delta);
      Repeat(s.0, s.1, delta, count - 1)
  }

  /** All the moves. */
  function RunMoves(p: seq<Pos>, visited: set<Pos>, moves: seq<Move>): (r: (seq<Pos>, set<Pos>))
    requires |p| >= 1
    ensures |r.0| == |p|
    decreases |moves|
  {
    if moves == [] then (p, visited)
    else
      var s := Repeat(p, visited, moves[0].coords, moves[0].count);
      RunMoves(s.0, s.1, moves[1..])
  }

  /** A unit step: `U`, `D`, `L` or `R`. */
  predicate UnitMoves(moves: seq<Move>)
  {
    forall i :: 0 <= i < |moves| ==> Cheb(moves[i].coords, (0, 0)) <= 1
  }

  /** What a rope run keeps: the rope touches, nothing is forgotten, the tail is always in the set. */
  predicate Good(p: seq<Pos>, visited: set<Pos>)
  {
    |p| >= 2 && Tight(p) && (0, 0) in visited && p[|p| - 1] in visited
  }

  lemma StepKeepsGood(p: seq<Pos>, visited: set<Pos>, delta: Pos)
    requires Good(p, visited) && Cheb(delta, (0, 0)) <= 1
    ensures Good(Step(p, visited, delta).0, Step(p, visited, delta).1)
    ensures visited <= Step(p, visited, delta).1
  {
    StepKeepsTight(p, delta);
  }

  lemma {:induction false} RepeatKeepsGood(p: seq<Pos>, visited: set<Pos>, delta: Pos, count: nat)
    requires Good(p, visited) && Cheb(delta, (0, 0)) <= 1
    ensures Good(Repeat(p, visited, delta, count).0, Repeat(p, visited, delta, count).1)
    ensures visited <= Repeat(p, visited, delta, count).1
    decreases count
  {
    if count > 0 {
      var s := Step(p, visited, delta);
      StepKeepsGood(p, visited, delta);
      RepeatKeepsGood(s.0, s.1, delta, count - 1);
    }
  }

  /**
   * Over a whole run of unit moves the rope keeps touching, the origin stays
   * visited and the last knot's position is always in the visited set.
   */
  lemma {:induction false} RunKeepsGood(p: seq<Pos>, visited: set<Pos>, moves: seq<Move>)
    requires Good(p, visited) && UnitMoves(moves)
    ensures Good(RunMoves(p, visited, moves).0, RunMoves(p, visited, moves).1)
    ensures visited <= RunMoves(p, visited, moves).1
    decreases |moves|
  {
    if moves != [] {
      var s := Repeat(p, visited, moves[0].coords, moves[0].count);
      RepeatKeepsGood(p, visited, moves[0].coords, moves[0].count);
      RunKeepsGood(s.0, s.1, moves[1..]);
    }
  }

  /** The start of both parts is good: all knots at the origin, which is visited. */
  lemma StartIsGood(knots: nat)
    requires knots >= 2
    ensures Good(Zeros(knots), {(0, 0)})
  {
  }

  /** The direction letter of a line: U, D, L and R are unit steps; any other word panics. */
  function ParseDirection(d: string): (r: Option<Pos>)
    ensures r.Some? <==> d == "U" || d == "D" || d == "L" || d == "R"
    ensures r.Some? ==> Cheb(r.value, (0, 0)) == 1
    ensures d == "U" ==> r == Some((0, 1))
    ensures d == "R" ==> r == Some((1, 0))
  {
    if d == "U" then Some((0, 1))
    else if d == "D" then Some((0, -1))
    else if d == "L" then Some((-1, 0))
    else if d == "R" then Some((1, 0))
    else None
  }

  /** One line: a direction and a step count; a missing word or a bad count makes `unwrap` panic. */
  function ParseLine(line: string): (r: Option<Move>)
    ensures var words := Text.Words(line);
      r.Some? <==> |words| >= 2 && ParseDirection(words[0]).Some? && Text.ParseUsize(words[1]).Some?
    ensures r.Some? ==> Cheb(r.value.coords, (0, 0)) == 1
    ensures r.Some? ==> r.value.count == Text.ParseUsize(Text.Words(line)[1]).value
  {
    var words := Text.Words(line);
    if |words| < 2 then None
    else
      var dir, count := ParseDirection(words[0]), Text.ParseUsize(words[1]);
      if dir.None? || count.None? then None else Some(Move(count.value, dir.value))
  }

  /** `parse`: one move per line. */
  function ParseLines(lines: seq<string>): (r: Option<seq<Move>>)
    ensures r.Some? <==> forall i :: 0 <= i < |lines| ==> ParseLine(lines[i]).Some?
    ensures r.Some? ==> |r.value| == |lines| && forall i :: 0 <= i < |lines| ==> Some(r.value[i]) == ParseLine(lines[i])
  {
    if lines == [] then Some([])
    else
      var first, rest := ParseLine(lines[0]), ParseLines(lines[1..]);
      assert forall i :: 1 <= i < |lines| ==> lines[i] == lines[1..][i - 1];
      if first.Some? && rest.Some? then Some([first.value] + rest.value) else None
  }

  /** Parsed moves are unit steps, as the rope lemmas need. */
  lemma ParsedMovesAreUnit(lines: seq<string>)
    requires ParseLines(lines).Some?
    ensures UnitMoves(ParseLines(lines).value)
  {
    var ms := ParseLines(lines).value;
    forall i | 0 <= i < |ms| ensures Cheb(ms[i].coords, (0, 0)) <= 1 {
      assert Some(ms[i]) == ParseLine(lines[i]);
    }
  }

  /** `part1` and `part2`: run a rope of `knots` knots; count the visited positions. */
  method Simulate(moves: seq<Move>, knots: nat) returns (n: nat)
    requires knots >= 1
    ensures n == |RunMoves(Zeros(knots), {(0, 0)}, moves).1|
  {
    var rope := new Rope(knots);
    var visited := {(0, 0)};
    for i := 0 to |moves|
      invariant |rope.parts| == knots
      invariant RunMoves(Zeros(knots), {(0, 0)}, moves) == RunMoves(rope.parts, visited, moves[i..])
    {
      var mov := moves[i];
      ghost var rest := moves[i + 1..];
      assert moves[i..][1..] == rest;
      visited := RepeatMove(rope, visited, mov);
    }
    n := |visited|;
  }

  /** The inner loop of `part1`/`part2`: `count` head steps in one direction. */
  method RepeatMove(rope: Rope, visited: set<Pos>, mov: Move) returns (visited': set<Pos>)
    requires |rope.parts| >= 1
    modifies rope
    ensures (rope.parts, visited') == Repeat(old(rope.parts), visited, mov.coords, mov.count)
  {
    visited' := visited;
    for j := 0 to mov.count
      invariant |rope.parts| == |old(rope.parts)|
      invariant Repeat(old(rope.parts), visited, mov.coords, mov.count)
        == Repeat(rope.parts, visited', mov.coords, mov.count - j)
    {
      visited' := rope.DoMove(mov.coords, visited');
    }
  }

  method Part1(moves: seq<Move>) returns (n: nat)
    ensures n == |RunMoves(Zeros(2), {(0, 0)}, moves).1|
  {
    n := Simulate(moves, 2);
  }

  method Part2(moves: seq<Move>) returns (n: nat)
    ensures n == |RunMoves(Zeros(10), {(0, 0)}, moves).1|
  {
    n := Simulate(moves, 10);
  }

  /** The counted set always holds the origin, so both answers are at least 1. */
  lemma AnswerAtLeastOne(moves: seq<Move>, knots: nat)
    requires knots >= 2 && UnitMoves(moves)
    ensures |RunMoves(Zeros(knots), {(0, 0)}, moves).1| >= 1
  {
    StartIsGood(knots);
    RunKeepsGood(Zeros(knots), {(0, 0)}, moves);
    var v := RunMoves(Zeros(knots), {(0, 0)}, moves).1;
    assert (0, 0) in v;
  }
}
