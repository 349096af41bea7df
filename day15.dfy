/**
 * Day 15 (src/days/day15.rs): sensors that each know the Manhattan distance
 * to their closest beacon. Part 1 counts the positions of one row that a
 * sensor rules out; part 2 walks the ring just outside each sensor's range
 * for the one position no sensor covers.
 *
 * The regex parser is not modelled: `Parse` takes the four numbers of each
 * line, already read.
 */
module Day15 {
  import opened Wrappers

  type Pos = (int, int)

  /** `Sensor`: its position, its closest beacon and the distance between them. */
  datatype Sensor = Sensor(coords: Pos, closestBeacon: Pos, closestDist: nat)

  /** `Space`: the sensors and the least and greatest x of any sensor or beacon. */
  datatype Space = Space(sensors: seq<Sensor>, xBounds: (int, int))

  const IsizeMax: int := 0x7fff_ffff_ffff_ffff
  const IsizeMin: int := -0x8000_0000_0000_0000

  function AbsDiff(a: int, b: int): nat
  {
    if a < b then b - a else a - b
  }

  function Abs(a: int): nat
  {
    if a < 0 then -a else a
  }

  function Min(a: int, b: int): int
  {
    if a < b then a else b
  }

  function Max(a: int, b: int): int
  {
    if a < b then b else a
  }

  /** The Manhattan distance. */
  function Dist(p: Pos, q: Pos): nat
  {
    AbsDiff(p.0, q.0) + AbsDiff(p.1, q.1)
  }

  /** `dist_to`: the Manhattan distance from the sensor. */
  function DistTo(s: Sensor, point: Pos): nat
  {
    Dist(s.coords, point)
  }

  /** The Manhattan distance is a metric: symmetric, zero only on the point itself, and with the triangle inequality. */
  lemma DistMetric(p: Pos, q: Pos, r: Pos)
    ensures Dist(p, q) == Dist(q, p)
    ensures Dist(p, q) == 0 <==> p == q
    ensures Dist(p, r) <= Dist(p, q) + Dist(q, r)
  {
  }

  // ---- Parsing ----

  /** One line of input, with `closest_dist` set to the distance to the beacon. */
  function MakeSensor(coords: Pos, beacon: Pos): (s: Sensor)
    ensures s.coords == coords && s.closestBeacon == beacon
    ensures s.closestDist == DistTo(s, beacon)
  {
    var s := Sensor(coords, beacon, 0);
    s.(closestDist := DistTo(s, beacon))
  }

  /** The running x bounds of `parse`, from `(isize::MAX, isize::MIN)`. */
  function XBounds(readings: seq<(Pos, Pos)>): (int, int)
  {
    if readings == [] then (IsizeMax, IsizeMin)
    else
      var b := XBounds(readings[..|readings| - 1]);
      var (coords, beacon) := readings[|readings| - 1];
      (Min(Min(b.0, coords.0), beacon.0), Max(Max(b.1, coords.0), beacon.0))
  }

  /** `parse`, after the regex: one sensor per reading, in order, and the bounds. */
  function Parse(readings: seq<(Pos, Pos)>): (r: Space)
    ensures |r.sensors| == |readings|
    ensures forall i :: 0 <= i < |readings| ==>
      r.sensors[i].coords == readings[i].0 && r.sensors[i].closestBeacon == readings[i].1
    ensures WellFormed(r)
  {
    BoundsContain(readings);
    Space(seq(|readings|, i requires 0 <= i < |readings| => MakeSensor(readings[i].0, readings[i].1)), XBounds(readings))
  }

  /** Every sensor knows its distance to its beacon, and both lie between the x bounds. */
  predicate WellFormed(space: Space)
  {
    forall i :: 0 <= i < |space.sensors| ==>
      var s := space.sensors[i];
      s.closestDist == DistTo(s, s.closestBeacon)
      && space.xBounds.0 <= s.coords.0 <= space.xBounds.1
      && space.xBounds.0 <= s.closestBeacon.0 <= space.xBounds.1
  }

  lemma {:induction false} BoundsContain(readings: seq<(Pos, Pos)>)
    ensures var b := XBounds(readings);
      forall i :: 0 <= i < |readings| ==>
        b.0 <= readings[i].0.0 <= b.1 && b.0 <= readings[i].1.0 <= b.1
  {
    if readings != [] {
      var init := readings[..|readings| - 1];
      assert forall i :: 0 <= i < |init| ==> init[i] == readings[i];
      BoundsContain(init);
    }
  }

  // ---- Part 1 ----

  /** Some sensor rules `p` out: it is within that sensor's range and is not that sensor's beacon. */
  predicate Covered(sensors: seq<Sensor>, p: Pos)
  {
    exists i :: 0 <= i < |sensors| && p != sensors[i].closestBeacon && sensors[i].closestDist >= DistTo(sensors[i], p)
  }

  /** The row part 1 looks at: 10 for the example, 2000000 for the puzzle. */
  function Row(space: Space): int
  {
    if Abs(space.xBounds.0) < 100 then 10 else 2_000_000
  }

  /** `max()` of the distances to the beacons. */
  function MaxDist(sensors: seq<Sensor>): (r: nat)
    requires sensors != []
    ensures forall i :: 0 <= i < |sensors| ==> DistTo(sensors[i], sensors[i].closestBeacon) <= r
    ensures exists i :: 0 <= i < |sensors| && DistTo(sensors[i], sensors[i].closestBeacon) == r
  {
    var last := DistTo(sensors[|sensors| - 1], sensors[|sensors| - 1].closestBeacon);
    if |sensors| == 1 then last
    else
      var m := MaxDist(sensors[..|sensors| - 1]);
      assert forall i :: 0 <= i < |sensors| - 1 ==> sensors[..|sensors| - 1][i] == sensors[i];
      if m < last then last else m
  }

  /** The ruled-out x positions of row `y` from `lo` to `hi`. */
  function CoveredRow(sensors: seq<Sensor>, y: int, lo: int, hi: int): set<int>
  {
    set x | lo <= x <= hi && Covered(sensors, (x, y))
  }

  /** `filter(..).count()` over `lo..=hi`. */
  function CountRow(sensors: seq<Sensor>, y: int, lo: int, hi: int): (r: nat)
    ensures r == |CoveredRow(sensors, y, lo, hi)|
    decreases hi - lo
  {
    if hi < lo then
      assert CoveredRow(sensors, y, lo, hi) == {};
      0
    else
      var n := CountRow(sensors, y, lo, hi - 1);
      if Covered(sensors, (hi, y)) then
        assert CoveredRow(sensors, y, lo, hi) == CoveredRow(sensors, y, lo, hi - 1) + {hi};
        n + 1
      else
        assert CoveredRow(sensors, y, lo, hi) == CoveredRow(sensors, y, lo, hi - 1);
        n
  }

  /**
   * `part1`: the number of ruled-out positions of the row, among the x from
   * `min_x - max_dist` to `max_x + max_dist`. `None` without sensors, where
   * `max().unwrap()` panics.
   */
  function Part1(space: Space): (r: Option<nat>)
    ensures r.Some? <==> space.sensors != []
    ensures r.Some? ==>
      var d := MaxDist(space.sensors);
      r.value == |CoveredRow(space.sensors, Row(space), space.xBounds.0 - d, space.xBounds.1 + d)|
  {
    if space.sensors == [] then None
    else
      var d := MaxDist(space.sensors);
      Some(CountRow(space.sensors, Row(space), space.xBounds.0 - d, space.xBounds.1 + d))
  }

  /**
   * The range part 1 scans is wide enough: every ruled-out position of any
   * row lies in it, so part 1 counts all of them.
   */
  lemma Part1CountsAll(space: Space, p: Pos)
    requires WellFormed(space) && space.sensors != [] && Covered(space.sensors, p)
    ensures space.xBounds.0 - MaxDist(space.sensors) <= p.0 <= space.xBounds.1 + MaxDist(space.sensors)
  {
    var i :| 0 <= i < |space.sensors| && p != space.sensors[i].closestBeacon
      && space.sensors[i].closestDist >= DistTo(space.sensors[i], p);
    assert DistTo(space.sensors[i], space.sensors[i].closestBeacon) <= MaxDist(space.sensors);
  }

  // ---- Part 2 ----

  /** No sensor's range reaches `p`: the predicate part 2 hands to `any_border`. */
  predicate Undetected(sensors: seq<Sensor>, p: Pos)
  {
    forall i :: 0 <= i < |sensors| ==> sensors[i].closestDist < DistTo(sensors[i], p)
  }

  /** An undetected position is not ruled out by part 1 either. */
  lemma UndetectedNotCovered(sensors: seq<Sensor>, p: Pos)
    requires Undetected(sensors, p)
    ensures !Covered(sensors, p)
  {
  }

  predicate InBox(p: Pos, bound: int)
  {
    0 <= p.0 <= bound && 0 <= p.1 <= bound
  }

  /** The search area of part 2: 20 for the example, 4000000 for the puzzle. */
  function Bound(space: Space): int
  {
    if Abs(space.xBounds.0) < 100 then 20 else 4_000_000
  }

  /**
   * The positions `any_border` visits: the ring one step outside the range,
   * except the two points level with the sensor (x offset `closest_dist + 1`),
   * which its loop never reaches.
   */
  predicate Scanned(s: Sensor, p: Pos)
  {
    DistTo(s, p) == s.closestDist + 1 && AbsDiff(p.0, s.coords.0) <= s.closestDist
  }

  /**
   * `any_border`: walk the ring outside the range from the top and bottom
   * tips outwards. A found position is in the box, on the ring and satisfies
   * the predicate; `None` means no visited position in the box does.
   */
  method AnyBorder(s: Sensor, pred: Pos -> bool, bound: int) returns (r: Option<Pos>)
    ensures r.Some? ==> pred(r.value) && InBox(r.value, bound) && Scanned(s, r.value)
    ensures r.None? ==> forall p :: InBox(p, bound) && Scanned(s, p) ==> !pred(p)
  {
    var (sx, sy) := s.coords;
    var d := s.closestDist as int;
    var x1, x2 := sx, sx;
    var dy := d;
    while dy >= 0
      invariant -1 <= dy <= d
      invariant x1 == sx - (d - dy) && x2 == sx + (d - dy)
      invariant forall p :: InBox(p, bound) && Scanned(s, p) && AbsDiff(p.0, sx) < d - dy ==> !pred(p)
      decreases dy
    {
      var y1 := sy - 1 - dy;
      var y2 := sy + 1 + dy;
      RingColumn(s, x1, x2, y1, y2);
      if x1 >= 0 && x1 <= bound {
        if y1 >= 0 && y1 <= bound && pred((x1, y1)) {
          return Some((x1, y1));
        }
        if y2 >= 0 && y2 <= bound && pred((x1, y2)) {
          return Some((x1, y2));
        }
      }
      if x2 >= 0 && x2 <= bound {
        if y1 >= 0 && y1 <= bound && pred((x2, y1)) {
          return Some((x2, y1));
        }
        if y2 >= 0 && y2 <= bound && pred((x2, y2)) {
          return Some((x2, y2));
        }
      }
      x1 := x1 - 1;
      x2 := x2 + 1;
      dy := dy - 1;
    }
    return None;
  }

  /** The ring positions at x offset `d - dy` are exactly the four corners the loop body tries. */
  lemma RingColumn(s: Sensor, x1: int, x2: int, y1: int, y2: int)
    requires x1 <= s.coords.0 <= x2 && s.coords.0 - x1 == x2 - s.coords.0 <= s.closestDist
    requires y1 == s.coords.1 - 1 - (s.closestDist - (s.coords.0 - x1)) && y2 == s.coords.1 + 1 + (s.closestDist - (s.coords.0 - x1))
    ensures Scanned(s, (x1, y1)) && Scanned(s, (x1, y2)) && Scanned(s, (x2, y1)) && Scanned(s, (x2, y2))
    ensures forall p :: Scanned(s, p) && AbsDiff(p.0, s.coords.0) == s.coords.0 - x1 ==>
      (p.0 == x1 || p.0 == x2) && (p.1 == y1 || p.1 == y2)
  {
  }

  /** No sensor's visited ring holds an undetected position of the box. */
  ghost predicate NoHoleScanned(sensors: seq<Sensor>, bound: int)
  {
    forall i, p :: 0 <= i < |sensors| && InBox(p, bound) && Scanned(sensors[i], p) ==> !Undetected(sensors, p)
  }

  /**
   * `find_map` of `any_border` over the sensors: the first sensor whose ring
   * yields an undetected position of the box.
   */
  method FindHole(sensors: seq<Sensor>, bound: int) returns (r: Option<Pos>)
    ensures r.Some? ==> InBox(r.value, bound) && Undetected(sensors, r.value)
    ensures r.Some? ==> exists i :: 0 <= i < |sensors| && Scanned(sensors[i], r.value)
    ensures r.None? <==> NoHoleScanned(sensors, bound)
  {
    var hole := p => Undetected(sensors, p);
    r := None;
    for i := 0 to |sensors|
      invariant r.None?
      invariant forall j, p :: 0 <= j < i && InBox(p, bound) && Scanned(sensors[j], p) ==> !Undetected(sensors, p)
    {
      r := AnyBorder(sensors[i], hole, bound);
      if r.Some? {
        assert Scanned(sensors[i], r.value);
        return;
      }
    }
  }

  /** The tuning frequency `x * 4000000 + y`. */
  function Tuning(p: Pos): int
  {
    p.0 * 4_000_000 + p.1
  }

  /**
   * `part2`: the tuning frequency of the undetected position found on some
   * sensor's ring. `None` where the final `unwrap` panics.
   */
  method Part2(space: Space) returns (r: Option<int>)
    ensures r.Some? ==> exists p, i ::
      (InBox(p, Bound(space)) && Undetected(space.sensors, p)
       && 0 <= i < |space.sensors| && Scanned(space.sensors[i], p) && r.value == Tuning(p))
    ensures r.None? <==> NoHoleScanned(space.sensors, Bound(space))
  {
    var found := FindHole(space.sensors, Bound(space));
    if found.None? {
      return None;
    }
    r := Some(Tuning(found.value));
  }

  /**
   * Why walking the rings is enough: an undetected position whose neighbour
   * above or below is in some sensor's range lies on that sensor's visited
   * ring, so part 2 finds a hole whenever such a one exists in the box. (The
   * only hole of the puzzle sits between ranges, so its neighbours are
   * covered.)
   */
  lemma FramedHoleScanned(sensors: seq<Sensor>, bound: int, p: Pos, i: nat)
    requires i < |sensors| && InBox(p, bound) && Undetected(sensors, p)
    requires DistTo(sensors[i], (p.0, p.1 - 1)) <= sensors[i].closestDist
      || DistTo(sensors[i], (p.0, p.1 + 1)) <= sensors[i].closestDist
    ensures Scanned(sensors[i], p)
    ensures !NoHoleScanned(sensors, bound)
  {
    assert sensors[i].closestDist < DistTo(sensors[i], p);
  }
}
