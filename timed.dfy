/**
 * The breadth-first search of day 24 (src/days/day24.rs), over states that
 * are a cell and a minute. The moves from a cell depend on the minute, but
 * only on the minute modulo a period `n`, so the search marks explored a
 * cell and a phase in `0..n`, and queues the real minute.
 *
 * The search over such keys is the module `Search`; this module reads its
 * answer back as the arrival minute of a fastest trip through real minutes.
 */
module TimedSearch {
  import opened Wrappers
  import Search

  /** The remainder of `x` by `v` is the `r` of any `x == q * v + r` with `0 <= r < v`. */
  lemma ModUnique(x: int, v: int, q: int, r: int)
    requires v > 0 && 0 <= r < v && x == q * v + r
    ensures x % v == r
  {
    var d := q - x / v;
    assert d * v == x % v - r;
  }

  /** The phase of the next minute. */
  lemma PhaseStep(t: nat, v: nat)
    requires v > 0
    ensures (t % v + 1) % v == (t + 1) % v
  {
    if t % v + 1 < v {
      ModUnique(t + 1, v, t / v, t % v + 1);
      ModUnique(t % v + 1, v, 0, t % v + 1);
    } else {
      ModUnique(t + 1, v, t / v + 1, 0);
      ModUnique(t % v + 1, v, 1, 0);
    }
  }

  // ---- Trips through real minutes ----

  /** A trip from `start` at minute `step`: each cell is a move from the one before, a minute later. */
  ghost predicate Trip<T>(moves: (T, nat) -> seq<T>, start: T, step: nat, w: seq<T>)
  {
    |w| > 0 && w[0] == start &&
    forall i :: 0 < i < |w| ==> w[i] in moves(w[i - 1], step + i - 1)
  }

  /** A trip that ends on a goal cell, at minute `step + |w| - 1`. */
  ghost predicate GoalTrip<T>(moves: (T, nat) -> seq<T>, goal: T -> bool, start: T, step: nat, w: seq<T>)
  {
    Trip(moves, start, step, w) && goal(w[|w| - 1])
  }

  /** `arrival` is the earliest minute at which a trip from `start` at minute `step` is on a goal cell. */
  ghost predicate Fastest<T(!new)>(moves: (T, nat) -> seq<T>, goal: T -> bool, start: T, step: nat, arrival: nat)
  {
    (exists w :: GoalTrip(moves, goal, start, step, w) && arrival == step + |w| - 1) &&
    (forall w :: GoalTrip(moves, goal, start, step, w) ==> step + |w| - 1 >= arrival)
  }

  /** No trip from `start` at minute `step` ever reaches a goal cell. */
  ghost predicate NoTrip<T(!new)>(moves: (T, nat) -> seq<T>, goal: T -> bool, start: T, step: nat)
  {
    forall w :: !GoalTrip(moves, goal, start, step, w)
  }

  /** The moves only depend on the minute modulo `n`. */
  ghost predicate Periodic<T(!new)>(moves: (T, nat) -> seq<T>, n: nat)
    requires n > 0
  {
    forall p, t: nat :: moves(p, t) == moves(p, t % n)
  }

  /** No move leaves `cells`. */
  ghost predicate Within<T(!new)>(moves: (T, nat) -> seq<T>, cells: set<T>)
  {
    forall p, t: nat, q :: q in moves(p, t) ==> q in cells
  }

  // ---- Keys ----

  /** The cells of `cells`, each with the phase `phase`. */
  function Stamped<T>(cells: seq<T>, phase: nat): (r: seq<(T, nat)>)
    ensures |r| == |cells|
  {
    seq(|cells|, i requires 0 <= i < |cells| => (cells[i], phase))
  }

  lemma StampedMember<T>(cells: seq<T>, phase: nat, k: (T, nat))
    ensures k in Stamped(cells, phase) <==> k.0 in cells && k.1 == phase
  {
    if k.0 in cells && k.1 == phase {
      var i :| 0 <= i < |cells| && cells[i] == k.0;
      assert Stamped(cells, phase)[i] == k;
    }
  }

  /** The expansion of a key: the moves at its phase, stamped with the next phase. */
  function Next<T>(moves: (T, nat) -> seq<T>, n: nat): ((T, nat)) -> seq<(T, nat)>
    requires n > 0
  {
    (k: (T, nat)) => Stamped(moves(k.0, k.1), (k.1 + 1) % n)
  }

  function AtGoal<T>(goal: T -> bool): ((T, nat)) -> bool
  {
    (k: (T, nat)) => goal(k.0)
  }

  /** Every key: a cell of `cells` and a phase. */
  ghost function Keys<T>(cells: set<T>, n: nat): set<(T, nat)>
  {
    set p, phase: nat | p in cells && phase < n :: (p, phase)
  }

  lemma KeysClosed<T(!new)>(moves: (T, nat) -> seq<T>, cells: set<T>, n: nat)
    requires n > 0 && Within(moves, cells)
    ensures Search.Closed(Next(moves, n), Keys(cells, n))
  {
    forall k, q | k in Keys(cells, n) && q in Next(moves, n)(k) ensures q in Keys(cells, n) {
      StampedMember(moves(k.0, k.1), (k.1 + 1) % n, q);
      assert q.0 in cells;
    }
  }

  /** A move at minute `t` is an edge from the key of minute `t` to the key of minute `t + 1`. */
  lemma StepIsEdge<T(!new)>(moves: (T, nat) -> seq<T>, n: nat, p: T, q: T, t: nat)
    requires n > 0 && Periodic(moves, n)
    ensures q in moves(p, t) <==> (q, (t + 1) % n) in Next(moves, n)((p, t % n))
  {
    PhaseStep(t, n);
    assert moves(p, t) == moves(p, t % n);
    StampedMember(moves(p, t % n), (t % n + 1) % n, (q, (t + 1) % n));
  }

  /** The keys of a trip's cells, at the minutes from `step` on. */
  function KeyWalk<T>(w: seq<T>, step: nat, n: nat): (r: seq<(T, nat)>)
    requires n > 0
    ensures |r| == |w|
  {
    seq(|w|, i requires 0 <= i < |w| => (w[i], (step + i) % n))
  }

  /** Trips are the walks of the search through the keys of their minutes. */
  lemma TripIsWalk<T(!new)>(moves: (T, nat) -> seq<T>, n: nat, start: T, step: nat, w: seq<T>)
    requires n > 0 && Periodic(moves, n) && |w| > 0
    ensures Trip(moves, start, step, w) <==> w[0] == start && Search.IsWalk(Next(moves, n), KeyWalk(w, step, n))
  {
    var kw := KeyWalk(w, step, n);
    forall i | 0 < i < |w|
      ensures w[i] in moves(w[i - 1], step + i - 1) <==> kw[i] in Next(moves, n)(kw[i - 1])
    {
      StepIsEdge(moves, n, w[i - 1], w[i], step + i - 1);
      assert kw[i] == (w[i], (step + i - 1 + 1) % n);
    }
  }

  /** Along a walk of the search from the key of minute `step`, the `i`-th key has the phase of minute `step + i`. */
  lemma {:induction false} WalkPhases<T>(moves: (T, nat) -> seq<T>, n: nat, kw: seq<(T, nat)>, step: nat)
    requires n > 0 && |kw| > 0 && kw[0].1 == step % n && Search.IsWalk(Next(moves, n), kw)
    ensures forall i :: 0 <= i < |kw| ==> kw[i].1 == (step + i) % n
    decreases |kw|
  {
    var m := |kw|;
    if m > 1 {
      var init := kw[..m - 1];
      assert Search.IsWalk(Next(moves, n), init);
      WalkPhases(moves, n, init, step);
      var (p, phase) := kw[m - 2];
      assert phase == (step + m - 2) % n;
      StampedMember(moves(p, phase), (phase + 1) % n, kw[m - 1]);
      PhaseStep(step + m - 2, n);
    }
  }

  /** The cells of a walk through keys. */
  function Cells<T>(kw: seq<(T, nat)>): (r: seq<T>)
    ensures |r| == |kw|
  {
    seq(|kw|, i requires 0 <= i < |kw| => kw[i].0)
  }

  /** A goal trip of `m` minutes puts a goal key within `m` steps of the start's key. */
  lemma GoalTripWithin<T(!new)>(moves: (T, nat) -> seq<T>, goal: T -> bool, n: nat, start: T, step: nat, w: seq<T>)
    requires n > 0 && Periodic(moves, n) && GoalTrip(moves, goal, start, step, w)
    ensures Search.EndWithin(Next(moves, n), AtGoal(goal), (start, step % n), |w| - 1)
  {
    var kw := KeyWalk(w, step, n);
    TripIsWalk(moves, n, start, step, w);
    Search.WalkReaches(Next(moves, n), kw);
    assert AtGoal(goal)(kw[|w| - 1]);
  }

  /** A goal key within `k` steps of the start's key is the end of a goal trip of at most `k` minutes. */
  lemma WithinGoalTrip<T(!new)>(moves: (T, nat) -> seq<T>, goal: T -> bool, n: nat, start: T, step: nat, k: nat)
    returns (w: seq<T>)
    requires n > 0 && Periodic(moves, n)
    requires Search.EndWithin(Next(moves, n), AtGoal(goal), (start, step % n), k)
    ensures GoalTrip(moves, goal, start, step, w) && |w| <= k + 1
  {
    var next := Next(moves, n);
    var p: (T, nat) :| p in Search.Reach(next, (start, step % n), k) && AtGoal(goal)(p);
    var kw: seq<(T, nat)> := Search.ReachHasWalk(next, (start, step % n), k, p);
    WalkPhases(moves, n, kw, step);
    w := Cells(kw);
    assert KeyWalk(w, step, n) == kw;
    TripIsWalk(moves, n, start, step, w);
  }

  /**
   * `bfs` from `start` at minute `step`, with the key of a state its cell
   * and its minute modulo `n`: the earliest minute at which a goal cell can
   * be reached, never before `step`, or `None` when none can.
   */
  method Bfs<T(==,!new)>(moves: (T, nat) -> seq<T>, goal: T -> bool, ghost cells: set<T>, n: nat, start: T, step: nat)
    returns (r: Option<nat>)
    requires n > 0 && Periodic(moves, n) && Within(moves, cells) && start in cells
    ensures r.Some? ==> r.value >= step && Fastest(moves, goal, start, step, r.value)
    ensures r.None? ==> NoTrip(moves, goal, start, step)
  {
    KeysClosed(moves, cells, n);
    assert (start, step % n) in Keys(cells, n);
    var d := Search.Bfs(Next(moves, n), AtGoal(goal), Keys(cells, n), (start, step % n));
    forall w | GoalTrip(moves, goal, start, step, w)
      ensures d.Some? && |w| - 1 >= d.value
    {
      GoalTripWithin(moves, goal, n, start, step, w);
    }
    if d.Some? {
      var w := WithinGoalTrip(moves, goal, n, start, step, d.value);
      r := Some(step + d.value);
    } else {
      r := None;
    }
  }
}
