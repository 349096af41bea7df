/**
 * The breadth-first search of day 12 (src/days/day12.rs), over any map
 * from a cell to the neighbours `get_neighbors` would list for it.
 *
 * It is proved against `Reach`, the set of cells within `k` steps of the
 * start: the answer is the least `k` whose set holds a goal cell, and
 * `None`, where the source panics, means that no goal is reachable at all.
 */
module Search {
  import opened Wrappers

  // ---- Reachability ----

  /** The cells one step from some cell of `s`. */
  ghost function Succ<T>(next: T -> seq<T>, s: set<T>): set<T>
  {
    set p, q | p in s && q in next(p) :: q
  }

  /** A successor comes from some cell of `s`. */
  lemma SuccSource<T>(next: T -> seq<T>, s: set<T>, q: T) returns (p: T)
    requires q in Succ(next, s)
    ensures p in s && q in next(p)
  {
    p :| p in s && q in next(p);
  }

  lemma InSucc<T>(next: T -> seq<T>, s: set<T>, p: T, q: T)
    requires p in s && q in next(p)
    ensures q in Succ(next, s)
  {
  }

  lemma SuccMonotone<T>(next: T -> seq<T>, a: set<T>, b: set<T>)
    requires a <= b
    ensures Succ(next, a) <= Succ(next, b)
  {
  }

  /** The cells within `k` steps of `start`. */
  ghost function Reach<T>(next: T -> seq<T>, start: T, k: nat): (r: set<T>)
    ensures start in r
  {
    if k == 0 then {start}
    else
      var prev := Reach(next, start, k - 1);
      prev + Succ(next, prev)
  }

  lemma {:induction false} ReachMonotone<T>(next: T -> seq<T>, start: T, j: nat, k: nat)
    requires j <= k
    ensures Reach(next, start, j) <= Reach(next, start, k)
    decreases k - j
  {
    if j < k {
      ReachMonotone(next, start, j, k - 1);
    }
  }

  /** A set holding the start and closed under steps holds every reachable cell. */
  lemma {:induction false} ClosedHoldsReach<T>(next: T -> seq<T>, start: T, s: set<T>, k: nat)
    requires start in s && Succ(next, s) <= s
    ensures Reach(next, start, k) <= s
  {
    if k > 0 {
      ClosedHoldsReach(next, start, s, k - 1);
      SuccMonotone(next, Reach(next, start, k - 1), s);
    }
  }

  /** No step leads out of `cells`. */
  ghost predicate Closed<T>(next: T -> seq<T>, cells: set<T>)
  {
    forall p, q :: p in cells && q in next(p) ==> q in cells
  }

  lemma ReachWithin<T>(next: T -> seq<T>, cells: set<T>, start: T, k: nat)
    requires Closed(next, cells) && start in cells
    ensures Reach(next, start, k) <= cells
  {
    ClosedHoldsReach(next, start, cells, k);
  }

  /** Some goal cell lies within `k` steps. */
  ghost predicate EndWithin<T>(next: T -> seq<T>, goal: T -> bool, start: T, k: nat)
  {
    exists p :: p in Reach(next, start, k) && goal(p)
  }

  /** A walk: every cell is a neighbour of the one before. */
  ghost predicate IsWalk<T>(next: T -> seq<T>, w: seq<T>)
  {
    forall i :: 0 < i < |w| ==> w[i] in next(w[i - 1])
  }

  /** `Reach` is what it says: the cells at the end of walks of at most `k` steps. */
  lemma {:induction false} WalkReaches<T>(next: T -> seq<T>, w: seq<T>)
    requires |w| > 0 && IsWalk(next, w)
    ensures w[|w| - 1] in Reach(next, w[0], |w| - 1)
    decreases |w|
  {
    var n := |w|;
    if n > 1 {
      var init := w[..n - 1];
      assert IsWalk(next, init);
      WalkReaches(next, init);
      InSucc(next, Reach(next, w[0], n - 2), w[n - 2], w[n - 1]);
    }
  }

  lemma {:induction false} ReachHasWalk<T>(next: T -> seq<T>, start: T, k: nat, p: T) returns (w: seq<T>)
    requires p in Reach(next, start, k)
    ensures 0 < |w| <= k + 1 && w[0] == start && w[|w| - 1] == p && IsWalk(next, w)
    decreases k
  {
    if k == 0 {
      w := [start];
    } else {
      var prev := Reach(next, start, k - 1);
      if p in prev {
        w := ReachHasWalk(next, start, k - 1, p);
      } else {
        var from := SuccSource(next, prev, p);
        var w' := ReachHasWalk(next, start, k - 1, from);
        WalkExtend(next, w', p);
        w := w' + [p];
      }
    }
  }

  lemma WalkExtend<T>(next: T -> seq<T>, w: seq<T>, p: T)
    requires |w| > 0 && IsWalk(next, w) && p in next(w[|w| - 1])
    ensures IsWalk(next, w + [p])
  {
    var w2 := w + [p];
    forall i | 0 < i < |w2| ensures w2[i] in next(w2[i - 1]) {
      if i < |w| {
        assert w2[i] == w[i] && w2[i - 1] == w[i - 1];
      }
    }
  }

  // ---- The queue ----

  ghost function QueueSet<T>(q: seq<(T, nat)>): set<T>
  {
    set i | 0 <= i < |q| :: q[i].0
  }

  /** The cells within fewer than `level` steps. */
  ghost function Settled<T>(next: T -> seq<T>, start: T, level: nat): set<T>
  {
    if level == 0 then {} else Reach(next, start, level - 1)
  }

  /**
   * While level `level` is expanded, a queue entry `(p, d)` is exact: `p` is
   * `d` steps away and no fewer, and `d` is `level` or `level + 1`.
   */
  ghost predicate Placed<T>(next: T -> seq<T>, start: T, p: T, d: nat, level: nat)
  {
    if d == level then p in Reach(next, start, level) && p !in Settled(next, start, level)
    else d == level + 1 && p in Reach(next, start, level + 1) && p !in Reach(next, start, level)
  }

  /**
   * The state `bfs` keeps while it expands level `level`: `explored` is what
   * has been expanded plus what is queued, and it lies between the current
   * level's reach and the next one's. The queue holds the rest of the
   * current level (its first `split` entries), then part of the next, each
   * entry at its exact distance.
   */
  ghost predicate Frontier<T>(next: T -> seq<T>, start: T, explored: set<T>, processed: set<T>,
    q: seq<(T, nat)>, level: nat, split: nat)
  {
    && explored == processed + QueueSet(q)
    && split <= |q|
    && (forall i :: 0 <= i < |q| ==> q[i].1 == (if i < split then level else level + 1))
    && (forall i :: 0 <= i < |q| ==> Placed(next, start, q[i].0, q[i].1, level))
    && Reach(next, start, level) <= explored <= Reach(next, start, level + 1)
  }

  lemma QueueSetPop<T>(q: seq<(T, nat)>)
    requires q != []
    ensures QueueSet(q) == {q[0].0} + QueueSet(q[1..])
  {
    forall p | p in QueueSet(q) ensures p in {q[0].0} + QueueSet(q[1..]) {
      var i :| 0 <= i < |q| && q[i].0 == p;
      if i > 0 {
        assert q[1..][i - 1] == q[i];
      }
    }
  }

  lemma QueueSetPush<T>(q: seq<(T, nat)>, x: (T, nat))
    ensures QueueSet(q + [x]) == QueueSet(q) + {x.0}
  {
    assert (q + [x])[|q|] == x;
    forall p | p in QueueSet(q) ensures p in QueueSet(q + [x]) {
      var i :| 0 <= i < |q| && q[i].0 == p;
      assert (q + [x])[i] == q[i];
    }
  }

  /** Taking the front cell of the current level moves it from the queue to the expanded cells. */
  lemma PopKeeps<T>(next: T -> seq<T>, start: T, explored: set<T>, processed: set<T>,
    q: seq<(T, nat)>, level: nat, split: nat, v: T)
    requires Frontier(next, start, explored, processed, q, level, split)
    requires q != [] && q[0] == (v, level)
    ensures split > 0 && Frontier(next, start, explored, processed + {v}, q[1..], level, split - 1)
    ensures v in Reach(next, start, level)
  {
    QueueSetPop(q);
    assert forall i :: 0 <= i < |q| - 1 ==> q[1..][i] == q[i + 1];
  }

  /** Enqueueing a fresh successor of the current level at the next distance keeps the state. */
  lemma PushKeeps<T>(next: T -> seq<T>, start: T, explored: set<T>, processed: set<T>,
    q: seq<(T, nat)>, level: nat, split: nat, n: T)
    requires Frontier(next, start, explored, processed, q, level, split)
    requires n !in explored && n in Succ(next, Reach(next, start, level))
    ensures Frontier(next, start, explored + {n}, processed, q + [(n, level + 1)], level, split)
  {
    var q' := q + [(n, level + 1)];
    QueueSetPush(q, (n, level + 1));
    assert forall i :: 0 <= i < |q| ==> q'[i] == q[i];
    assert q'[|q|] == (n, level + 1);
    assert Placed(next, start, n, level + 1, level);
  }

  /** Once the front of the queue is one level further, the whole current level has been expanded. */
  lemma LevelUp<T>(next: T -> seq<T>, start: T, explored: set<T>, processed: set<T>,
    q: seq<(T, nat)>, level: nat, split: nat)
    requires Frontier(next, start, explored, processed, q, level, split)
    requires q != [] && q[0].1 == level + 1 && Succ(next, processed) <= explored
    ensures Settled(next, start, level + 1) <= processed
    ensures Frontier(next, start, explored, processed, q, level + 1, |q|)
  {
    var cur := Reach(next, start, level);
    forall p | p in cur ensures p in processed {
      LevelNotQueued(next, start, explored, processed, q, level, split, p);
    }
    SuccMonotone(next, cur, processed);
    ReachMonotone(next, start, level + 1, level + 2);
  }

  /** A cell of the current level is not in a queue whose front is already one level further. */
  lemma LevelNotQueued<T>(next: T -> seq<T>, start: T, explored: set<T>, processed: set<T>,
    q: seq<(T, nat)>, level: nat, split: nat, p: T)
    requires Frontier(next, start, explored, processed, q, level, split)
    requires q != [] && q[0].1 == level + 1
    requires p in Reach(next, start, level)
    ensures p !in QueueSet(q)
  {
    assert split == 0;
    forall i | 0 <= i < |q| ensures q[i].0 != p {
      assert Placed(next, start, q[i].0, q[i].1, level);
    }
  }

  /** Expanding `v` adds just its neighbours to the successors. */
  lemma SuccAddOne<T>(next: T -> seq<T>, s: set<T>, v: T)
    ensures Succ(next, s + {v}) <= Succ(next, s) + set n | n in next(v)
  {
    forall q | q in Succ(next, s + {v}) ensures q in Succ(next, s) || q in next(v) {
      var p := SuccSource(next, s + {v}, q);
      if p != v {
        InSucc(next, s, p, q);
      }
    }
  }

  /** No goal lies within fewer than `d` steps when every cell within `d - 1` steps has been expanded without finding one. */
  lemma NoEndBefore<T>(next: T -> seq<T>, goal: T -> bool, start: T, processed: set<T>, d: nat)
    requires forall p :: p in processed ==> !goal(p)
    requires Settled(next, start, d) <= processed
    ensures forall k: nat :: k < d ==> !EndWithin(next, goal, start, k)
  {
    forall k: nat | k < d ensures !EndWithin(next, goal, start, k) {
      ReachMonotone(next, start, k, d - 1);
    }
  }

  /** Removing an element of `c` that is not yet in `b` shrinks what remains. */
  lemma RemainingShrinks<T>(c: set<T>, a: set<T>, b: set<T>)
    requires a <= b <= c && a != b
    ensures |c - b| < |c - a|
  {
    var x :| x in b && x !in a;
    assert c - a == (c - b) + (b - a);
    assert (c - b) * (b - a) == {};
    assert x in b - a;
  }

  /** The cells of `cells`, each queued at distance `d`. */
  function Tagged<T>(cells: seq<T>, d: nat): (r: seq<(T, nat)>)
    ensures |r| == |cells| && forall k :: 0 <= k < |cells| ==> r[k] == (cells[k], d)
  {
    seq(|cells|, k requires 0 <= k < |cells| => (cells[k], d))
  }

  ghost function Elems<T>(cells: seq<T>): set<T>
  {
    set n | n in cells
  }

  /** `cells` holds distinct cells, none of them in `s`. */
  ghost predicate FreshCells<T>(cells: seq<T>, s: set<T>)
  {
    && (forall k :: 0 <= k < |cells| ==> cells[k] !in s)
    && (forall k, l :: 0 <= k < l < |cells| ==> cells[k] != cells[l])
  }

  /** A run of fresh cells is a shorter run of fresh cells followed by one more. */
  lemma FreshSplit<T>(added: seq<T>, s: set<T>) returns (init: seq<T>, n: T)
    requires added != [] && FreshCells(added, s)
    ensures added == init + [n] && FreshCells(init, s) && n !in s + Elems(init)
    ensures forall k :: 0 <= k < |init| ==> init[k] == added[k]
    ensures n == added[|added| - 1]
  {
    init, n := added[..|added| - 1], added[|added| - 1];
    assert added == init + [n];
    forall k | 0 <= k < |init| ensures init[k] != n {
      assert added[k] == init[k];
    }
  }

  /** A non-empty run of fresh cells adds something. */
  lemma FreshAdds<T>(added: seq<T>, s: set<T>)
    requires FreshCells(added, s)
    ensures added != [] ==> added[0] in Elems(added) && added[0] !in s
  {
  }

  lemma TaggedNone<T>(q: seq<(T, nat)>, s: set<T>, added: seq<T>, d: nat)
    requires added == []
    ensures q + Tagged(added, d) == q && s + Elems(added) == s
  {
    assert Tagged(added, d) == [];
  }

  lemma TaggedSnoc<T>(q: seq<(T, nat)>, s: set<T>, init: seq<T>, n: T, d: nat, added: seq<T>)
    requires added == init + [n]
    ensures q + Tagged(init, d) + [(n, d)] == q + Tagged(added, d)
    ensures s + Elems(init) + {n} == s + Elems(added)
  {
    assert Tagged(init, d) + [(n, d)] == Tagged(added, d);
  }

  /** Enqueueing a run of fresh successors of the current level, one by one, keeps the state. */
  lemma {:induction false} PushAllKeeps<T>(next: T -> seq<T>, start: T, explored: set<T>, processed: set<T>,
    q: seq<(T, nat)>, level: nat, split: nat, added: seq<T>)
    requires Frontier(next, start, explored, processed, q, level, split)
    requires FreshCells(added, explored)
    requires forall k :: 0 <= k < |added| ==> added[k] in Succ(next, Reach(next, start, level))
    ensures Frontier(next, start, explored + Elems(added), processed, q + Tagged(added, level + 1), level, split)
    decreases |added|
  {
    if added == [] {
      TaggedNone(q, explored, added, level + 1);
    } else {
      var init, n := FreshSplit(added, explored);
      PushAllKeeps(next, start, explored, processed, q, level, split, init);
      PushKeeps(next, start, explored + Elems(init), processed, q + Tagged(init, level + 1), level, split, n);
      TaggedSnoc(q, explored, init, n, level + 1, added);
    }
  }

  // ---- The search ----

  /**
   * The inner loop of `bfs`: every neighbour of the expanded cell `v` that
   * is not yet explored is marked and queued one step further.
   */
  method Expand<T(==)>(next: T -> seq<T>, start: T, v: T, explored0: set<T>, ghost processed: set<T>,
    queue: seq<(T, nat)>, level: nat, ghost split: nat)
    returns (explored: set<T>, toVisit: seq<(T, nat)>)
    requires Frontier(next, start, explored0, processed, queue, level, split)
    requires v in Reach(next, start, level)
    ensures Frontier(next, start, explored, processed, toVisit, level, split)
    ensures explored0 <= explored
    ensures forall n :: n in next(v) ==> n in explored
    ensures explored == explored0 ==> toVisit == queue
  {
    explored, toVisit := explored0, queue;
    var ns := next(v);
    ghost var added: seq<T> := [];
    for i := 0 to |ns|
      invariant explored == explored0 + Elems(added) && toVisit == queue + Tagged(added, level + 1)
      invariant FreshCells(added, explored0)
      invariant forall k :: 0 <= k < |added| ==> added[k] in ns
      invariant forall j :: 0 <= j < i ==> ns[j] in explored
    {
      var n := ns[i];
      if n !in explored {
        assert n !in Elems(added);
        assert Elems(added + [n]) == Elems(added) + {n};
        assert Tagged(added + [n], level + 1) == Tagged(added, level + 1) + [(n, level + 1)];
        explored := explored + {n};
        toVisit := toVisit + [(n, level + 1)];
        added := added + [n];
      }
    }
    forall k | 0 <= k < |added| ensures added[k] in Succ(next, Reach(next, start, level)) {
      InSucc(next, Reach(next, start, level), v, added[k]);
    }
    PushAllKeeps(next, start, explored0, processed, queue, level, split, added);
    FreshAdds(added, explored0);
  }

  /** What the loop of `bfs` keeps, on top of `Frontier`: nothing expanded is a goal, and everything one step from it is explored. */
  ghost predicate Searching<T>(next: T -> seq<T>, goal: T -> bool, start: T, explored: set<T>, processed: set<T>,
    q: seq<(T, nat)>, level: nat, split: nat)
  {
    && Frontier(next, start, explored, processed, q, level, split)
    && Settled(next, start, level) <= processed
    && Succ(next, processed) <= explored
    && (forall p :: p in processed ==> !goal(p))
  }

  /** The level of the front of the queue, and where that level ends in the queue. */
  lemma Advance<T>(next: T -> seq<T>, goal: T -> bool, start: T, explored: set<T>, processed: set<T>,
    q: seq<(T, nat)>, level: nat, split: nat) returns (level': nat, split': nat)
    requires Searching(next, goal, start, explored, processed, q, level, split) && q != []
    ensures Searching(next, goal, start, explored, processed, q, level', split')
    ensures q[0].1 == level'
  {
    if q[0].1 == level + 1 {
      LevelUp(next, start, explored, processed, q, level, split);
      level', split' := level + 1, |q|;
    } else {
      level', split' := level, split;
    }
  }

  /** Expanding a cell `v` that is not a goal, with all its neighbours explored, keeps what the loop of `bfs` keeps. */
  lemma Expanded<T>(next: T -> seq<T>, goal: T -> bool, start: T, explored: set<T>, processed: set<T>, v: T,
    explored': set<T>, q: seq<(T, nat)>, level: nat, split: nat)
    requires Frontier(next, start, explored', processed + {v}, q, level, split)
    requires Settled(next, start, level) <= processed && Succ(next, processed) <= explored <= explored'
    requires (forall p :: p in processed ==> !goal(p)) && !goal(v)
    requires forall n :: n in next(v) ==> n in explored'
    ensures Searching(next, goal, start, explored', processed + {v}, q, level, split)
  {
    SuccAddOne(next, processed, v);
  }

  /**
   * The rest of a pass of the loop of `bfs`, once the front cell `v` of the
   * current level has turned out not to be a goal: pop it and expand it.
   */
  method Visit<T(==)>(next: T -> seq<T>, goal: T -> bool, ghost cells: set<T>, start: T, v: T,
    explored: set<T>, ghost processed: set<T>, toVisit: seq<(T, nat)>, ghost level: nat, ghost split: nat)
    returns (explored': set<T>, toVisit': seq<(T, nat)>, ghost processed': set<T>, ghost split': nat)
    requires start in cells && Closed(next, cells)
    requires Searching(next, goal, start, explored, processed, toVisit, level, split)
    requires toVisit != [] && toVisit[0] == (v, level) && !goal(v)
    ensures Searching(next, goal, start, explored', processed', toVisit', level, split')
    ensures explored' == explored ==> |toVisit'| < |toVisit|
    ensures explored' != explored ==> |cells - explored'| < |cells - explored|
  {
    PopKeeps(next, start, explored, processed, toVisit, level, split, v);
    processed', split' := processed + {v}, split - 1;
    explored', toVisit' := Expand(next, start, v, explored, processed', toVisit[1..], toVisit[0].1, split');
    Expanded(next, goal, start, explored, processed, v, explored', toVisit', level, split');
    if explored' != explored {
      ReachWithin(next, cells, start, level + 1);
      RemainingShrinks(cells, explored, explored');
    }
  }

  /**
   * `bfs`: a cell is marked explored when it is enqueued, and the answer is
   * the least number of steps within which a goal can be reached. `cells`
   * is a finite set of cells that no step leaves.
   */
  method Bfs<T(==)>(next: T -> seq<T>, goal: T -> bool, ghost cells: set<T>, start: T) returns (r: Option<nat>)
    requires start in cells && Closed(next, cells)
    ensures r.Some? ==> EndWithin(next, goal, start, r.value)
    ensures r.Some? ==> forall k: nat :: k < r.value ==> !EndWithin(next, goal, start, k)
    ensures r.None? ==> forall k: nat :: !EndWithin(next, goal, start, k)
  {
    var explored: set<T> := {start};
    var toVisit: seq<(T, nat)> := [(start, 0)];
    ghost var level: nat := 0;
    ghost var split: nat := 1;
    ghost var processed: set<T> := {};
    assert QueueSet(toVisit) == {start} by {
      assert toVisit[0].0 == start;
    }
    while toVisit != []
      invariant Searching(next, goal, start, explored, processed, toVisit, level, split)
      decreases |cells - explored|, |toVisit|
    {
      var vertex := toVisit[0];
      level, split := Advance(next, goal, start, explored, processed, toVisit, level, split);
      if goal(vertex.0) {
        NoEndBefore(next, goal, start, processed, vertex.1);
        return Some(vertex.1);
      }
      explored, toVisit, processed, split := Visit(next, goal, cells, start, vertex.0, explored, processed, toVisit, level, split);
    }
    forall k: nat ensures !EndWithin(next, goal, start, k) {
      ClosedHoldsReach(next, start, processed, k);
    }
    return None;
  }
}
