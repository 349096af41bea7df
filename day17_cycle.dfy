/**
 * Day 17, part 2 (src/days/day17.rs): the same falling rocks, but after
 * every rock the cells below a full row are discarded, and the tower is
 * summarised by snapshots (its cells sorted, shifted down to y = 0) taken
 * before every first and every fifth rock. When a pair of snapshots and the
 * jet index repeat, the height after 10^12 rocks is extrapolated from the
 * heights recorded so far.
 */
module Day17Cycle {
  import opened Wrappers
  import opened Day17
  import Sorting

  /** `TARGET`: the number of rocks of part 2. */
  const Target: nat := 1000000000000

  // ---- Snapshots ----

  /** The lowest y of a set of cells, 0 for none (`unwrap_or_default`). */
  ghost function MinY(s: set<Pos>): (r: int)
    ensures s == {} ==> r == 0
    ensures forall p :: p in s ==> r <= p.1
    ensures s != {} ==> exists p :: p in s && p.1 == r
  {
    if s == {} then 0
    else
      var p :| p in s;
      if s - {p} == {} then assert s == {p}; p.1
      else
        var rest := MinY(s - {p});
        if p.1 < rest then p.1 else rest
  }

  /** Any bound attained by a cell is `MinY`. */
  lemma MinYUnique(s: set<Pos>, r: int)
    requires s != {} && (forall p :: p in s ==> r <= p.1) && exists p :: p in s && p.1 == r
    ensures r == MinY(s)
  {
  }

  /** The cell `m` rows lower. */
  function Down(p: Pos, m: int): Pos
  {
    (p.0, p.1 - m)
  }

  /** The cells moved `m` rows down. */
  ghost function Lower(s: set<Pos>, m: int): set<Pos>
  {
    set p | p in s :: Down(p, m)
  }

  /** The cells shifted down so that the lowest one is at y = 0. */
  ghost function Normalize(s: set<Pos>): set<Pos>
  {
    Lower(s, MinY(s))
  }

  /** The cells moved `d` rows up. */
  ghost function Shift(s: set<Pos>, d: int): set<Pos>
  {
    Lower(s, -d)
  }

  /** The derived order of Rust's tuples: by x, then by y. */
  function PosLe(a: Pos, b: Pos): bool
  {
    a.0 < b.0 || (a.0 == b.0 && a.1 <= b.1)
  }

  lemma PosLeTotal()
    ensures Sorting.TotalPreorder(PosLe)
  {
  }

  predicate Distinct(v: seq<Pos>)
  {
    forall i, j :: 0 <= i < j < |v| ==> v[i] != v[j]
  }

  /** `v` is what `set_to_sorted_vec` returns for the cells `s`: their normalised positions, each once, in order. */
  ghost predicate IsSnapshot(v: seq<Pos>, s: set<Pos>)
  {
    Sorting.Sorted(v, PosLe) && Distinct(v) && (forall p :: p in v <==> p in Normalize(s))
  }

  /** A sequence without repeats holds each element once. */
  lemma {:induction false} DistinctCounts(v: seq<Pos>)
    requires Distinct(v)
    ensures forall p :: multiset(v)[p] <= 1
    decreases |v|
  {
    if v != [] {
      var init := v[..|v| - 1];
      assert v == init + [v[|v| - 1]];
      DistinctCounts(init);
      assert v[|v| - 1] !in init;
    }
  }

  /** A sequence holding each element at most once has no repeats. */
  lemma CountsDistinct(v: seq<Pos>)
    requires forall p :: multiset(v)[p] <= 1
    ensures Distinct(v)
  {
    forall i, j | 0 <= i < j < |v|
      ensures v[i] != v[j]
    {
      assert v == v[..j] + v[j..];
      assert v[..j][i] == v[i] && v[j..][0] == v[j];
      assert multiset(v[..j])[v[i]] >= 1 && multiset(v[j..])[v[j]] >= 1;
      assert multiset(v) == multiset(v[..j]) + multiset(v[j..]);
      assert multiset(v)[v[i]] <= 1 && multiset(v)[v[j]] <= 1;
    }
  }

  /** `set_to_sorted_vec`: the keys, shifted by the lowest y and sorted. */
  method SetToSortedVec(inner: map<Pos, nat>) returns (v: seq<Pos>)
    ensures IsSnapshot(v, inner.Keys)
  {
    var copy := Keys(inner.Keys);
    var minY := LowestY(copy);
    assert minY == MinY(inner.Keys) by {
      if inner.Keys != {} {
        MinYUnique(inner.Keys, minY);
      }
    }
    var shifted := ShiftDown(copy, minY);
    DistinctCounts(shifted);
    PosLeTotal();
    v := Sorting.Sort(shifted, PosLe);
    CountsDistinct(v);
    forall p
      ensures p in v <==> p in Normalize(inner.Keys)
    {
      calc {
        p in v;
        p in multiset(v);
        p in multiset(shifted);
        p in shifted;
      }
      if p in shifted {
        var k :| 0 <= k < |shifted| && shifted[k] == p;
        assert copy[k] in inner.Keys;
      }
      if p in Normalize(inner.Keys) {
        var q :| q in inner.Keys && p == Down(q, minY);
        var k :| 0 <= k < |copy| && copy[k] == q;
        assert shifted[k] == p;
      }
    }
  }

  /** `input.keys().copied().collect()`: every key once, in the map's iteration order. */
  method Keys(s: set<Pos>) returns (copy: seq<Pos>)
    ensures Distinct(copy) && forall p :: p in copy <==> p in s
  {
    copy := [];
    var rest := s;
    while rest != {}
      invariant rest <= s && Distinct(copy)
      invariant forall p :: p in copy <==> p in s - rest
      decreases |rest|
    {
      var p :| p in rest;
      assert p !in copy;
      copy := copy + [p];
      rest := rest - {p};
    }
  }

  /** The `min` of the y coordinates, `unwrap_or_default`. */
  method LowestY(copy: seq<Pos>) returns (minY: int)
    ensures forall p :: p in copy ==> minY <= p.1
    ensures |copy| > 0 ==> exists p :: p in copy && p.1 == minY
    ensures |copy| == 0 ==> minY == 0
  {
    minY := 0;
    for i := 0 to |copy|
      invariant forall k :: 0 <= k < i ==> minY <= copy[k].1
      invariant i > 0 ==> exists k :: 0 <= k < i && copy[k].1 == minY
      invariant i == 0 ==> minY == 0
    {
      if i == 0 || copy[i].1 < minY {
        minY := copy[i].1;
      }
    }
  }

  /** The loop `tup.1 -= min_y` over the copy. */
  method ShiftDown(copy: seq<Pos>, minY: int) returns (shifted: seq<Pos>)
    requires Distinct(copy)
    ensures |shifted| == |copy| && Distinct(shifted)
    ensures forall k :: 0 <= k < |copy| ==> shifted[k] == Down(copy[k], minY)
  {
    shifted := copy;
    for i := 0 to |copy|
      invariant |shifted| == |copy|
      invariant forall k :: 0 <= k < i ==> shifted[k] == Down(copy[k], minY)
      invariant forall k :: i <= k < |copy| ==> shifted[k] == copy[k]
    {
      shifted := shifted[i := (shifted[i].0, shifted[i].1 - minY)];
    }
  }

  /** Two snapshots of the same normalised cells are the same sequence. */
  lemma {:induction false} SnapshotUnique(v: seq<Pos>, w: seq<Pos>, s: set<Pos>, t: set<Pos>)
    requires IsSnapshot(v, s) && IsSnapshot(w, t) && Normalize(s) == Normalize(t)
    ensures v == w
  {
    SortedUnique(v, w);
  }

  lemma {:induction false} SortedUnique(v: seq<Pos>, w: seq<Pos>)
    requires Sorting.Sorted(v, PosLe) && Distinct(v)
    requires Sorting.Sorted(w, PosLe) && Distinct(w)
    requires forall p :: p in v <==> p in w
    ensures v == w
    decreases |v|
  {
    if v == [] {
      FirstIn(w);
    } else {
      assert v[0] in w;
      assert w[0] in v;
      var i :| 0 <= i < |v| && v[i] == w[0];
      var j :| 0 <= j < |w| && w[j] == v[0];
      assert PosLe(v[0], v[i]) || i == 0;
      assert PosLe(w[0], w[j]) || j == 0;
      assert v[0] == w[0];
      forall p
        ensures p in v[1..] <==> p in w[1..]
      {
        if p in v[1..] {
          var k :| 0 <= k < |v[1..]| && v[1..][k] == p;
          assert v[k + 1] == p && p != v[0] && p in v;
          var m :| 0 <= m < |w| && w[m] == p;
          assert m != 0 && w[1..][m - 1] == p;
        }
        if p in w[1..] {
          var k :| 0 <= k < |w[1..]| && w[1..][k] == p;
          assert w[k + 1] == p && p != w[0] && p in w;
          var m :| 0 <= m < |v| && v[m] == p;
          assert m != 0 && v[1..][m - 1] == p;
        }
      }
      SortedUnique(v[1..], w[1..]);
      assert v == [v[0]] + v[1..];
      assert w == [w[0]] + w[1..];
    }
  }

  lemma FirstIn(w: seq<Pos>)
    ensures w != [] ==> w[0] in w
  {
  }

  /** Moving every cell down by `m` moves the lowest one down by `m`. */
  lemma LowerMinY(s: set<Pos>, m: int)
    ensures MinY(Lower(s, m)) == if s == {} then 0 else MinY(s) - m
  {
    if s != {} {
      var p :| p in s && p.1 == MinY(s);
      assert Down(p, m) in Lower(s, m);
      MinYUnique(Lower(s, m), MinY(s) - m);
    } else {
      assert Lower(s, m) == {};
    }
  }

  /** Moving down by `a` and then by `b` is moving down by `a + b`. */
  lemma LowerLower(s: set<Pos>, a: int, b: int)
    ensures Lower(Lower(s, a), b) == Lower(s, a + b)
  {
    forall p | p in Lower(s, a + b)
      ensures p in Lower(Lower(s, a), b)
    {
      var q :| q in s && p == Down(q, a + b);
      assert Down(q, a) in Lower(s, a) && Down(Down(q, a), b) == p;
    }
    forall p | p in Lower(Lower(s, a), b)
      ensures p in Lower(s, a + b)
    {
      var q :| q in Lower(s, a) && p == Down(q, b);
      var o :| o in s && q == Down(o, a);
      assert Down(o, a + b) == p;
    }
  }

  /** Moving up by `d` and then down by `m + d` is moving down by `m`. */
  lemma LowerBack(s: set<Pos>, d: int, e: int, m: int)
    requires e == m + d
    ensures Lower(Lower(s, -d), e) == Lower(s, m)
  {
    LowerLower(s, -d, e);
  }

  /** `set_to_sorted_vec` is translation-invariant in y: a tower moved up or down normalises to the same cells. */
  lemma NormalizeShift(s: set<Pos>, d: int)
    ensures Normalize(Shift(s, d)) == Normalize(s)
  {
    if s != {} {
      LowerMinY(s, -d);
      assert MinY(Shift(s, d)) == MinY(s) + d;
      LowerBack(s, d, MinY(Shift(s, d)), MinY(s));
      assert Normalize(Shift(s, d)) == Lower(Lower(s, -d), MinY(Shift(s, d)));
    } else {
      assert Shift(s, d) == {};
    }
  }

  /** Snapshots of two towers that differ by a vertical shift are equal, so the memo recognises them. */
  lemma ShiftedSnapshots(v: seq<Pos>, w: seq<Pos>, s: set<Pos>, d: int)
    requires IsSnapshot(v, s) && IsSnapshot(w, Shift(s, d))
    ensures v == w
  {
    NormalizeShift(s, d);
    SnapshotUnique(v, w, s, Shift(s, d));
  }

  /** One snapshot describes one normalised tower. */
  lemma SameSnapshot(v: seq<Pos>, s: set<Pos>, t: set<Pos>)
    requires IsSnapshot(v, s) && IsSnapshot(v, t)
    ensures Normalize(s) == Normalize(t)
  {
    assert forall p :: p in Normalize(s) <==> p in Normalize(t);
  }

  // ---- Pruning ----

  /** The cells in row `y`. */
  ghost function Row(s: set<Pos>, y: int): set<Pos>
  {
    set p | p in s && p.1 == y
  }

  /** A row covered by seven cells: the chamber's full width. */
  ghost predicate FullRow(s: set<Pos>, y: int)
  {
    |Row(s, y)| == 7
  }

  /** The grid without the cells strictly below any full row. */
  ghost function Pruned(g: map<Pos, nat>): map<Pos, nat>
  {
    map p | p in g && (forall y :: FullRow(g.Keys, y) ==> y <= p.1) :: g[p]
  }

  /** Pruning keeps the top of the tower, and only removes cells. */
  lemma PruneKeepsTop(g: map<Pos, nat>)
    ensures Pruned(g).Keys <= g.Keys
    ensures MaxY(Pruned(g).Keys) == MaxY(g.Keys)
    ensures g != map[] ==> Pruned(g) != map[]
  {
    if g != map[] {
      var p :| p in g.Keys && p.1 == MaxY(g.Keys);
      forall y | FullRow(g.Keys, y)
        ensures y <= p.1
      {
        assert Row(g.Keys, y) != {};
        var q :| q in Row(g.Keys, y);
        assert q in g.Keys && q.1 == y;
        assert q.1 <= MaxY(g.Keys);
      }
      assert p in Pruned(g).Keys;
      MaxYUnique(Pruned(g).Keys, MaxY(g.Keys));
    } else {
      assert Pruned(g).Keys == {};
    }
  }
  /** The counting loop: how many cells each row holds; rows without cells have no entry. */
  method CountRows(s: set<Pos>) returns (counts: map<int, int>)
    ensures forall y :: y in counts ==> counts[y] == |Row(s, y)|
    ensures forall y :: y !in counts ==> Row(s, y) == {}
  {
    counts := map[];
    var rest := s;
    while rest != {}
      invariant rest <= s
      invariant forall y :: y in counts ==> counts[y] == |Row(s - rest, y)|
      invariant forall y :: y !in counts ==> Row(s - rest, y) == {}
      decreases |rest|
    {
      var p :| p in rest;
      ghost var done := s - rest;
      assert Row(done + {p}, p.1) == Row(done, p.1) + {p};
      assert p !in Row(done, p.1);
      forall y | y != p.1
        ensures Row(done + {p}, y) == Row(done, y)
      {
      }
      counts := counts[p.1 := (if p.1 in counts then counts[p.1] else 0) + 1];
      rest := rest - {p};
      assert s - rest == done + {p};
    }
    assert s - rest == s;
  }

  /** Lines 211-218 of `part2`: count the cells of each row, then for each full row drop what lies below it. */
  method Prune(grid: Grid)
    modifies grid
    ensures grid.windDirection == old(grid.windDirection)
    ensures grid.inner == Pruned(old(grid.inner))
  {
    var counts := CountRows(grid.inner.Keys);
    var full := set y | y in counts && counts[y] == 7;
    assert forall y :: y in full <==> FullRow(grid.inner.Keys, y);
    grid.inner := RetainAbove(grid.inner, full);
    assert grid.inner == Pruned(old(grid.inner));
  }

  /** The cells of `g` at or above every row of `ys`. */
  ghost function Above(g: map<Pos, nat>, ys: set<int>): map<Pos, nat>
  {
    map p | p in g && (forall y :: y in ys ==> y <= p.1) :: g[p]
  }

  /** One more `retain` raises the floor by one more row. */
  lemma AboveStep(g: map<Pos, nat>, ys: set<int>, y: int)
    ensures RaiseFloor(Above(g, ys), y) == Above(g, ys + {y})
  {
    assert forall p :: p in RaiseFloor(Above(g, ys), y) <==> p in Above(g, ys + {y});
  }

  /** `retain(|(_, y1), _| y1 >= y)`. */
  function RaiseFloor(g: map<Pos, nat>, y: int): (r: map<Pos, nat>)
  {
    map p | p in g && y <= p.1 :: g[p]
  }

  /** `retain(|(_, y1), _| y1 >= y)` for each `y` of `full`, in any order. */
  method RetainAbove(g: map<Pos, nat>, full: set<int>) returns (r: map<Pos, nat>)
    ensures r == Above(g, full)
  {
    r := g;
    var rest := full;
    assert Above(g, {}) == g;
    while rest != {}
      invariant rest <= full
      invariant r == Above(g, full - rest)
      decreases |rest|
    {
      var y := Pick(rest);
      AboveStep(g, full - rest, y);
      r := RaiseFloor(r, y);
      assert full - (rest - {y}) == (full - rest) + {y};
      rest := rest - {y};
    }
    assert full - rest == full;
  }

  // ---- The simulation of part 2 ----

  /** `rested % order.len()`: which of the five shapes falls next. */
  function Phase(k: nat): (r: nat)
    ensures r < 5 && r <= k
  {
    k % 5
  }

  /** The number of the last first rock not after rock `k`. */
  function LastFirst(k: nat): (r: nat)
    ensures r <= k
  {
    k - Phase(k)
  }

  /** The last first rock stays the same until the next first rock. */
  lemma LastFirstNext(k: nat)
    ensures Phase(k + 1) == if Phase(k) == 4 then 0 else Phase(k) + 1
    ensures Phase(k + 1) != 0 ==> LastFirst(k + 1) == if Phase(k) == 0 then k else LastFirst(k)
  {
  }

  /** The grid and the jet index after `k` rocks of part 2, each followed by pruning. */
  ghost function Tower2(winds: seq<bool>, k: nat): (r: (map<Pos, nat>, nat))
    requires |winds| > 0
    ensures r.1 < |winds|
    decreases k, 0
  {
    if k == 0 then (map[], 0) else Pruning(winds, k - 1)
  }

  /** Rock number `k` of part 2 has fallen and the grid is pruned. */
  ghost function Pruning(winds: seq<bool>, k: nat): (r: (map<Pos, nat>, nat))
    requires |winds| > 0
    ensures r.1 < |winds|
    decreases k, 2
  {
    var f := Falling(winds, k);
    (Pruned(f.0), f.1)
  }

  /** Rock number `k` of part 2 has fallen onto the pruned grid of the rocks before it. */
  ghost function Falling(winds: seq<bool>, k: nat): (r: (map<Pos, nat>, nat))
    requires |winds| > 0
    ensures r.1 < |winds|
    decreases k, 1
  {
    var t := Tower2(winds, k);
    Fall(t.0, winds, t.1, k)
  }

  /** The grid after `k` rocks of part 2. */
  ghost function GridAfter(winds: seq<bool>, k: nat): map<Pos, nat>
    requires |winds| > 0
  {
    Tower2(winds, k).0
  }

  /** The jet index after `k` rocks of part 2. */
  ghost function JetAfter(winds: seq<bool>, k: nat): (r: nat)
    requires |winds| > 0
    ensures r < |winds|
  {
    Tower2(winds, k).1
  }

  /** One more rock: it falls, then the grid is pruned. */
  lemma Tower2Step(winds: seq<bool>, k: nat, f: (map<Pos, nat>, nat))
    requires |winds| > 0
    requires f == Fall(GridAfter(winds, k), winds, JetAfter(winds, k), k)
    ensures GridAfter(winds, k + 1) == Pruned(f.0) && JetAfter(winds, k + 1) == f.1
  {
    assert Tower2(winds, k + 1) == Pruning(winds, k);
    assert Falling(winds, k) == f;
  }

  /** Every rock leaves cells behind: the grid is never empty after the first rock, so no `unwrap` of a highest cell panics. */
  lemma {:induction false} GridNonEmpty(winds: seq<bool>, k: nat)
    requires |winds| > 0 && k >= 1
    ensures GridAfter(winds, k) != map[]
  {
    var j: nat := k - 1;
    if j == 0 {
      FirstFallNonEmpty(winds);
      assert Tower2(winds, j) == (map[], 0);
    } else {
      GridNonEmpty(winds, j);
      FallNonEmpty(GridAfter(winds, j), winds, JetAfter(winds, j), j);
    }
    PrunedNonEmpty(winds, j, k);
  }

  /** A fall that leaves cells behind leaves them after pruning too. */
  lemma PrunedNonEmpty(winds: seq<bool>, j: nat, k: nat)
    requires |winds| > 0 && k == j + 1
    requires Fall(GridAfter(winds, j), winds, JetAfter(winds, j), j).0 != map[]
    ensures GridAfter(winds, k) != map[]
  {
    var f := Fall(GridAfter(winds, j), winds, JetAfter(winds, j), j);
    Tower2Step(winds, j, f);
    PruneKeepsTop(f.0);
  }

  /** The tower height after `k` rocks, what `max_ys` records. */
  ghost function HeightAfter(winds: seq<bool>, k: nat): int
    requires |winds| > 0
  {
    MaxY(GridAfter(winds, k).Keys) + 1
  }

  /** The height stored in `visited`, where an empty grid counts as height 1 (`unwrap_or(&(0, 0))`). */
  ghost function VisitHeight(g: map<Pos, nat>): int
  {
    if g == map[] then 1 else MaxY(g.Keys) + 1
  }

  /** `MemoState`: the snapshot before the last first rock, the one before the current fifth rock, and the jet index. */
  datatype MemoState = MemoState(line: seq<Pos>, dot: seq<Pos>, windIndex: nat)

  /** The entry `visited[m] == (s, h)` was stored before the fifth rock number `s`. */
  ghost predicate Recorded(winds: seq<bool>, m: MemoState, s: nat, h: int, rested: nat)
    requires |winds| > 0
  {
    && 4 <= s < rested && Phase(s) == 4
    && IsSnapshot(m.dot, GridAfter(winds, s).Keys)
    && IsSnapshot(m.line, GridAfter(winds, LastFirst(s)).Keys)
    && m.windIndex == JetAfter(winds, s)
    && h == VisitHeight(GridAfter(winds, s))
  }

  /**
   * Rocks `s` and `n` are both fifth rocks, and before each the tower and
   * the tower four rocks earlier looked the same up to a vertical shift,
   * with the same jet index next.
   */
  ghost predicate Repeat(winds: seq<bool>, s: nat, n: nat)
    requires |winds| > 0
  {
    && 4 <= s < n && Phase(s) == 4 && Phase(n) == 4
    && Normalize(GridAfter(winds, s).Keys) == Normalize(GridAfter(winds, n).Keys)
    && Normalize(GridAfter(winds, LastFirst(s)).Keys) == Normalize(GridAfter(winds, LastFirst(n)).Keys)
    && JetAfter(winds, s) == JetAfter(winds, n)
  }

  /** `TARGET / diff`: the number of whole cycles. */
  function Cycles(d: nat): nat
    requires d > 0
  {
    Target / d
  }

  /** `TARGET % diff`: the rocks left over. */
  function Remainder(d: nat): (r: nat)
    requires d > 0
    ensures r < d
  {
    Target % d
  }

  lemma DivMod(d: nat)
    requires d > 0
    ensures Remainder(d) + Cycles(d) * d == Target
  {
  }

  /** `a * k`, as `k` additions of `a`. */
  function Mul(a: int, k: nat): int
  {
    if k == 0 then 0 else Mul(a, k - 1) + a
  }

  lemma {:induction false} MulProduct(a: int, k: nat)
    ensures Mul(a, k) == a * k
  {
    if k > 0 {
      MulProduct(a, k - 1);
      assert a * k == a * (k - 1) + a;
    }
  }

  /** The growth of the tower between the visits at rocks `s` and `n`: `y_diff`. */
  ghost function Growth(winds: seq<bool>, s: nat, n: nat): int
    requires |winds| > 0
  {
    HeightAfter(winds, n) - VisitHeight(GridAfter(winds, s))
  }

  /** Line 175: the height after the leftover rocks plus the growth of one cycle times the number of cycles. */
  ghost function Extrapolated(winds: seq<bool>, s: nat, n: nat): int
    requires |winds| > 0 && s < n
  {
    HeightAfter(winds, Remainder(n - s)) + Mul(Growth(winds, s, n), Cycles(n - s))
  }

  /** Values that grow by `delta` every `d` steps from `a` on grow by `q` times `delta` every `q * d` steps. */
  lemma {:induction false} Periodic(h: nat -> int, a: nat, d: nat, delta: int, k: nat, q: nat)
    requires k >= a
    requires forall i: nat, j: nat :: a <= i && j == i + d ==> h(j) == h(i) + delta
    ensures h(k + q * d) == h(k) + Mul(delta, q)
    decreases q
  {
    if q > 0 {
      Periodic(h, a, d, delta, k, q - 1);
      var i: nat := k + (q - 1) * d;
      var j: nat := i + d;
      assert k + q * d == j;
      assert h(j) == h(i) + delta;
    }
  }

  /** Values periodic from `s` on with period `n - s` reach `h(TARGET)` by whole cycles from `h(TARGET % (n - s))`. */
  lemma Extrapolate(h: nat -> int, s: nat, n: nat, delta: int)
    requires s < n
    requires forall i: nat, j: nat :: s <= i && j == i + (n - s) ==> h(j) == h(i) + delta
    requires Remainder(n - s) >= s
    ensures h(Remainder(n - s)) + Mul(delta, Cycles(n - s)) == h(Target)
  {
    var d: nat := n - s;
    DivMod(d);
    Periodic(h, s, d, delta, Remainder(d), Cycles(d));
  }

  /**
   * The extrapolation is the height after 10^12 rocks when the heights are
   * periodic from rock `s` on with period `n - s`, and the leftover
   * `TARGET % (n - s)` already lies in the periodic part. Without that last
   * hypothesis the program's base `max_ys[TARGET % diff]` may be read before
   * the heights become periodic, and the extrapolation can then miss the
   * height after 10^12 rocks even for periodic heights; the base would then
   * have to be `h(r + diff)` with one cycle fewer.
   */
  lemma ExtrapolatedHeight(winds: seq<bool>, s: nat, n: nat)
    requires |winds| > 0 && s < n
    requires forall i: nat, j: nat :: s <= i && j == i + (n - s) ==> HeightAfter(winds, j) == HeightAfter(winds, i) + Growth(winds, s, n)
    requires Remainder(n - s) >= s
    ensures Extrapolated(winds, s, n) == HeightAfter(winds, Target)
  {
    Extrapolate((j: nat) => HeightAfter(winds, j), s, n, Growth(winds, s, n));
  }

  /** No fifth rock before rock `k` repeats the memo state of an earlier fifth rock. */
  ghost predicate NoRepeatBefore(winds: seq<bool>, k: nat)
    requires |winds| > 0
  {
    forall s: nat, n: nat :: n < k ==> !Repeat(winds, s, n)
  }

  /** Rock `n` is the first fifth rock whose memo state was seen before, at rock `s`. */
  ghost predicate FirstRepeat(winds: seq<bool>, s: nat, n: nat)
    requires |winds| > 0
  {
    Repeat(winds, s, n) && NoRepeatBefore(winds, n)
  }

  /** The answer from the repeat at rocks `s` and `n`: the extrapolation, or `None` where `max_ys[&0]` panics. */
  ghost predicate Answers(winds: seq<bool>, s: nat, n: nat, r: Option<int>)
    requires |winds| > 0 && s < n
  {
    && (r.None? <==> Remainder(n - s) == 0)
    && (r.Some? ==> r.value == Extrapolated(winds, s, n))
  }

  /** Two earlier rocks repeated at the same rock `n` repeat each other. */
  lemma RepeatShared(winds: seq<bool>, s: nat, s': nat, n: nat)
    requires |winds| > 0
    ensures Repeat(winds, s, n) && Repeat(winds, s', n) && s < s' ==> Repeat(winds, s, s')
  {
  }

  /** The first repeat is unique: no earlier fifth rock repeats, and the rock it repeats is the only earlier one with that state. */
  lemma FirstRepeatUnique(winds: seq<bool>, s: nat, n: nat, s': nat, n': nat)
    requires |winds| > 0 && FirstRepeat(winds, s, n) && FirstRepeat(winds, s', n')
    ensures s == s' && n == n'
  {
    RepeatShared(winds, s, s', n);
    RepeatShared(winds, s', s, n);
  }

  /** Answering from the first repeat answers from every first repeat, since there is only one. */
  lemma AnswersEvery(winds: seq<bool>, s: nat, n: nat, r: Option<int>)
    requires |winds| > 0 && FirstRepeat(winds, s, n) && Answers(winds, s, n, r)
    ensures forall s': nat, n': nat :: FirstRepeat(winds, s', n') ==> Answers(winds, s', n', r)
  {
    forall s': nat, n': nat | FirstRepeat(winds, s', n')
      ensures Answers(winds, s', n', r)
    {
      FirstRepeatUnique(winds, s, n, s', n');
    }
  }

  /** Unless no fifth rock before rock `k` repeats, a first repeat comes before rock `k`. */
  lemma {:induction false} FirstRepeatExists(winds: seq<bool>, k: nat)
    requires |winds| > 0 && !NoRepeatBefore(winds, k)
    ensures exists s: nat, n: nat :: n < k && FirstRepeat(winds, s, n)
  {
    var s: nat, n: nat :| n < k && Repeat(winds, s, n);
    if NoRepeatBefore(winds, n) {
      assert FirstRepeat(winds, s, n);
    } else {
      FirstRepeatExists(winds, n);
    }
  }

  /**
   * `part2`. With no repeat of a memo state before `TARGET` rocks the result
   * is the height after `TARGET` rocks; otherwise it is answered from the
   * first repeat, where `None` stands for the panic of `max_ys[&0]`. The
   * grid is never empty when a height is unwrapped (`GridNonEmpty`).
   */
  method Part2(winds: seq<bool>) returns (r: Option<int>)
    requires |winds| > 0
    ensures NoRepeatBefore(winds, Target) ==> r == Some(HeightAfter(winds, Target))
    ensures forall s: nat, n: nat :: n < Target && FirstRepeat(winds, s, n) ==> Answers(winds, s, n, r)
    ensures r.Some? ==> (r.value == HeightAfter(winds, Target) ||
      exists s: nat, n: nat :: n <= Target && Repeat(winds, s, n) && r.value == Extrapolated(winds, s, n))
  {
    var grid := new Grid(winds[0]);
    var visited: map<MemoState, (nat, int)> := map[];
    var maxYs: map<nat, int> := map[];
    var wi: nat := 0;
    var rested: nat := 0;
    var lastLine: seq<Pos> := [];
    while rested < Target
      invariant rested <= Target && wi < |winds| && grid.windDirection == winds[wi]
      invariant grid.inner == GridAfter(winds, rested) && wi == JetAfter(winds, rested)
      invariant LineKnown(winds, lastLine, rested)
      invariant HeightsKnown(winds, maxYs, rested)
      invariant VisitsKnown(winds, visited, rested)
      invariant VisitsComplete(winds, visited, rested)
      invariant NoRepeatBefore(winds, rested)
      decreases Target - rested
    {
      var found;
      found, r, lastLine, visited := Memo(winds, grid, lastLine, visited, maxYs, wi, rested);
      if found {
        ghost var s: nat :| FirstRepeat(winds, s, rested) && Answers(winds, s, rested, r);
        AnswersEvery(winds, s, rested, r);
        return;
      }
      wi := Advance(winds, grid, wi, rested);
      rested := rested + 1;
      GridNonEmpty(winds, rested);
      maxYs := RecordHeight(winds, grid, maxYs, rested);
    }
    r := Some(maxYs[rested]);
  }

  /**
   * Lines 161-190: before a first rock the snapshot is taken; before a fifth
   * rock the memo state is looked up, and either answers (`found`) from the
   * first repeat or is stored.
   */
  method Memo(winds: seq<bool>, grid: Grid, lastLine: seq<Pos>, visited: map<MemoState, (nat, int)>,
              maxYs: map<nat, int>, wi: nat, rested: nat)
    returns (found: bool, r: Option<int>, lastLine': seq<Pos>, visited': map<MemoState, (nat, int)>)
    requires |winds| > 0 && rested <= Target
    requires grid.inner == GridAfter(winds, rested) && wi == JetAfter(winds, rested)
    requires LineKnown(winds, lastLine, rested)
    requires HeightsKnown(winds, maxYs, rested)
    requires VisitsKnown(winds, visited, rested) && VisitsComplete(winds, visited, rested)
    requires NoRepeatBefore(winds, rested)
    ensures found ==> exists s: nat :: FirstRepeat(winds, s, rested) && Answers(winds, s, rested, r)
    ensures !found ==> LineKnown(winds, lastLine', rested + 1) && VisitsKnown(winds, visited', rested + 1)
    ensures !found ==> VisitsComplete(winds, visited', rested + 1) && NoRepeatBefore(winds, rested + 1)
  {
    found, r, lastLine', visited' := false, None, lastLine, visited;
    var pieceIndex := Phase(rested);
    VisitsLater(winds, visited, rested);
    if pieceIndex == 0 {
      lastLine' := SetToSortedVec(grid.inner);
    } else if pieceIndex == 4 {
      var dot := SetToSortedVec(grid.inner);
      var memo := MemoState(lastLine, dot, wi);
      if memo in visited {
        found := true;
        r := Repeated(winds, grid, visited, maxYs, memo, rested);
        assert FirstRepeat(winds, visited[memo].0, rested);
        return;
      }
      Unseen(winds, visited, memo, rested);
      visited' := Visit(winds, grid, visited, memo, rested);
      VisitsCompleteAdd(winds, visited, memo, visited'[memo].1, rested);
    }
    if pieceIndex != 4 {
      VisitsCompleteLater(winds, visited, rested);
    }
    LineNext(winds, lastLine', rested);
  }
  /** Unless the next rock is a first one, `line` is the snapshot taken before the last first rock. */
  ghost predicate LineKnown(winds: seq<bool>, line: seq<Pos>, n: nat)
    requires |winds| > 0
  {
    Phase(n) != 0 ==> IsSnapshot(line, GridAfter(winds, LastFirst(n)).Keys)
  }

  /** The snapshot taken before a first rock, or kept from before, stays the last one. */
  lemma LineNext(winds: seq<bool>, line: seq<Pos>, n: nat)
    requires |winds| > 0
    requires if Phase(n) == 0 then IsSnapshot(line, GridAfter(winds, n).Keys) else LineKnown(winds, line, n)
    ensures LineKnown(winds, line, n + 1)
  {
    LastFirstNext(n);
  }

  /** `max_ys` holds the height after each of the first `n` rocks. */
  ghost predicate HeightsKnown(winds: seq<bool>, maxYs: map<nat, int>, n: nat)
    requires |winds| > 0
  {
    && (forall k :: k in maxYs <==> 1 <= k <= n)
    && (forall k :: k in maxYs ==> maxYs[k] == HeightAfter(winds, k))
  }

  /** Every entry of `visited` is recorded before rock `n`. */
  ghost predicate VisitsKnown(winds: seq<bool>, visited: map<MemoState, (nat, int)>, n: nat)
    requires |winds| > 0
  {
    forall m :: m in visited ==> Recorded(winds, m, visited[m].0, visited[m].1, n)
  }

  lemma VisitsLater(winds: seq<bool>, visited: map<MemoState, (nat, int)>, n: nat)
    requires |winds| > 0 && VisitsKnown(winds, visited, n)
    ensures VisitsKnown(winds, visited, n + 1)
  {
  }

  /** Every fifth rock before rock `n` has its memo state in `visited`, stored at that rock. */
  ghost predicate VisitsComplete(winds: seq<bool>, visited: map<MemoState, (nat, int)>, n: nat)
    requires |winds| > 0
  {
    forall s: nat :: 4 <= s < n && Phase(s) == 4 ==> exists m :: m in visited && visited[m].0 == s
  }

  lemma VisitsCompleteLater(winds: seq<bool>, visited: map<MemoState, (nat, int)>, n: nat)
    requires |winds| > 0 && VisitsComplete(winds, visited, n) && Phase(n) != 4
    ensures VisitsComplete(winds, visited, n + 1)
  {
  }

  /** Storing a new memo state before the fifth rock `n` keeps every fifth rock's state stored. */
  lemma VisitsCompleteAdd(winds: seq<bool>, visited: map<MemoState, (nat, int)>, memo: MemoState, h: int, n: nat)
    requires |winds| > 0 && VisitsComplete(winds, visited, n) && memo !in visited
    ensures VisitsComplete(winds, visited[memo := (n, h)], n + 1)
  {
    var visited' := visited[memo := (n, h)];
    forall s: nat | 4 <= s < n + 1 && Phase(s) == 4
      ensures exists m :: m in visited' && visited'[m].0 == s
    {
      if s == n {
        assert visited'[memo].0 == s;
      } else {
        var m :| m in visited && visited[m].0 == s;
        assert m != memo && visited'[m].0 == s;
      }
    }
  }

  /** A memo state repeating that of an earlier fifth rock is in a complete memo. */
  lemma SeenIfRepeat(winds: seq<bool>, visited: map<MemoState, (nat, int)>, memo: MemoState, s: nat, n: nat)
    requires |winds| > 0 && n >= 4 && Phase(n) == 4
    requires VisitsKnown(winds, visited, n) && VisitsComplete(winds, visited, n)
    requires IsSnapshot(memo.dot, GridAfter(winds, n).Keys) && LineKnown(winds, memo.line, n)
    requires memo.windIndex == JetAfter(winds, n)
    ensures Repeat(winds, s, n) ==> memo in visited
  {
    if Repeat(winds, s, n) {
      var m :| m in visited && visited[m].0 == s;
      SnapshotUnique(m.dot, memo.dot, GridAfter(winds, s).Keys, GridAfter(winds, n).Keys);
      SnapshotUnique(m.line, memo.line, GridAfter(winds, LastFirst(s)).Keys, GridAfter(winds, LastFirst(n)).Keys);
      assert m == memo;
    }
  }

  /** A memo state not seen before the fifth rock `n` means that rock repeats no earlier one. */
  lemma Unseen(winds: seq<bool>, visited: map<MemoState, (nat, int)>, memo: MemoState, n: nat)
    requires |winds| > 0 && n >= 4 && Phase(n) == 4
    requires VisitsKnown(winds, visited, n) && VisitsComplete(winds, visited, n) && NoRepeatBefore(winds, n)
    requires IsSnapshot(memo.dot, GridAfter(winds, n).Keys) && LineKnown(winds, memo.line, n)
    requires memo.windIndex == JetAfter(winds, n) && memo !in visited
    ensures NoRepeatBefore(winds, n + 1)
  {
    forall s: nat, k: nat | k < n + 1
      ensures !Repeat(winds, s, k)
    {
      if k == n {
        SeenIfRepeat(winds, visited, memo, s, n);
      }
    }
  }

  /** Lines 178-189: the memo state before a fifth rock is stored with the rock count and the height. */
  method Visit(winds: seq<bool>, grid: Grid, visited: map<MemoState, (nat, int)>, memo: MemoState, rested: nat)
    returns (visited': map<MemoState, (nat, int)>)
    requires |winds| > 0 && rested >= 4 && Phase(rested) == 4
    requires grid.inner == GridAfter(winds, rested) && memo.windIndex == JetAfter(winds, rested)
    requires LineKnown(winds, memo.line, rested)
    requires IsSnapshot(memo.dot, GridAfter(winds, rested).Keys)
    requires VisitsKnown(winds, visited, rested + 1)
    ensures VisitsKnown(winds, visited', rested + 1)
    ensures visited' == visited[memo := (rested, VisitHeight(GridAfter(winds, rested)))]
  {
    var height := 1;
    if grid.inner != map[] {
      var top := TopY(grid.inner.Keys);
      height := top + 1;
    }
    visited' := visited[memo := (rested, height)];
    VisitsAdd(winds, visited, memo, rested, height, rested + 1);
  }

  /** A new entry recorded before rock `n` keeps every entry recorded. */
  lemma VisitsAdd(winds: seq<bool>, visited: map<MemoState, (nat, int)>, memo: MemoState, s: nat, h: int, n: nat)
    requires |winds| > 0 && VisitsKnown(winds, visited, n) && Recorded(winds, memo, s, h, n)
    ensures VisitsKnown(winds, visited[memo := (s, h)], n)
  {
  }

  /** Lines 219-222: the height after `k` rocks is recorded; the grid holds cells, so the `unwrap` does not panic. */
  method RecordHeight(winds: seq<bool>, grid: Grid, maxYs: map<nat, int>, k: nat) returns (maxYs': map<nat, int>)
    requires |winds| > 0 && k >= 1
    requires grid.inner == GridAfter(winds, k) && grid.inner != map[]
    requires HeightsKnown(winds, maxYs, k - 1)
    ensures HeightsKnown(winds, maxYs', k)
    ensures maxYs' == maxYs[k := HeightAfter(winds, k)]
  {
    var top := TopY(grid.inner.Keys);
    maxYs' := maxYs[k := top + 1];
  }

  /** Lines 204-218: rock number `k` falls, then the rows below the highest full row are dropped. */
  method Advance(winds: seq<bool>, grid: Grid, wi: nat, k: nat) returns (wi': nat)
    requires |winds| > 0 && wi < |winds| && grid.windDirection == winds[wi]
    requires grid.inner == GridAfter(winds, k) && wi == JetAfter(winds, k)
    modifies grid
    ensures wi' < |winds| && grid.windDirection == winds[wi']
    ensures grid.inner == GridAfter(winds, k + 1) && wi' == JetAfter(winds, k + 1)
  {
    wi' := grid.Place(winds, wi, k);
    ghost var f := (grid.inner, wi');
    Prune(grid);
    Tower2Step(winds, k, f);
  }

  /**
   * Lines 170-176: the answer from a memo state seen before: the extrapolation
   * from the rock it was stored at, or `None` when the leftover is 0 and
   * `max_ys[&0]` panics.
   */
  method Repeated(winds: seq<bool>, grid: Grid, visited: map<MemoState, (nat, int)>, maxYs: map<nat, int>,
                  memo: MemoState, rested: nat) returns (r: Option<int>)
    requires |winds| > 0 && rested <= Target && rested >= 4 && Phase(rested) == 4
    requires grid.inner == GridAfter(winds, rested) && memo.windIndex == JetAfter(winds, rested)
    requires LineKnown(winds, memo.line, rested)
    requires IsSnapshot(memo.dot, GridAfter(winds, rested).Keys)
    requires HeightsKnown(winds, maxYs, rested)
    requires memo in visited && Recorded(winds, memo, visited[memo].0, visited[memo].1, rested)
    ensures Repeat(winds, visited[memo].0, rested) && Answers(winds, visited[memo].0, rested, r)
  {
    var restedSrc, maxYSrc := visited[memo].0, visited[memo].1;
    RepeatFound(winds, memo, restedSrc, maxYSrc, rested);
    var diff := rested - restedSrc;
    var top := TopY(grid.inner.Keys);
    var yDiff := top + 1 - maxYSrc;
    var realTarget := Remainder(diff);
    if realTarget !in maxYs {
      return None;
    }
    var factor := Cycles(diff);
    r := Some(maxYs[realTarget] + yDiff * factor);
    MulProduct(yDiff, factor);
    ExtrapolatedIs(winds, restedSrc, rested, maxYs[realTarget], yDiff, r.value);
  }

  /** A memo state met again at rock `n` after it was stored at rock `s` is a repeat. */
  lemma RepeatFound(winds: seq<bool>, memo: MemoState, s: nat, h: int, n: nat)
    requires |winds| > 0 && Phase(n) == 4
    requires Recorded(winds, memo, s, h, n)
    requires LineKnown(winds, memo.line, n)
    requires IsSnapshot(memo.dot, GridAfter(winds, n).Keys)
    requires memo.windIndex == JetAfter(winds, n)
    ensures Repeat(winds, s, n)
  {
    SameSnapshot(memo.dot, GridAfter(winds, s).Keys, GridAfter(winds, n).Keys);
    SameSnapshot(memo.line, GridAfter(winds, LastFirst(s)).Keys, GridAfter(winds, LastFirst(n)).Keys);
  }

  lemma ExtrapolatedIs(winds: seq<bool>, s: nat, n: nat, base: int, yDiff: int, v: int)
    requires |winds| > 0 && s < n
    requires base == HeightAfter(winds, Remainder(n - s)) && yDiff == Growth(winds, s, n)
    requires v == base + Mul(yDiff, Cycles(n - s))
    ensures v == Extrapolated(winds, s, n)
  {
  }
}
