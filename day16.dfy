/**
 * Day 16 (src/days/day16.rs): valves in a tunnel network. Every valve with
 * a positive flow rate gets the distance to every other such valve by a
 * breadth-first `dijkstra` over unit tunnels; then `move_valve` searches,
 * with a memo, for the order of openings that releases the most pressure
 * in 30 minutes, or in 26 minutes with an elephant that starts over from
 * `AA` once its partner stops.
 *
 * `Best` is the value `move_valve` computes, stated as plain recursion;
 * `PlanValue` is an independent reading of the puzzle (the pressure of a
 * given route), and `Best` is proved to be the greatest value of a route.
 * The memoised method is proved to return `Best`.
 */
module Day16 {
  import opened Wrappers
  import opened BitSets
  import Search

  /** `i32::MAX`, the distance of a valve `dijkstra` never reaches. */
  const IntMax: int := 0x7fff_ffff

  /** `Neighbor`: a valve worth opening, its flow rate and the minutes to walk there. */
  datatype Neighbor = Neighbor(key: nat, gain: int, cost: int)

  /** `Node`: a valve, its tunnels as keys, and (after part 1's set-up) its worthwhile neighbours. */
  datatype Node = Node(key: nat, name: string, linkedNodes: seq<nat>, flowRate: int, parsedNeighbors: seq<Neighbor>)

  /** `Map`: the valves by key, and the key of `AA`. */
  datatype ValveMap = ValveMap(nodes: map<nat, Node>, aaKey: nat)

  function Max(a: int, b: int): int
  {
    if a < b then b else a
  }

  // ---- Parsing ----

  /** One line after the regex: the valve's name, its flow rate and the names its tunnels lead to. */
  datatype Reading = Reading(name: string, flowRate: nat, tunnels: seq<string>)

  predicate DistinctNames(rs: seq<Reading>)
  {
    forall i, j :: 0 <= i < j < |rs| ==> rs[i].name != rs[j].name
  }

  /** `name_map`: each name to the number of its line. */
  function NameMap(rs: seq<Reading>): (names: map<string, nat>)
    requires DistinctNames(rs)
    ensures forall i :: 0 <= i < |rs| ==> rs[i].name in names && names[rs[i].name] == i
    ensures Names(rs, names)
  {
    map i | 0 <= i < |rs| :: rs[i].name := i
  }

  /** `name_map[s]` for every tunnel; `None` where the lookup panics. */
  function Resolve(names: map<string, nat>, tunnels: seq<string>): (r: Option<seq<nat>>)
    ensures r.Some? <==> forall t :: t in tunnels ==> t in names
    ensures r.Some? ==> |r.value| == |tunnels| && forall j :: 0 <= j < |tunnels| ==> r.value[j] == names[tunnels[j]]
  {
    if tunnels == [] then Some([])
    else if tunnels[0] !in names then None
    else
      match Resolve(names, tunnels[1..])
      case None => None
      case Some(rest) => Some([names[tunnels[0]]] + rest)
  }

  /** Every tunnel of every line leads to a named valve. */
  predicate AllResolve(rs: seq<Reading>, names: map<string, nat>)
  {
    forall i :: 0 <= i < |rs| ==> Resolve(names, rs[i].tunnels).Some?
  }

  /** Every name maps to the line of that name. */
  predicate Names(rs: seq<Reading>, names: map<string, nat>)
  {
    forall s :: s in names ==> names[s] < |rs| && rs[names[s]].name == s
  }

  /** The node of every line, under its line number, its tunnels resolved. */
  function Nodes(rs: seq<Reading>, names: map<string, nat>): (nodes: map<nat, Node>)
    requires Names(rs, names) && AllResolve(rs, names)
    ensures forall k :: k in nodes <==> 0 <= k < |rs|
    ensures forall k :: 0 <= k < |rs| ==>
      var node := nodes[k];
      node.key == k && node.name == rs[k].name && node.flowRate == rs[k].flowRate && node.parsedNeighbors == []
      && |node.linkedNodes| == |rs[k].tunnels|
      && forall j :: 0 <= j < |rs[k].tunnels| ==>
        node.linkedNodes[j] < |rs| && rs[node.linkedNodes[j]].name == rs[k].tunnels[j]
  {
    map k | 0 <= k < |rs| :: Node(k, rs[k].name, Resolve(names, rs[k].tunnels).value, rs[k].flowRate, [])
  }

  /**
   * The shape `parse` gives the map: keys `0..n`, each node under its own
   * key, tunnels to keys of the map, `AA` present, no negative flow rate.
   */
  predicate Keyed(v: ValveMap, n: nat)
  {
    && (forall k :: k in v.nodes ==> k < n)
    && (forall k :: 0 <= k < n ==> k in v.nodes)
    && v.aaKey in v.nodes
    && forall k :: k in v.nodes ==>
      && v.nodes[k].key == k
      && v.nodes[k].flowRate >= 0
      && forall j :: 0 <= j < |v.nodes[k].linkedNodes| ==> v.nodes[k].linkedNodes[j] < n
  }

  /**
   * `BitSet` shifts `1` by the key, so the valves worth opening need keys
   * below 64 (`1 << 64` overflows).
   */
  predicate Fits(v: ValveMap)
  {
    forall k :: k in v.nodes && v.nodes[k].flowRate > 0 ==> k < 64
  }

  // ---- Distances ----

  /** The tunnels of every key, as the graph `dijkstra` walks. */
  function Links(v: ValveMap, n: nat): (g: seq<seq<nat>>)
    requires Keyed(v, n)
    ensures |g| == n && Graph(g)
    ensures forall k :: 0 <= k < n ==> g[k] == v.nodes[k].linkedNodes
  {
    seq(n, k requires 0 <= k < n => v.nodes[k].linkedNodes)
  }

  /** Every tunnel leads to a key of the graph. */
  predicate Graph(g: seq<seq<nat>>)
  {
    forall u, j :: 0 <= u < |g| && 0 <= j < |g[u]| ==> g[u][j] < |g|
  }

  function Next(g: seq<seq<nat>>): nat -> seq<nat>
  {
    (u: nat) => if u < |g| then g[u] else []
  }

  /** The valves within `k` tunnels of `source`. */
  ghost function Reach(g: seq<seq<nat>>, source: nat, k: nat): set<nat>
  {
    Search.Reach(Next(g), source, k)
  }

  /**
   * The least number of tunnels from `source` to `v`, from `k` on; `i32::MAX`
   * when no number below it will do, `dijkstra`'s value for an unreached valve.
   */
  ghost function HopsFrom(g: seq<seq<nat>>, source: nat, v: nat, k: nat): (r: int)
    ensures k <= r <= IntMax || (k > IntMax && r == IntMax)
    ensures r < IntMax ==> v in Reach(g, source, r)
    ensures forall j: nat :: k <= j < r && j < IntMax ==> v !in Reach(g, source, j)
    decreases IntMax - k
  {
    if k >= IntMax then IntMax
    else if v in Reach(g, source, k) then k
    else HopsFrom(g, source, v, k + 1)
  }

  /** The hop count of every valve, the distances `dijkstra` settles on. */
  ghost function Hops(g: seq<seq<nat>>, source: nat): (r: seq<int>)
    ensures |r| == |g|
    ensures forall v :: 0 <= v < |g| ==> 0 <= r[v] <= IntMax
    ensures forall v :: 0 <= v < |g| && r[v] < IntMax ==> v in Reach(g, source, r[v])
    ensures forall v, j: nat :: 0 <= v < |g| && j < r[v] && j < IntMax ==> v !in Reach(g, source, j)
  {
    seq(|g|, v requires 0 <= v < |g| => HopsFrom(g, source, v, 0))
  }

  /** One tunnel more reaches one step further. */
  lemma ReachStep(g: seq<seq<nat>>, source: nat, k: nat, u: nat, j: nat)
    requires u < |g| && j < |g[u]| && u in Reach(g, source, k)
    ensures g[u][j] in Reach(g, source, k + 1)
  {
    Search.InSucc(Next(g), Search.Reach(Next(g), source, k), u, g[u][j]);
  }

  /** The sum of `s` from `i` on, the measure that bounds the relaxations. */
  function SumFrom(s: seq<int>, i: nat): int
    requires i <= |s|
    decreases |s| - i
  {
    if i == |s| then 0 else s[i] + SumFrom(s, i + 1)
  }

  function Sum(s: seq<int>): int
  {
    SumFrom(s, 0)
  }

  lemma {:induction false} SumFromUpdate(s: seq<int>, i: nat, k: nat, x: int)
    requires i <= |s| && k < |s|
    ensures SumFrom(s[k := x], i) == if i <= k then SumFrom(s, i) - s[k] + x else SumFrom(s, i)
    decreases |s| - i
  {
    if i < |s| {
      SumFromUpdate(s, i + 1, k, x);
    }
  }

  lemma SumUpdate(s: seq<int>, k: nat, x: int)
    requires k < |s|
    ensures Sum(s[k := x]) == Sum(s) - s[k] + x
  {
    SumFromUpdate(s, 0, k, x);
  }

  lemma {:induction false} SumFromNonNegative(s: seq<int>, i: nat)
    requires i <= |s| && forall j :: 0 <= j < |s| ==> s[j] >= 0
    ensures SumFrom(s, i) >= 0
    decreases |s| - i
  {
    if i < |s| {
      SumFromNonNegative(s, i + 1);
    }
  }

  lemma SumNonNegative(s: seq<int>)
    requires forall j :: 0 <= j < |s| ==> s[j] >= 0
    ensures Sum(s) >= 0
  {
    SumFromNonNegative(s, 0);
  }

  /** The order `BinaryHeap<Reverse<(i32, u16)>>` pops in: least cost first, then least key. */
  predicate EntryLe(a: (int, nat), b: (int, nat))
  {
    a.0 < b.0 || (a.0 == b.0 && a.1 <= b.1)
  }

  lemma {:induction false} MinExists(heap: multiset<(int, nat)>) returns (e: (int, nat))
    requires |heap| > 0
    ensures e in heap && forall f :: f in heap ==> EntryLe(e, f)
    decreases |heap|
  {
    var x :| x in heap;
    var rest := heap - multiset{x};
    if rest == multiset{} {
      assert heap == multiset{x};
      e := x;
    } else {
      var m := MinExists(rest);
      e := if EntryLe(x, m) then x else m;
      forall f | f in heap ensures EntryLe(e, f) {
        if f != x {
          assert f in rest;
        }
      }
    }
  }

  /** What `dijkstra` keeps: every finite distance is walked, and every heap entry is at or above its distance. */
  ghost predicate Sound(g: seq<seq<nat>>, source: nat, dist: seq<int>, heap: multiset<(int, nat)>)
  {
    && |dist| == |g| && source < |g| && dist[source] == 0
    && (forall v :: 0 <= v < |g| ==> dist[v] == IntMax || (0 <= dist[v] < IntMax && v in Reach(g, source, dist[v])))
    && (forall v :: 0 <= v < |g| ==> 0 <= dist[v] <= IntMax)
    && forall e :: e in heap ==> e.1 < |g| && 0 <= dist[e.1] <= e.0 < IntMax
  }

  /**
   * Every tunnel out of a reached valve is relaxed, except out of a valve
   * still waiting in the heap at its distance, and the tunnels of
   * `node` from `from` on.
   */
  ghost predicate Relaxed(g: seq<seq<nat>>, dist: seq<int>, heap: multiset<(int, nat)>, node: int, from: nat)
    requires |dist| == |g| && Graph(g)
  {
    forall u, j :: 0 <= u < |g| && 0 <= j < |g[u]| && dist[u] != IntMax ==>
      dist[g[u][j]] <= dist[u] + 1 || (dist[u], u) in heap || (u == node && j >= from)
  }

  /** Every tunnel out of a reached valve is relaxed. */
  ghost predicate AllRelaxed(g: seq<seq<nat>>, dist: seq<int>)
    requires |dist| == |g| && Graph(g)
  {
    forall u, j :: 0 <= u < |g| && 0 <= j < |g[u]| && dist[u] != IntMax ==> dist[g[u][j]] <= dist[u] + 1
  }

  /**
   * `dijkstra` over unit tunnels: every valve ends with its hop count from
   * `source`, and an unreached one with `i32::MAX`.
   */
  method Dijkstra(g: seq<seq<nat>>, source: nat) returns (dist: seq<int>)
    requires Graph(g) && source < |g|
    ensures dist == Hops(g, source)
  {
    dist := seq(|g|, v => IntMax)[source := 0];
    var heap: multiset<(int, nat)> := multiset{(0, source)};
    assert Sound(g, source, dist, heap);
    SumNonNegative(dist);
    while |heap| > 0
      invariant Sound(g, source, dist, heap) && Relaxed(g, dist, heap, -1, 0)
      invariant Sum(dist) >= 0
      decreases Sum(dist) + |heap|
    {
      ghost var _ := MinExists(heap);
      var e :| e in heap && forall f :: f in heap ==> EntryLe(e, f);
      Popped(g, source, dist, heap, e);
      heap := heap - multiset{e};
      var (cost, node) := e;
      if cost > dist[node] {
        continue;
      }
      dist, heap := Settle(g, source, dist, heap, node);
      SumNonNegative(dist);
    }
    assert heap == multiset{};
    DistIsHops(g, source, dist);
  }

  /** Taking an entry out of the heap leaves its valve's tunnels to be relaxed, and no other. */
  lemma Popped(g: seq<seq<nat>>, source: nat, dist: seq<int>, heap: multiset<(int, nat)>, e: (int, nat))
    requires Graph(g) && Sound(g, source, dist, heap) && Relaxed(g, dist, heap, -1, 0) && e in heap
    ensures Sound(g, source, dist, heap - multiset{e})
    ensures Relaxed(g, dist, heap - multiset{e}, e.1, 0)
    ensures e.0 != dist[e.1] ==> Relaxed(g, dist, heap - multiset{e}, -1, 0)
  {
  }

  /** The `for neighbor in linked_nodes` loop: relaxes every tunnel out of `node`. */
  method Settle(g: seq<seq<nat>>, source: nat, dist: seq<int>, heap: multiset<(int, nat)>, node: nat)
    returns (dist': seq<int>, heap': multiset<(int, nat)>)
    requires Graph(g) && Sound(g, source, dist, heap) && node < |g| && dist[node] < IntMax
    requires Relaxed(g, dist, heap, node, 0)
    ensures Sound(g, source, dist', heap') && Relaxed(g, dist', heap', -1, 0)
    ensures Sum(dist') + |heap'| <= Sum(dist) + |heap|
  {
    dist', heap' := dist, heap;
    for j := 0 to |g[node]|
      invariant Sound(g, source, dist', heap') && dist'[node] == dist[node]
      invariant Relaxed(g, dist', heap', node, j)
      invariant Sum(dist') + |heap'| <= Sum(dist) + |heap|
    {
      dist', heap' := Relax(g, source, dist', heap', node, j);
    }
  }

  /** One `if next.0 < distances[neighbor]` step: relaxes the `j`-th tunnel out of `node`. */
  method Relax(g: seq<seq<nat>>, source: nat, dist: seq<int>, heap: multiset<(int, nat)>, node: nat, j: nat)
    returns (dist': seq<int>, heap': multiset<(int, nat)>)
    requires Graph(g) && Sound(g, source, dist, heap) && node < |g| && j < |g[node]| && dist[node] < IntMax
    requires Relaxed(g, dist, heap, node, j)
    ensures Sound(g, source, dist', heap') && dist'[node] == dist[node]
    ensures Relaxed(g, dist', heap', node, j + 1)
    ensures Sum(dist') + |heap'| <= Sum(dist) + |heap|
  {
    var cost := dist[node];
    var neighbor := g[node][j];
    if cost + 1 < dist[neighbor] {
      dist' := dist[neighbor := cost + 1];
      heap' := heap + multiset{(cost + 1, neighbor)};
      Lowered(g, source, dist, heap, node, j, dist', heap');
    } else {
      dist', heap' := dist, heap;
    }
  }

  /** Lowering the distance of `g[node][j]` to one past `node`'s and queueing it keeps every invariant of the loop. */
  lemma Lowered(g: seq<seq<nat>>, source: nat, dist: seq<int>, heap: multiset<(int, nat)>, node: nat, j: nat,
                dist': seq<int>, heap': multiset<(int, nat)>)
    requires Graph(g) && Sound(g, source, dist, heap) && node < |g| && j < |g[node]| && dist[node] < IntMax
    requires Relaxed(g, dist, heap, node, j) && dist[node] + 1 < dist[g[node][j]]
    requires dist' == dist[g[node][j] := dist[node] + 1] && heap' == heap + multiset{(dist[node] + 1, g[node][j])}
    ensures Sound(g, source, dist', heap') && dist'[node] == dist[node]
    ensures Relaxed(g, dist', heap', node, j + 1)
    ensures Sum(dist') + |heap'| <= Sum(dist) + |heap|
  {
    SumUpdate(dist, g[node][j], dist[node] + 1);
    LoweredSound(g, source, dist, heap, node, j);
    LoweredRelaxed(g, dist, heap, node, j);
  }

  /** Lowering the distance of `g[node][j]` to one past `node`'s and queueing it keeps `Sound`. */
  lemma LoweredSound(g: seq<seq<nat>>, source: nat, dist: seq<int>, heap: multiset<(int, nat)>, node: nat, j: nat)
    requires Graph(g) && Sound(g, source, dist, heap) && node < |g| && j < |g[node]| && dist[node] < IntMax
    requires dist[node] + 1 < dist[g[node][j]]
    ensures Sound(g, source, dist[g[node][j] := dist[node] + 1], heap + multiset{(dist[node] + 1, g[node][j])})
  {
    ReachStep(g, source, dist[node], node, j);
  }

  /** Lowering the distance of `g[node][j]` to one past `node`'s and queueing it relaxes that tunnel. */
  lemma LoweredRelaxed(g: seq<seq<nat>>, dist: seq<int>, heap: multiset<(int, nat)>, node: nat, j: nat)
    requires Graph(g) && |dist| == |g| && node < |g| && j < |g[node]| && dist[node] < IntMax
    requires Relaxed(g, dist, heap, node, j) && dist[node] + 1 < dist[g[node][j]]
    ensures Relaxed(g, dist[g[node][j] := dist[node] + 1], heap + multiset{(dist[node] + 1, g[node][j])}, node, j + 1)
  {
    var n := g[node][j];
    var dist' := dist[n := dist[node] + 1];
    var heap' := heap + multiset{(dist[node] + 1, n)};
    forall u, i | 0 <= u < |g| && 0 <= i < |g[u]| && dist'[u] != IntMax
      ensures dist'[g[u][i]] <= dist'[u] + 1 || (dist'[u], u) in heap' || (u == node && i >= j + 1)
    {
      if u == n {
        assert (dist'[u], u) in heap';
      } else if u == node && i == j {
      } else if dist[g[u][i]] <= dist[u] + 1 {
      } else {
        assert (dist[u], u) in heap || (u == node && i >= j);
      }
    }
  }

  /** With the heap empty, every tunnel is relaxed, and the distances are the hop counts. */
  lemma DistIsHops(g: seq<seq<nat>>, source: nat, dist: seq<int>)
    requires Graph(g) && Sound(g, source, dist, multiset{}) && Relaxed(g, dist, multiset{}, -1, 0)
    ensures dist == Hops(g, source)
  {
    var h := Hops(g, source);
    assert AllRelaxed(g, dist);
    forall v | 0 <= v < |g| ensures dist[v] == h[v] {
      if h[v] < IntMax {
        WithinReach(g, source, dist, h[v], v);
      }
      if dist[v] < IntMax {
        assert v in Reach(g, source, dist[v]);
      }
    }
  }

  /** Relaxed distances are at most the hop count: a valve `k` tunnels away has distance at most `k`. */
  lemma {:induction false} WithinReach(g: seq<seq<nat>>, source: nat, dist: seq<int>, k: nat, v: nat)
    requires Graph(g) && |dist| == |g| && source < |g| && dist[source] == 0 && AllRelaxed(g, dist)
    requires k < IntMax && v in Reach(g, source, k)
    ensures v < |g| && dist[v] <= k
    decreases k
  {
    if k == 0 {
      assert v == source;
    } else {
      var u := ReachBack(g, source, k, v);
      WithinReach(g, source, dist, k - 1, u);
      if u != v {
        RelaxedEdge(g, dist, u, v);
      }
    }
  }

  /** A valve within `k > 0` tunnels is within `k - 1`, or one tunnel from a valve that is. */
  lemma ReachBack(g: seq<seq<nat>>, source: nat, k: nat, v: nat) returns (u: nat)
    requires k > 0 && v in Reach(g, source, k)
    ensures u in Reach(g, source, k - 1) && (u == v || v in Next(g)(u))
  {
    var prev := Search.Reach(Next(g), source, k - 1);
    if v in prev {
      u := v;
    } else {
      u := Search.SuccSource(Next(g), prev, v);
    }
  }

  /** A relaxed tunnel from `u` to `v` leaves `v` at most one further than `u`. */
  lemma RelaxedEdge(g: seq<seq<nat>>, dist: seq<int>, u: nat, v: nat)
    requires Graph(g) && |dist| == |g| && AllRelaxed(g, dist)
    requires u < |g| && dist[u] < IntMax && v in Next(g)(u)
    ensures v < |g| && dist[v] <= dist[u] + 1
  {
    assert v in g[u];
    var j :| 0 <= j < |g[u]| && g[u][j] == v;
  }

  // ---- The worthwhile neighbours ----

  /** The valves part 1 and part 2 keep: `AA` and those with a positive flow rate. */
  predicate Kept(v: ValveMap, k: nat)
    requires k in v.nodes
  {
    k == v.aaKey || v.nodes[k].flowRate > 0
  }

  /**
   * `parsed_neighbors` from the distances of `parent`, over the keys from
   * `d` on: other valves with a positive flow rate, at their distance.
   */
  function NeighborsOf(v: ValveMap, parent: nat, dist: seq<int>, d: nat): (r: seq<Neighbor>)
    requires Keyed(v, |dist|) && d <= |dist|
    ensures forall i :: 0 <= i < |r| ==>
      var nb := r[i];
      d <= nb.key < |dist| && nb.key != parent && v.nodes[nb.key].flowRate > 0
      && nb.gain == v.nodes[nb.key].flowRate && nb.cost == dist[nb.key]
    decreases |dist| - d
  {
    if d == |dist| then []
    else
      var rest := NeighborsOf(v, parent, dist, d + 1);
      if d != parent && v.nodes[d].flowRate > 0 then [Neighbor(d, v.nodes[d].flowRate, dist[d])] + rest
      else rest
  }

  /** `NeighborsOf` leaves out no valve with a positive flow rate other than `parent`. */
  lemma {:induction false} NeighborsComplete(v: ValveMap, parent: nat, dist: seq<int>, d: nat, k: nat)
    requires Keyed(v, |dist|) && d <= k < |dist| && k != parent && v.nodes[k].flowRate > 0
    ensures exists i :: 0 <= i < |NeighborsOf(v, parent, dist, d)| && NeighborsOf(v, parent, dist, d)[i].key == k
    decreases |dist| - d
  {
    var r := NeighborsOf(v, parent, dist, d);
    if k == d {
      assert r[0].key == k;
    } else {
      NeighborsComplete(v, parent, dist, d + 1, k);
      var rest := NeighborsOf(v, parent, dist, d + 1);
      var i :| 0 <= i < |rest| && rest[i].key == k;
      if d != parent && v.nodes[d].flowRate > 0 {
        assert r[i + 1] == rest[i];
      } else {
        assert r[i] == rest[i];
      }
    }
  }

  /** A valve with its neighbours at the distances `dist`. */
  function WithNeighbors(v: ValveMap, k: nat, dist: seq<int>): Node
    requires Keyed(v, |dist|) && k in v.nodes
  {
    v.nodes[k].(parsedNeighbors := NeighborsOf(v, k, dist, 0))
  }

  /** The hop counts from every kept valve, the `known_paths` of the set-up. */
  ghost function HopsTable(v: ValveMap, n: nat): (paths: map<nat, seq<int>>)
    requires Keyed(v, n)
    ensures forall k :: k in paths ==> k in v.nodes && |paths[k]| == n
  {
    map k | 0 <= k < n && Kept(v, k) :: Hops(Links(v, n), k)
  }

  /** The valves with distances in `paths`, each with its neighbours at those distances. */
  function Assemble(v: ValveMap, n: nat, paths: map<nat, seq<int>>): ValveMap
    requires Keyed(v, n) && forall k :: k in paths ==> k in v.nodes && |paths[k]| == n
  {
    ValveMap(map k | k in paths :: WithNeighbors(v, k, paths[k]), v.aaKey)
  }

  /** The map `move_valve` runs on: the kept valves, each with its neighbours at their hop counts. */
  ghost function Prepared(v: ValveMap, n: nat): ValveMap
    requires Keyed(v, n)
  {
    Assemble(v, n, HopsTable(v, n))
  }

  /** The first loop of the set-up: `dijkstra` from each kept valve. */
  method KnownPaths(v: ValveMap, n: nat) returns (knownPaths: map<nat, seq<int>>)
    requires Keyed(v, n)
    ensures knownPaths == HopsTable(v, n)
  {
    var g := Links(v, n);
    knownPaths := map[];
    for k := 0 to n
      invariant forall j :: j in knownPaths <==> 0 <= j < k && Kept(v, j)
      invariant forall j :: j in knownPaths ==> knownPaths[j] == Hops(g, j)
    {
      if Kept(v, k) {
        var dist := Dijkstra(g, k);
        knownPaths := knownPaths[k := dist];
      }
    }
    assert knownPaths.Keys == HopsTable(v, n).Keys;
  }

  /**
   * The set-up of `part1` and `part2`: `dijkstra` from each kept valve, then
   * its neighbours from those distances, gathered into the new map.
   */
  method Prepare(v: ValveMap, n: nat) returns (m: ValveMap)
    requires Keyed(v, n)
    ensures m == Prepared(v, n)
  {
    var knownPaths := KnownPaths(v, n);
    m := AttachNeighbors(v, n, knownPaths);
  }

  /** The second loop of the set-up: each kept valve gets its neighbours from its distances. */
  method AttachNeighbors(v: ValveMap, n: nat, knownPaths: map<nat, seq<int>>) returns (m: ValveMap)
    requires Keyed(v, n) && forall k :: k in knownPaths ==> k in v.nodes && |knownPaths[k]| == n
    ensures m == Assemble(v, n, knownPaths)
  {
    var nodes: map<nat, Node> := map[];
    for k := 0 to n
      invariant forall j :: j in nodes <==> 0 <= j < k && j in knownPaths
      invariant forall j :: j in nodes ==> nodes[j] == WithNeighbors(v, j, knownPaths[j])
    {
      if k in knownPaths {
        nodes := nodes[k := WithNeighbors(v, k, knownPaths[k])];
      }
    }
    assert nodes.Keys == knownPaths.Keys;
    m := ValveMap(nodes, v.aaKey);
  }

  /** Neighbours `move_valve` can follow: kept valves with keys a `BitSet` holds, at a non-negative cost. */
  predicate NeighborsOk(m: ValveMap, nbs: seq<Neighbor>)
  {
    forall i :: 0 <= i < |nbs| ==> nbs[i].key in m.nodes && nbs[i].key < 64 && nbs[i].cost >= 0
  }

  /** What `move_valve` needs of its map. */
  predicate Ready(m: ValveMap)
  {
    m.aaKey in m.nodes
    && forall k :: k in m.nodes ==> m.nodes[k].flowRate >= 0 && NeighborsOk(m, m.nodes[k].parsedNeighbors)
  }

  lemma PreparedReady(v: ValveMap, n: nat)
    requires Keyed(v, n) && Fits(v)
    ensures Ready(Prepared(v, n))
  {
    var m := Prepared(v, n);
    forall k | k in m.nodes ensures NeighborsOk(m, m.nodes[k].parsedNeighbors) {
      var nbs := m.nodes[k].parsedNeighbors;
      forall i | 0 <= i < |nbs| ensures nbs[i].key in m.nodes && nbs[i].key < 64 && nbs[i].cost >= 0 {
        assert Kept(v, nbs[i].key);
      }
    }
  }

  // ---- The search ----

  function OptMax(a: Option<int>, b: Option<int>): Option<int>
  {
    if a.None? then b else if b.None? then a else Some(Max(a.value, b.value))
  }

  /**
   * `move_valve`: nothing with at most one minute left; otherwise this
   * valve's flow over the minutes left, plus the best of going on to an
   * unvisited neighbour reachable in time (0 if none), or, for player 1,
   * of handing over to the elephant at `AA` with 26 minutes.
   */
  function Best(m: ValveMap, key: nat, minutes: int, player: nat, visited: BitSet): (r: int)
    requires Ready(m) && key in m.nodes && player <= 1
    ensures r >= 0
    decreases player, minutes, 1
  {
    if minutes <= 1 then 0
    else
      var node := m.nodes[key];
      var children := ChildrenMax(m, node.parsedNeighbors, minutes, player, visited, 0);
      var score := if children.None? then 0 else children.value;
      var score' := if player != 0 then Max(score, Best(m, m.aaKey, 26, 0, visited)) else score;
      node.flowRate * minutes + score'
  }

  /** The `filter(..).map(..).max()` of `move_valve` over the neighbours from `i` on. */
  function ChildrenMax(m: ValveMap, nbs: seq<Neighbor>, minutes: int, player: nat, visited: BitSet, i: nat): (r: Option<int>)
    requires Ready(m) && NeighborsOk(m, nbs) && player <= 1 && i <= |nbs|
    ensures r.Some? ==> r.value >= 0
    decreases player, minutes, 0, |nbs| - i
  {
    if i == |nbs| then None
    else
      var rest := ChildrenMax(m, nbs, minutes, player, visited, i + 1);
      var nb := nbs[i];
      if nb.cost < minutes && !visited.Contains(nb.key) then
        OptMax(Some(Best(m, nb.key, minutes - 1 - nb.cost, player, visited.Insert(nb.key))), rest)
      else rest
  }

  /**
   * A route: stop, walk to the `index`-th neighbour and open it, or (player
   * 1 only) leave the rest to the elephant.
   */
  datatype Plan = Stop | Open(index: nat, rest: Plan) | HandOver(elephant: Plan)

  /** A route that only opens closed valves reachable before time runs out. */
  predicate ValidPlan(m: ValveMap, key: nat, minutes: int, player: nat, visited: BitSet, p: Plan)
    requires Ready(m) && key in m.nodes && player <= 1
    decreases p
  {
    var nbs := m.nodes[key].parsedNeighbors;
    match p
    case Stop => true
    case Open(i, rest) =>
      minutes > 1 && i < |nbs| && nbs[i].cost < minutes && !visited.Contains(nbs[i].key)
      && ValidPlan(m, nbs[i].key, minutes - 1 - nbs[i].cost, player, visited.Insert(nbs[i].key), rest)
    case HandOver(e) => minutes > 1 && player == 1 && ValidPlan(m, m.aaKey, 26, 0, visited, e)
  }

  /** The pressure a route releases: each valve's flow times the minutes left when it is reached. */
  function PlanValue(m: ValveMap, key: nat, minutes: int, player: nat, visited: BitSet, p: Plan): int
    requires Ready(m) && key in m.nodes && player <= 1
    decreases p
  {
    var nbs := m.nodes[key].parsedNeighbors;
    if minutes <= 1 then 0
    else
      m.nodes[key].flowRate * minutes +
      match p
      case Stop => 0
      case Open(i, rest) =>
        if i < |nbs| && nbs[i].key < 64 then
          PlanValue(m, nbs[i].key, minutes - 1 - nbs[i].cost, player, visited.Insert(nbs[i].key), rest)
        else 0
      case HandOver(e) => PlanValue(m, m.aaKey, 26, 0, visited, e)
  }

  lemma {:induction false} ChildBelowMax(m: ValveMap, nbs: seq<Neighbor>, minutes: int, player: nat, visited: BitSet, j: nat, i: nat)
    requires Ready(m) && NeighborsOk(m, nbs) && player <= 1 && j <= i < |nbs|
    requires nbs[i].cost < minutes && !visited.Contains(nbs[i].key)
    ensures var r := ChildrenMax(m, nbs, minutes, player, visited, j);
      r.Some? && Best(m, nbs[i].key, minutes - 1 - nbs[i].cost, player, visited.Insert(nbs[i].key)) <= r.value
    decreases i - j
  {
    if j < i {
      ChildBelowMax(m, nbs, minutes, player, visited, j + 1, i);
    }
  }

  lemma {:induction false} ArgMax(m: ValveMap, nbs: seq<Neighbor>, minutes: int, player: nat, visited: BitSet, j: nat) returns (i: nat)
    requires Ready(m) && NeighborsOk(m, nbs) && player <= 1 && j <= |nbs|
    requires ChildrenMax(m, nbs, minutes, player, visited, j).Some?
    ensures j <= i < |nbs| && nbs[i].cost < minutes && !visited.Contains(nbs[i].key)
    ensures Best(m, nbs[i].key, minutes - 1 - nbs[i].cost, player, visited.Insert(nbs[i].key))
      == ChildrenMax(m, nbs, minutes, player, visited, j).value
    decreases |nbs| - j
  {
    var all := ChildrenMax(m, nbs, minutes, player, visited, j);
    var rest := ChildrenMax(m, nbs, minutes, player, visited, j + 1);
    var nb := nbs[j];
    if nb.cost < minutes && !visited.Contains(nb.key) {
      var here := Best(m, nb.key, minutes - 1 - nb.cost, player, visited.Insert(nb.key));
      assert all == OptMax(Some(here), rest);
      if rest.None? || rest.value <= here {
        assert all == Some(here);
        i := j;
      } else {
        assert all == rest;
        i := ArgMax(m, nbs, minutes, player, visited, j + 1);
      }
    } else {
      assert all == rest;
      i := ArgMax(m, nbs, minutes, player, visited, j + 1);
    }
  }

  /** No route releases more than `Best`. */
  lemma {:induction false} PlanAtMostBest(m: ValveMap, key: nat, minutes: int, player: nat, visited: BitSet, p: Plan)
    requires Ready(m) && key in m.nodes && player <= 1
    requires ValidPlan(m, key, minutes, player, visited, p)
    ensures PlanValue(m, key, minutes, player, visited, p) <= Best(m, key, minutes, player, visited)
    decreases p
  {
    var nbs := m.nodes[key].parsedNeighbors;
    match p
    case Stop =>
    case Open(i, rest) =>
      PlanAtMostBest(m, nbs[i].key, minutes - 1 - nbs[i].cost, player, visited.Insert(nbs[i].key), rest);
      ChildBelowMax(m, nbs, minutes, player, visited, 0, i);
    case HandOver(e) =>
      PlanAtMostBest(m, m.aaKey, 26, 0, visited, e);
  }

  /** Some route releases exactly `Best`: `Best` is the greatest pressure of any route. */
  lemma {:induction false} BestAchieved(m: ValveMap, key: nat, minutes: int, player: nat, visited: BitSet) returns (p: Plan)
    requires Ready(m) && key in m.nodes && player <= 1
    ensures ValidPlan(m, key, minutes, player, visited, p)
    ensures PlanValue(m, key, minutes, player, visited, p) == Best(m, key, minutes, player, visited)
    decreases player, minutes
  {
    if minutes <= 1 {
      return Stop;
    }
    var nbs := m.nodes[key].parsedNeighbors;
    var children := ChildrenMax(m, nbs, minutes, player, visited, 0);
    var score := if children.None? then 0 else children.value;
    if player != 0 && score <= Best(m, m.aaKey, 26, 0, visited) {
      var e := BestAchieved(m, m.aaKey, 26, 0, visited);
      return HandOver(e);
    }
    if children.None? {
      return Stop;
    }
    var i := ArgMax(m, nbs, minutes, player, visited, 0);
    var rest := BestAchieved(m, nbs[i].key, minutes - 1 - nbs[i].cost, player, visited.Insert(nbs[i].key));
    p := Open(i, rest);
  }

  // ---- The memo ----

  /** `MemoState`: the arguments `move_valve`'s value depends on. */
  datatype MemoState = MemoState(minutes: nat, visited: BitSet, node: nat, playerId: bool)

  /** Every memoised value is `Best` at its state. */
  ghost predicate MemoSound(m: ValveMap, memo: map<MemoState, int>)
  {
    Ready(m) && forall st :: st in memo ==>
      st.node in m.nodes && memo[st] == Best(m, st.node, st.minutes, if st.playerId then 1 else 0, st.visited)
  }

  lemma OptMaxAssoc(a: Option<int>, b: Option<int>, c: Option<int>)
    ensures OptMax(OptMax(a, b), c) == OptMax(a, OptMax(b, c))
  {
  }

  /**
   * `move_valve` with its memo threaded through: the value is `Best`, and
   * the memo only ever holds values that are `Best` at their state.
   * (`minutes as u8` keeps the key exact below 256.)
   */
  method MoveValve(m: ValveMap, key: nat, minutes: int, player: nat, memo: map<MemoState, int>, visited: BitSet)
    returns (res: int, memo': map<MemoState, int>)
    requires key in m.nodes && player <= 1 && minutes < 256 && MemoSound(m, memo)
    ensures res == Best(m, key, minutes, player, visited) && MemoSound(m, memo')
    decreases player, minutes
  {
    if minutes <= 1 {
      return 0, memo;
    }
    var state := MemoState(minutes, visited, key, player == 1);
    if state in memo {
      return memo[state], memo;
    }
    var node := m.nodes[key];
    var nbs := node.parsedNeighbors;
    var best: Option<int> := None;
    memo' := memo;
    for i := 0 to |nbs|
      invariant MemoSound(m, memo')
      invariant OptMax(best, ChildrenMax(m, nbs, minutes, player, visited, i)) == ChildrenMax(m, nbs, minutes, player, visited, 0)
    {
      var nb := nbs[i];
      if nb.cost < minutes && !visited.Contains(nb.key) {
        var v;
        v, memo' := MoveValve(m, nb.key, minutes - 1 - nb.cost, player, memo', visited.Insert(nb.key));
        OptMaxAssoc(best, Some(v), ChildrenMax(m, nbs, minutes, player, visited, i + 1));
        best := OptMax(best, Some(v));
      }
    }
    var score := if best.None? then 0 else best.value;
    if player != 0 {
      var elephant;
      elephant, memo' := MoveValve(m, m.aaKey, 26, 0, memo', visited);
      score := Max(score, elephant);
    }
    res := node.flowRate * minutes + score;
    memo' := memo'[state := res];
  }

  /** The most pressure released from `AA` in `minutes`, alone (`player` 0) or with the elephant (1). */
  ghost function MostPressure(input: ValveMap, n: nat, minutes: int, player: nat): int
    requires Keyed(input, n) && Fits(input) && player <= 1
  {
    PreparedReady(input, n);
    Best(Prepared(input, n), input.aaKey, minutes, player, Empty)
  }

  /** `part1`: the most pressure one player releases in 30 minutes from `AA`. */
  method Part1(input: ValveMap, n: nat) returns (r: int)
    requires Keyed(input, n) && Fits(input)
    ensures r == MostPressure(input, n, 30, 0)
  {
    var m := Prepare(input, n);
    PreparedReady(input, n);
    assert MemoSound(m, map[]);
    var memo;
    r, memo := MoveValve(m, m.aaKey, 30, 0, map[], Empty);
  }

  /** `part2`: the most pressure released in 26 minutes by a player and then the elephant. */
  method Part2(input: ValveMap, n: nat) returns (r: int)
    requires Keyed(input, n) && Fits(input)
    ensures r == MostPressure(input, n, 26, 1)
  {
    var m := Prepare(input, n);
    PreparedReady(input, n);
    assert MemoSound(m, map[]);
    var memo;
    r, memo := MoveValve(m, m.aaKey, 26, 1, map[], Empty);
  }
}
