/**
 * Day 19 (src/days/day19.rs): robot factories. Each blueprint gives, for
 * every kind of robot, the resources it costs; each robot makes one unit of
 * its resource a minute. `search_recurse` explores the choices minute by
 * minute for the most geodes, pruning with an optimistic bound and a set of
 * states already explored.
 *
 * The search is proved against `Best`, the largest geode count at the
 * leaves of the tree of choices the source expands: the bound and the memo
 * never lose the optimum. The blueprints are searched one after the other
 * (the source does so in parallel).
 */
module Day19 {
  import opened Wrappers

  /** `Resource`, in the enum's order: the order in which robots are tried. */
  datatype Resource = Geode | Ore | Clay | Obsidian

  const Resources: seq<Resource> := [Geode, Ore, Clay, Obsidian]

  /** The position of a resource in enum order. */
  function Index(r: Resource): (i: nat)
    ensures i < 4 && Resources[i] == r
  {
    match r
    case Geode => 0
    case Ore => 1
    case Clay => 2
    case Obsidian => 3
  }

  /** `EnumMap<Resource, T>`: one value per resource. */
  datatype EnumMap<T> = EnumMap(geode: T, ore: T, clay: T, obsidian: T)
  {
    function Get(r: Resource): T
    {
      match r
      case Geode => geode
      case Ore => ore
      case Clay => clay
      case Obsidian => obsidian
    }

    /** Replacing one entry changes that entry and no other. */
    function Set(r: Resource, v: T): (m: EnumMap<T>)
      ensures m.Get(r) == v
      ensures forall s :: s != r ==> m.Get(s) == Get(s)
    {
      match r
      case Geode => this.(geode := v)
      case Ore => this.(ore := v)
      case Clay => this.(clay := v)
      case Obsidian => this.(obsidian := v)
    }
  }

  /** Two maps with the same entries are the same map. */
  lemma Extensional<T>(a: EnumMap<T>, b: EnumMap<T>)
    requires forall r :: a.Get(r) == b.Get(r)
    ensures a == b
  {
    assert a.Get(Geode) == b.Get(Geode) && a.Get(Ore) == b.Get(Ore);
    assert a.Get(Clay) == b.Get(Clay) && a.Get(Obsidian) == b.Get(Obsidian);
  }

  /** `EnumMap::default` for numbers and flags: the same value everywhere. */
  function Uniform<T>(v: T): EnumMap<T>
  {
    EnumMap(v, v, v, v)
  }

  /** `Cost`: an amount of one resource. */
  datatype Cost = Cost(resource: Resource, amount: int)

  /** `Blueprint`: the recipe of each robot and the largest amount of each resource any recipe asks for. */
  datatype Blueprint = Blueprint(costs: EnumMap<seq<Cost>>, maxCosts: EnumMap<int>)

  /** `Inventory`: the stock of each resource and the number of robots of each kind. */
  datatype Inventory = Inventory(items: EnumMap<int>, generators: EnumMap<int>)

  /** No recipe names a resource twice, and no recipe costs geodes: what `parse` builds. */
  ghost predicate WellFormed(bp: Blueprint)
  {
    forall r :: DistinctResources(bp.costs.Get(r)) && forall c :: c in bp.costs.Get(r) ==> c.resource != Geode
  }

  predicate DistinctResources(costs: seq<Cost>)
  {
    forall i, j :: 0 <= i < j < |costs| ==> costs[i].resource != costs[j].resource
  }

  // ---- Affording and buying ----

  /** `can_afford`: every cost of the recipe is covered by the stock. */
  function CanAfford(inventory: Inventory, costs: seq<Cost>): (r: bool)
    ensures r <==> forall c :: c in costs ==> inventory.items.Get(c.resource) >= c.amount
  {
    if costs == [] then true
    else
      assert forall c :: c in costs ==> c == costs[0] || c in costs[1..];
      inventory.items.Get(costs[0].resource) >= costs[0].amount && CanAfford(inventory, costs[1..])
  }

  /** `affordable_by`: which robots the inventory can pay for. */
  function AffordableBy(bp: Blueprint, inventory: Inventory): (r: EnumMap<bool>)
    ensures forall res :: r.Get(res) <==> CanAfford(inventory, bp.costs.Get(res))
  {
    EnumMap(CanAfford(inventory, bp.costs.geode), CanAfford(inventory, bp.costs.ore),
      CanAfford(inventory, bp.costs.clay), CanAfford(inventory, bp.costs.obsidian))
  }

  /** The total a recipe asks of one resource. */
  function CostOf(costs: seq<Cost>, res: Resource): int
  {
    if costs == [] then 0
    else
      var last := costs[|costs| - 1];
      CostOf(costs[..|costs| - 1], res) + (if last.resource == res then last.amount else 0)
  }

  /** The stock after paying each cost of a recipe in turn. */
  function Pay(items: EnumMap<int>, costs: seq<Cost>): (r: EnumMap<int>)
    ensures forall res :: r.Get(res) == items.Get(res) - CostOf(costs, res)
  {
    if costs == [] then items
    else
      var last := costs[|costs| - 1];
      var paid := Pay(items, costs[..|costs| - 1]);
      paid.Set(last.resource, paid.Get(last.resource) - last.amount)
  }

  /** What `purchase` leaves: the recipe paid for, and one more robot of the kind bought. */
  function Purchased(bp: Blueprint, inventory: Inventory, resource: Resource): Inventory
  {
    var gens := inventory.generators;
    Inventory(Pay(inventory.items, bp.costs.Get(resource)), gens.Set(resource, gens.Get(resource) + 1))
  }

  /** `purchase`: subtract each cost from the stock, then add the robot. */
  method Purchase(bp: Blueprint, inventory: Inventory, resource: Resource) returns (inventory': Inventory)
    ensures inventory' == Purchased(bp, inventory, resource)
  {
    var costs := bp.costs.Get(resource);
    var items := inventory.items;
    for i := 0 to |costs|
      invariant items == Pay(inventory.items, costs[..i])
    {
      var cost := costs[i];
      assert costs[..i + 1][..i] == costs[..i];
      items := items.Set(cost.resource, items.Get(cost.resource) - cost.amount);
    }
    assert costs[..|costs|] == costs;
    var gens := inventory.generators;
    inventory' := Inventory(items, gens.Set(resource, gens.Get(resource) + 1));
  }

  /** With distinct resources, a recipe asks of a resource the amount of its one cost for it, or nothing. */
  lemma {:induction false} CostOfDistinct(costs: seq<Cost>, res: Resource)
    requires DistinctResources(costs)
    ensures CostOf(costs, res) == 0 || exists c :: c in costs && c.resource == res && CostOf(costs, res) == c.amount
    ensures (forall c :: c in costs ==> c.resource != res) ==> CostOf(costs, res) == 0
  {
    if costs != [] {
      var init := costs[..|costs| - 1];
      var last := costs[|costs| - 1];
      assert forall c :: c in init ==> c in costs;
      CostOfDistinct(init, res);
      if last.resource == res {
        forall c | c in init ensures c.resource != res {
          var i :| 0 <= i < |init| && init[i] == c;
          assert costs[i] == c;
        }
        assert CostOf(init, res) == 0;
      }
    }
  }

  /** An affordable purchase in a well-formed blueprint leaves every stock non-negative, and never touches the geodes. */
  lemma PurchaseKeepsStock(bp: Blueprint, inventory: Inventory, resource: Resource)
    requires WellFormed(bp) && CanAfford(inventory, bp.costs.Get(resource))
    requires forall r :: inventory.items.Get(r) >= 0
    ensures forall r :: Purchased(bp, inventory, resource).items.Get(r) >= 0
    ensures Purchased(bp, inventory, resource).items.Get(Geode) == inventory.items.Get(Geode)
  {
    var costs := bp.costs.Get(resource);
    forall r ensures Purchased(bp, inventory, resource).items.Get(r) >= 0 {
      CostOfDistinct(costs, r);
    }
    CostOfDistinct(costs, Geode);
  }

  function Add(a: EnumMap<int>, b: EnumMap<int>): (r: EnumMap<int>)
    ensures forall res :: r.Get(res) == a.Get(res) + b.Get(res)
  {
    EnumMap(a.geode + b.geode, a.ore + b.ore, a.clay + b.clay, a.obsidian + b.obsidian)
  }

  /** What `generate` leaves: each robot of `generators` has made one unit. */
  function Generated(inventory: Inventory, generators: EnumMap<int>): Inventory
  {
    inventory.(items := Add(inventory.items, generators))
  }

  /** `generate`: add each robot count to its resource, in enum order. */
  method Generate(inventory: Inventory, generators: EnumMap<int>) returns (inventory': Inventory)
    ensures inventory' == Generated(inventory, generators)
  {
    inventory' := inventory;
    for i := 0 to 4
      invariant inventory'.generators == inventory.generators
      invariant forall j :: 0 <= j < i ==>
        inventory'.items.Get(Resources[j]) == inventory.items.Get(Resources[j]) + generators.Get(Resources[j])
      invariant forall j :: i <= j < 4 ==> inventory'.items.Get(Resources[j]) == inventory.items.Get(Resources[j])
    {
      var res := Resources[i];
      inventory' := inventory'.(items := inventory'.items.Set(res, inventory'.items.Get(res) + generators.Get(res)));
    }
    forall res ensures inventory'.items.Get(res) == Add(inventory.items, generators).Get(res) {
      assert Resources[Index(res)] == res;
    }
    Extensional(inventory'.items, Add(inventory.items, generators));
  }

  // ---- The tree of choices ----

  /** The loop of `search_recurse` buys `r`: a geode robot whenever it is affordable, another robot only when no geode robot is and it is below its maximum. */
  predicate Buys(bp: Blueprint, inventory: Inventory, r: Resource)
  {
    && CanAfford(inventory, bp.costs.Get(r))
    && (r == Geode ||
          (!CanAfford(inventory, bp.costs.Get(Geode)) && inventory.generators.Get(r) < bp.maxCosts.Get(r)))
  }

  /** The robots bought among the first `i` resources, in enum order. */
  function BuysUpTo(bp: Blueprint, inventory: Inventory, i: nat): seq<Resource>
    requires i <= 4
  {
    if i == 0 then []
    else BuysUpTo(bp, inventory, i - 1) + (if Buys(bp, inventory, Resources[i - 1]) then [Resources[i - 1]] else [])
  }

  /** `skip_branch` after the first `i` resources: one of them was affordable and is a geode robot or at its maximum. */
  predicate SkipUpTo(bp: Blueprint, inventory: Inventory, i: nat)
    requires i <= 4
  {
    i > 0 &&
      (SkipUpTo(bp, inventory, i - 1) ||
        var r := Resources[i - 1];
        CanAfford(inventory, bp.costs.Get(r)) && (r == Geode || inventory.generators.Get(r) >= bp.maxCosts.Get(r)))
  }

  /** Buying `r`: purchase, then let the robots that were there before the purchase produce. */
  function BuyChild(bp: Blueprint, inventory: Inventory, r: Resource): Inventory
  {
    Generated(Purchased(bp, inventory, r), inventory.generators)
  }

  /** Waiting: the robots produce and nothing is bought. */
  function WaitChild(inventory: Inventory): Inventory
  {
    Generated(inventory, inventory.generators)
  }

  function ChildrenOf(bp: Blueprint, inventory: Inventory, rs: seq<Resource>): (r: seq<Inventory>)
    ensures |r| == |rs| && forall k :: 0 <= k < |rs| ==> r[k] == BuyChild(bp, inventory, rs[k])
  {
    seq(|rs|, k requires 0 <= k < |rs| => BuyChild(bp, inventory, rs[k]))
  }

  /** The states a minute later that `search_recurse` expands, in order: the robots bought, then waiting unless skipped. */
  function Children(bp: Blueprint, inventory: Inventory): seq<Inventory>
  {
    ChildrenOf(bp, inventory, BuysUpTo(bp, inventory, 4)) + (if SkipUpTo(bp, inventory, 4) then [] else [WaitChild(inventory)])
  }

  function Max(a: int, b: int): int
  {
    if a < b then b else a
  }

  /** The larger of two optional values, `None` being the least. */
  function JoinOpt(a: Option<int>, b: Option<int>): Option<int>
  {
    if a.None? then b else if b.None? then a else Some(Max(a.value, b.value))
  }

  /** `*max` after taking an optional value into account. */
  function Join(x: int, o: Option<int>): int
  {
    if o.None? then x else Max(x, o.value)
  }

  predicate Le(o: Option<int>, x: int)
  {
    o.None? || o.value <= x
  }

  lemma LeTrans(o: Option<int>, x: int, y: int)
    requires Le(o, x) && x <= y
    ensures Le(o, y)
  {
  }

  lemma JoinOptLe(a: Option<int>, b: Option<int>, x: int)
    requires Le(a, x) && Le(b, x)
    ensures Le(JoinOpt(a, b), x)
  {
  }

  /**
   * The most geodes at the leaves below `inventory` with `minute` minutes
   * left, over the choices the source expands; `None` when the tree has no
   * leaf (every affordable robot skipped, and so waiting too).
   */
  function Best(bp: Blueprint, inventory: Inventory, minute: nat): Option<int>
    decreases minute, 0
  {
    if minute == 0 then Some(inventory.items.Get(Geode))
    else BestOf(bp, Children(bp, inventory), minute - 1)
  }

  function BestOf(bp: Blueprint, cs: seq<Inventory>, minute: nat): Option<int>
    decreases minute, |cs| + 1
  {
    if cs == [] then None
    else JoinOpt(BestOf(bp, cs[..|cs| - 1], minute), Best(bp, cs[|cs| - 1], minute))
  }

  // ---- The rules of the loop ----

  /** A robot is bought iff the loop's rule says so, and the robots bought come in enum order. */
  lemma {:induction false} BuysUpToMembers(bp: Blueprint, inventory: Inventory, i: nat)
    requires i <= 4
    ensures forall r :: r in BuysUpTo(bp, inventory, i) <==> Index(r) < i && Buys(bp, inventory, r)
    ensures forall j, k :: 0 <= j < k < |BuysUpTo(bp, inventory, i)| ==>
      Index(BuysUpTo(bp, inventory, i)[j]) < Index(BuysUpTo(bp, inventory, i)[k])
  {
    if i > 0 {
      BuysUpToMembers(bp, inventory, i - 1);
      var prev := BuysUpTo(bp, inventory, i - 1);
      var now := BuysUpTo(bp, inventory, i);
      forall r ensures r in now <==> Index(r) < i && Buys(bp, inventory, r) {
        assert Resources[Index(r)] == r;
      }
      forall j, k | 0 <= j < k < |now| ensures Index(now[j]) < Index(now[k]) {
        if k >= |prev| {
          assert now[k] == Resources[i - 1];
          assert now[j] in prev;
        } else {
          assert now[j] == prev[j] && now[k] == prev[k];
        }
      }
    }
  }

  /** If a geode robot is affordable, buying it is the only branch. */
  lemma GeodeFirst(bp: Blueprint, inventory: Inventory)
    requires CanAfford(inventory, bp.costs.Get(Geode))
    ensures Children(bp, inventory) == [BuyChild(bp, inventory, Geode)]
  {
    GeodeOnly(bp, inventory, 4);
  }

  lemma {:induction false} GeodeOnly(bp: Blueprint, inventory: Inventory, i: nat)
    requires 1 <= i <= 4 && CanAfford(inventory, bp.costs.Get(Geode))
    ensures BuysUpTo(bp, inventory, i) == [Geode] && SkipUpTo(bp, inventory, i)
  {
    if i > 1 {
      GeodeOnly(bp, inventory, i - 1);
    }
  }

  /** A robot other than a geode robot is never bought once its count reaches the largest cost of its resource. */
  lemma SkipAtMax(bp: Blueprint, inventory: Inventory, r: Resource)
    requires r != Geode && inventory.generators.Get(r) >= bp.maxCosts.Get(r)
    ensures r !in BuysUpTo(bp, inventory, 4)
  {
    BuysUpToMembers(bp, inventory, 4);
  }

  /** Waiting is explored iff no affordable robot is a geode robot or at its maximum. */
  lemma {:induction false} WaitRule(bp: Blueprint, inventory: Inventory, i: nat)
    requires i <= 4
    ensures SkipUpTo(bp, inventory, i) <==>
      exists r :: Index(r) < i && CanAfford(inventory, bp.costs.Get(r)) &&
        (r == Geode || inventory.generators.Get(r) >= bp.maxCosts.Get(r))
  {
    if i > 0 {
      WaitRule(bp, inventory, i - 1);
      var r := Resources[i - 1];
      assert Index(r) == i - 1;
    }
  }

  /** A purchase is paid from the stock, and production uses the robots there before the purchase. */
  lemma BuyChildProduction(bp: Blueprint, inventory: Inventory, r: Resource, s: Resource)
    ensures BuyChild(bp, inventory, r).items.Get(s) ==
      inventory.items.Get(s) - CostOf(bp.costs.Get(r), s) + inventory.generators.Get(s)
    ensures BuyChild(bp, inventory, r).generators.Get(s) ==
      inventory.generators.Get(s) + (if s == r then 1 else 0)
  {
  }

  // ---- The bound ----

  /** The geodes at the end if a geode robot were added every minute from now: the optimistic bound of the pruning. */
  function Potential(geodes: int, robots: int, minute: nat): int
    decreases minute
  {
    if minute == 0 then geodes else Potential(geodes + robots, robots + 1, minute - 1)
  }

  lemma {:induction false} PotentialMonotone(geodes: int, robots: int, geodes': int, robots': int, minute: nat)
    requires geodes <= geodes' && robots <= robots'
    ensures Potential(geodes, robots, minute) <= Potential(geodes', robots', minute)
    decreases minute
  {
    if minute > 0 {
      PotentialMonotone(geodes + robots, robots + 1, geodes' + robots', robots' + 1, minute - 1);
    }
  }

  /** The bound in closed form, as the source computes it (times two, to keep clear of division). */
  lemma {:induction false} PotentialClosed(geodes: int, robots: int, minute: nat)
    ensures 2 * Potential(geodes, robots, minute) == 2 * geodes + 2 * minute * robots + (minute - 1) * minute
    decreases minute
  {
    if minute > 0 {
      PotentialClosed(geodes + robots, robots + 1, minute - 1);
      var m := minute - 1;
      assert 2 * m * (robots + 1) == 2 * m * robots + 2 * m;
      assert (m - 1) * m + 2 * m == m * minute;
      assert 2 * minute * robots == 2 * m * robots + 2 * robots;
      assert (minute - 1) * minute == m * minute;
    }
  }

  /** No leaf below a state beats its potential: adding one robot a minute, all of them geode robots, is the best case. */
  lemma {:induction false} BestBounded(bp: Blueprint, inventory: Inventory, minute: nat)
    requires WellFormed(bp)
    ensures Le(Best(bp, inventory, minute),
      Potential(inventory.items.Get(Geode), inventory.generators.Get(Geode), minute))
    decreases minute, 0
  {
    if minute > 0 {
      ChildrenBounded(bp, inventory, Children(bp, inventory), minute);
    }
  }

  lemma {:induction false} ChildrenBounded(bp: Blueprint, inventory: Inventory, cs: seq<Inventory>, minute: nat)
    requires WellFormed(bp) && minute > 0
    requires forall k :: 0 <= k < |cs| ==> cs[k] in Children(bp, inventory)
    ensures Le(BestOf(bp, cs, minute - 1),
      Potential(inventory.items.Get(Geode), inventory.generators.Get(Geode), minute))
    decreases minute - 1, |cs| + 1
  {
    if cs != [] {
      var init := cs[..|cs| - 1];
      var c := cs[|cs| - 1];
      assert forall k :: 0 <= k < |init| ==> init[k] == cs[k];
      ChildrenBounded(bp, inventory, init, minute);
      var g, n := inventory.items.Get(Geode), inventory.generators.Get(Geode);
      ChildBestBounded(bp, inventory, c, minute);
      assert BestOf(bp, cs, minute - 1) == JoinOpt(BestOf(bp, init, minute - 1), Best(bp, c, minute - 1));
      JoinOptLe(BestOf(bp, init, minute - 1), Best(bp, c, minute - 1), Potential(g, n, minute));
    }
  }

  lemma {:induction false} ChildBestBounded(bp: Blueprint, inventory: Inventory, c: Inventory, minute: nat)
    requires WellFormed(bp) && c in Children(bp, inventory) && minute > 0
    ensures Le(Best(bp, c, minute - 1), Potential(inventory.items.Get(Geode), inventory.generators.Get(Geode), minute))
    decreases minute - 1, 1
  {
    BestBounded(bp, c, minute - 1);
    var pc := Potential(c.items.Get(Geode), c.generators.Get(Geode), minute - 1);
    ChildPotential(bp, inventory, c, minute);
    LeTrans(Best(bp, c, minute - 1), pc, Potential(inventory.items.Get(Geode), inventory.generators.Get(Geode), minute));
  }

  /** A child's potential with a minute less is within its parent's. */
  lemma ChildPotential(bp: Blueprint, inventory: Inventory, c: Inventory, minute: nat)
    requires WellFormed(bp) && c in Children(bp, inventory) && minute > 0
    ensures Potential(c.items.Get(Geode), c.generators.Get(Geode), minute - 1) <=
      Potential(inventory.items.Get(Geode), inventory.generators.Get(Geode), minute)
  {
    ChildBounds(bp, inventory, c);
    var g, n := inventory.items.Get(Geode), inventory.generators.Get(Geode);
    PotentialMonotone(c.items.Get(Geode), c.generators.Get(Geode), g + n, n + 1, minute - 1);
  }

  /** A child has the geodes the robots just made, and at most one more geode robot. */
  lemma ChildBounds(bp: Blueprint, inventory: Inventory, c: Inventory)
    requires WellFormed(bp) && c in Children(bp, inventory)
    ensures c.items.Get(Geode) == inventory.items.Get(Geode) + inventory.generators.Get(Geode)
    ensures c.generators.Get(Geode) <= inventory.generators.Get(Geode) + 1
  {
    var rs := BuysUpTo(bp, inventory, 4);
    var cs := Children(bp, inventory);
    var k :| 0 <= k < |cs| && cs[k] == c;
    if k < |rs| {
      var r := rs[k];
      CostOfDistinct(bp.costs.Get(r), Geode);
      BuyChildProduction(bp, inventory, r, Geode);
    }
  }

  /** The pruning test of `search_recurse` only cuts off trees that cannot beat `max`. */
  lemma PruneSound(bp: Blueprint, inventory: Inventory, minute: nat, max: int)
    requires WellFormed(bp)
    requires (minute - 1) * minute / 2 + inventory.items.Get(Geode) + minute * inventory.generators.Get(Geode) < max
    ensures Le(Best(bp, inventory, minute), max)
    ensures Join(max, Best(bp, inventory, minute)) == max
  {
    var g, n := inventory.items.Get(Geode), inventory.generators.Get(Geode);
    BestBounded(bp, inventory, minute);
    PotentialClosed(g, n, minute);
    assert (minute - 1) * minute == 2 * (Potential(g, n, minute) - g - minute * n);
  }

  // ---- The search ----

  /** The explored set is the set of states in the log, and the log has no repeats: each state was expanded once. */
  ghost predicate Logged(explored: set<(Inventory, nat)>, log: seq<(Inventory, nat)>)
  {
    && (forall i, j :: 0 <= i < j < |log| ==> log[i] != log[j])
    && (forall s :: s in explored <==> s in log)
  }

  /** Every explored state with at most `minute` minutes left has had its whole tree taken into `max`. */
  ghost predicate Complete(bp: Blueprint, explored: set<(Inventory, nat)>, max: int, minute: nat)
  {
    forall s :: s in explored && s.1 <= minute ==> Le(Best(bp, s.0, s.1), max)
  }

  /** `Complete`, except for the state `key` being expanded. */
  ghost predicate CompleteBut(bp: Blueprint, explored: set<(Inventory, nat)>, max: int, key: (Inventory, nat))
  {
    forall s :: s in explored && s.1 <= key.1 && s != key ==> Le(Best(bp, s.0, s.1), max)
  }

  lemma JoinAssoc(x: int, a: Option<int>, b: Option<int>)
    ensures Join(Join(x, a), b) == Join(x, JoinOpt(a, b))
  {
  }

  lemma BestOfSnoc(bp: Blueprint, cs: seq<Inventory>, c: Inventory, minute: nat)
    ensures BestOf(bp, cs + [c], minute) == JoinOpt(BestOf(bp, cs, minute), Best(bp, c, minute))
  {
    assert (cs + [c])[..|cs|] == cs;
  }

  lemma BuysStep(bp: Blueprint, inventory: Inventory, i: nat)
    requires i < 4
    ensures ChildrenOf(bp, inventory, BuysUpTo(bp, inventory, i + 1)) ==
      ChildrenOf(bp, inventory, BuysUpTo(bp, inventory, i)) +
      (if Buys(bp, inventory, Resources[i]) then [BuyChild(bp, inventory, Resources[i])] else [])
  {
  }

  /**
   * One robot bought in the loop of `search_recurse`: purchase, produce with
   * the robots from before the purchase, and search the resulting state.
   */
  method Branch(bp: Blueprint, inventory: Inventory, resource: Resource, minute: nat,
    explored: set<(Inventory, nat)>, max: int, ghost log: seq<(Inventory, nat)>)
    returns (explored': set<(Inventory, nat)>, max': int, ghost log': seq<(Inventory, nat)>)
    requires WellFormed(bp) && minute > 0
    requires Logged(explored, log) && (inventory, minute) in explored && CompleteBut(bp, explored, max, (inventory, minute))
    ensures Logged(explored', log') && |log| <= |log'| && log'[..|log|] == log
    ensures explored <= explored' && forall s :: s in explored' && s !in explored ==> s.1 < minute
    ensures max' == Join(max, Best(bp, BuyChild(bp, inventory, resource), minute - 1))
    ensures CompleteBut(bp, explored', max', (inventory, minute))
    decreases minute, 0
  {
    var clone := Purchase(bp, inventory, resource);
    clone := Generate(clone, inventory.generators);
    explored', max', log' := SearchRecurse(bp, clone, minute - 1, explored, max, log);
  }

  /** Waiting in `search_recurse`: produce, and search the resulting state. */
  method Wait(bp: Blueprint, inventory: Inventory, minute: nat,
    explored: set<(Inventory, nat)>, max: int, ghost log: seq<(Inventory, nat)>)
    returns (explored': set<(Inventory, nat)>, max': int, ghost log': seq<(Inventory, nat)>)
    requires WellFormed(bp) && minute > 0
    requires Logged(explored, log) && (inventory, minute) in explored && CompleteBut(bp, explored, max, (inventory, minute))
    ensures Logged(explored', log') && |log| <= |log'| && log'[..|log|] == log
    ensures explored <= explored' && forall s :: s in explored' && s !in explored ==> s.1 < minute
    ensures max' == Join(max, Best(bp, WaitChild(inventory), minute - 1))
    ensures CompleteBut(bp, explored', max', (inventory, minute))
    decreases minute, 0
  {
    var waited := Generate(inventory, inventory.generators);
    explored', max', log' := SearchRecurse(bp, waited, minute - 1, explored, max, log);
  }

  /** Once `max` holds the best leaf below the state being expanded, the explored set is complete again. */
  lemma Concluded(bp: Blueprint, inventory: Inventory, minute: nat, explored: set<(Inventory, nat)>, max': int, max: int)
    requires CompleteBut(bp, explored, max', (inventory, minute))
    requires max' == Join(max, Best(bp, inventory, minute))
    ensures Complete(bp, explored, max', minute)
  {
  }

  /** The state of the loop of `search_recurse` over the robots, after the first `i` of them. */
  ghost predicate Scanning(bp: Blueprint, inventory: Inventory, minute: nat, i: nat, hadGeode: bool, skipBranch: bool,
    explored: set<(Inventory, nat)>, max: int, log: seq<(Inventory, nat)>,
    explored0: set<(Inventory, nat)>, max0: int, log0: seq<(Inventory, nat)>)
  {
    && i <= 4 && minute > 0
    && hadGeode == (i > 0 && CanAfford(inventory, bp.costs.Get(Geode)))
    && skipBranch == SkipUpTo(bp, inventory, i)
    && max == Join(max0, BestOf(bp, ChildrenOf(bp, inventory, BuysUpTo(bp, inventory, i)), minute - 1))
    && Logged(explored, log) && |log0| < |log| && log[..|log0|] == log0
    && explored0 + {(inventory, minute)} <= explored
    && (forall s :: s in explored && s !in explored0 ==> s.1 <= minute)
    && CompleteBut(bp, explored, max, (inventory, minute))
  }

  /** What `search_recurse` promises, from the explored set, `max` and log it was given. */
  ghost predicate Searched(bp: Blueprint, inventory: Inventory, minute: nat,
    explored0: set<(Inventory, nat)>, max0: int, log0: seq<(Inventory, nat)>,
    explored: set<(Inventory, nat)>, max: int, log: seq<(Inventory, nat)>)
  {
    && Logged(explored, log) && |log0| <= |log| && log[..|log0|] == log0
    && explored0 <= explored && (forall s :: s in explored && s !in explored0 ==> s.1 <= minute)
    && max == Join(max0, Best(bp, inventory, minute))
    && Complete(bp, explored, max, minute)
  }

  lemma PrefixTrans(a: seq<(Inventory, nat)>, b: seq<(Inventory, nat)>, c: seq<(Inventory, nat)>)
    requires |a| <= |b| <= |c| && b[..|a|] == a && c[..|b|] == b
    ensures c[..|a|] == a
  {
    assert c[..|a|] == c[..|b|][..|a|];
  }

  /** A robot not bought leaves the children found so far as they are. */
  lemma NotBought(bp: Blueprint, inventory: Inventory, i: nat)
    requires i < 4 && !Buys(bp, inventory, Resources[i])
    ensures ChildrenOf(bp, inventory, BuysUpTo(bp, inventory, i + 1)) == ChildrenOf(bp, inventory, BuysUpTo(bp, inventory, i))
  {
  }

  /** A robot bought adds its child's best leaf to `max`. */
  lemma Bought(bp: Blueprint, inventory: Inventory, i: nat, minute: nat, max0: int, prev: int, max: int)
    requires i < 4 && minute > 0 && Buys(bp, inventory, Resources[i])
    requires prev == Join(max0, BestOf(bp, ChildrenOf(bp, inventory, BuysUpTo(bp, inventory, i)), minute - 1))
    requires max == Join(prev, Best(bp, BuyChild(bp, inventory, Resources[i]), minute - 1))
    ensures max == Join(max0, BestOf(bp, ChildrenOf(bp, inventory, BuysUpTo(bp, inventory, i + 1)), minute - 1))
  {
    var cs := ChildrenOf(bp, inventory, BuysUpTo(bp, inventory, i));
    var c := BuyChild(bp, inventory, Resources[i]);
    BuysStep(bp, inventory, i);
    BestOfSnoc(bp, cs, c, minute - 1);
    JoinAssoc(max0, BestOf(bp, cs, minute - 1), Best(bp, c, minute - 1));
  }

  /** With the loop state at `i`, the whole tree is known once the children found so far are all of them. */
  lemma Scanned(bp: Blueprint, inventory: Inventory, minute: nat, i: nat, hadGeode: bool, skipBranch: bool,
    explored: set<(Inventory, nat)>, max: int, log: seq<(Inventory, nat)>,
    explored0: set<(Inventory, nat)>, max0: int, log0: seq<(Inventory, nat)>)
    requires Scanning(bp, inventory, minute, i, hadGeode, skipBranch, explored, max, log, explored0, max0, log0)
    requires Children(bp, inventory) == ChildrenOf(bp, inventory, BuysUpTo(bp, inventory, i))
    ensures Searched(bp, inventory, minute, explored0, max0, log0, explored, max, log)
  {
    assert Best(bp, inventory, minute) == BestOf(bp, Children(bp, inventory), minute - 1);
    Concluded(bp, inventory, minute, explored, max, max0);
  }

  /**
   * One pass of the loop of `search_recurse`, for the `i`-th resource in
   * enum order: nothing if that robot is not affordable; the end of the
   * loop (`return`) if a geode robot was bought already; `skip_branch` and
   * no purchase if the robot is at its maximum; otherwise buy it and search
   * on. `stop` is the `return`.
   */
  method Scan(bp: Blueprint, inventory: Inventory, minute: nat, i: nat, affordable: EnumMap<bool>,
    hadGeode: bool, skipBranch: bool, explored: set<(Inventory, nat)>, max: int, ghost log: seq<(Inventory, nat)>,
    ghost explored0: set<(Inventory, nat)>, ghost max0: int, ghost log0: seq<(Inventory, nat)>)
    returns (stop: bool, hadGeode': bool, skipBranch': bool,
      explored': set<(Inventory, nat)>, max': int, ghost log': seq<(Inventory, nat)>)
    requires WellFormed(bp) && i < 4 && affordable == AffordableBy(bp, inventory)
    requires Scanning(bp, inventory, minute, i, hadGeode, skipBranch, explored, max, log, explored0, max0, log0)
    ensures stop ==> Searched(bp, inventory, minute, explored0, max0, log0, explored', max', log')
    ensures !stop ==>
      Scanning(bp, inventory, minute, i + 1, hadGeode', skipBranch', explored', max', log', explored0, max0, log0)
    decreases minute, 1
  {
    stop, hadGeode', skipBranch', explored', max', log' := false, hadGeode, skipBranch, explored, max, log;
    var resource := Resources[i];
    if !affordable.Get(resource) {
      NotBought(bp, inventory, i);
      return;
    }
    if hadGeode {
      GeodeOnly(bp, inventory, i);
      GeodeOnly(bp, inventory, 4);
      Scanned(bp, inventory, minute, i, hadGeode, skipBranch, explored, max, log, explored0, max0, log0);
      stop := true;
      return;
    }
    if resource != Geode {
      if inventory.generators.Get(resource) >= bp.maxCosts.Get(resource) {
        skipBranch' := true;
        NotBought(bp, inventory, i);
        return;
      }
    } else {
      hadGeode' := true;
      skipBranch' := true;
    }
    explored', max', log' := Branch(bp, inventory, resource, minute, explored, max, log);
    PrefixTrans(log0, log, log');
    Bought(bp, inventory, i, minute, max0, max, max');
  }

  /** After the loop: wait unless a branch was skipped. */
  method Finish(bp: Blueprint, inventory: Inventory, minute: nat, skipBranch: bool,
    explored: set<(Inventory, nat)>, max: int, ghost log: seq<(Inventory, nat)>,
    ghost explored0: set<(Inventory, nat)>, ghost max0: int, ghost log0: seq<(Inventory, nat)>)
    returns (explored': set<(Inventory, nat)>, max': int, ghost log': seq<(Inventory, nat)>)
    requires WellFormed(bp)
    requires Scanning(bp, inventory, minute, 4, CanAfford(inventory, bp.costs.Get(Geode)), skipBranch,
      explored, max, log, explored0, max0, log0)
    ensures Searched(bp, inventory, minute, explored0, max0, log0, explored', max', log')
    decreases minute, 1
  {
    explored', max', log' := explored, max, log;
    var bought := ChildrenOf(bp, inventory, BuysUpTo(bp, inventory, 4));
    if !skipBranch {
      explored', max', log' := Wait(bp, inventory, minute, explored, max, log);
      PrefixTrans(log0, log, log');
      BestOfSnoc(bp, bought, WaitChild(inventory), minute - 1);
      JoinAssoc(max0, BestOf(bp, bought, minute - 1), Best(bp, WaitChild(inventory), minute - 1));
      assert Children(bp, inventory) == bought + [WaitChild(inventory)];
    } else {
      assert Children(bp, inventory) == bought;
    }
    assert Best(bp, inventory, minute) == BestOf(bp, Children(bp, inventory), minute - 1);
    Concluded(bp, inventory, minute, explored', max', max0);
  }

  /**
   * `search_recurse`. `max` ends as the larger of its old value and the best
   * leaf below `inventory`, although the pruning and the explored set cut
   * branches away. A state is expanded only if it is not yet in `explored`,
   * and then it is added (the ghost `log` lists the expansions, without
   * repeats). Minutes are natural numbers here, so the source's
   * `minute <= 0` is `minute == 0`.
   */
  method SearchRecurse(bp: Blueprint, inventory: Inventory, minute: nat,
    explored: set<(Inventory, nat)>, max: int, ghost log: seq<(Inventory, nat)>)
    returns (explored': set<(Inventory, nat)>, max': int, ghost log': seq<(Inventory, nat)>)
    requires WellFormed(bp)
    requires Logged(explored, log) && Complete(bp, explored, max, minute)
    ensures Logged(explored', log') && |log| <= |log'| && log'[..|log|] == log
    ensures explored <= explored' && forall s :: s in explored' && s !in explored ==> s.1 <= minute
    ensures max' == Join(max, Best(bp, inventory, minute))
    ensures Complete(bp, explored', max', minute)
    decreases minute, 2
  {
    explored', max', log' := explored, max, log;
    var geodeCount := inventory.items.Get(Geode);
    if minute == 0 {
      max' := Max(max, geodeCount);
      return;
    }
    var nextNewGeodes := minute * inventory.generators.Get(Geode);
    if (minute - 1) * minute / 2 + geodeCount + nextNewGeodes < max {
      PruneSound(bp, inventory, minute, max);
      return;
    }
    var key := (inventory, minute);
    if key in explored {
      return;
    }
    explored', log' := explored + {key}, log + [key];
    assert log'[..|log|] == log;
    var hadGeode := false;
    var skipBranch := false;
    var affordable := AffordableBy(bp, inventory);
    for i := 0 to 4
      invariant Scanning(bp, inventory, minute, i, hadGeode, skipBranch, explored', max', log', explored, max, log)
    {
      var stop;
      stop, hadGeode, skipBranch, explored', max', log' :=
        Scan(bp, inventory, minute, i, affordable, hadGeode, skipBranch, explored', max', log', explored, max, log);
      if stop {
        return;
      }
    }
    explored', max', log' := Finish(bp, inventory, minute, skipBranch, explored', max', log', explored, max, log);
  }

  // ---- The two parts ----

  /** The inventory each search starts from: no resources and one ore robot. */
  function Start(): Inventory
  {
    Inventory(Uniform(0), Uniform(0).Set(Ore, 1))
  }

  /** The most geodes a blueprint opens in `minutes` minutes, as the search finds them from `max = 0`. */
  function MaxGeodes(bp: Blueprint, minutes: nat): int
  {
    Join(0, Best(bp, Start(), minutes))
  }

  /** One search from a fresh explored set and `max = 0`. */
  method Search(bp: Blueprint, minutes: nat) returns (r: int)
    requires WellFormed(bp)
    ensures r == MaxGeodes(bp, minutes)
  {
    var explored, max, log := SearchRecurse(bp, Start(), minutes, {}, 0, []);
    r := max;
  }

  /** The sum of the quality levels, id times geodes in 24 minutes, of the first `n` blueprints. */
  function QualitySum(input: seq<Blueprint>, n: nat): int
    requires n <= |input|
  {
    if n == 0 then 0 else QualitySum(input, n - 1) + n * MaxGeodes(input[n - 1], 24)
  }

  /** The product of the geodes in 32 minutes of the first `n` blueprints. */
  function GeodeProduct(input: seq<Blueprint>, n: nat): int
    requires n <= |input|
  {
    if n == 0 then 1 else GeodeProduct(input, n - 1) * MaxGeodes(input[n - 1], 32)
  }

  /** `part1`: blueprint `i` (from 0) has id `i + 1`. */
  method Part1(input: seq<Blueprint>) returns (r: int)
    requires forall k :: 0 <= k < |input| ==> WellFormed(input[k])
    ensures r == QualitySum(input, |input|)
  {
    r := 0;
    for i := 0 to |input|
      invariant r == QualitySum(input, i)
    {
      var geodes := Search(input[i], 24);
      r := r + (i + 1) * geodes;
    }
  }

  /** `part2`: only the first three blueprints (fewer if there are fewer). */
  method Part2(input: seq<Blueprint>) returns (r: int)
    requires forall k :: 0 <= k < |input| ==> WellFormed(input[k])
    ensures r == GeodeProduct(input, if |input| < 3 then |input| else 3)
  {
    var n := if |input| < 3 then |input| else 3;
    r := 1;
    for i := 0 to n
      invariant r == GeodeProduct(input, i)
    {
      var geodes := Search(input[i], 32);
      r := r * geodes;
    }
  }

  // ---- Parsing ----

  /** The costs in the order `costs.values().flatten()` lists them: by robot in enum order. */
  function Flatten(costs: EnumMap<seq<Cost>>): seq<Cost>
  {
    costs.geode + costs.ore + costs.clay + costs.obsidian
  }

  /** The `max_costs` loop of `parse`: for each resource, the largest amount any recipe asks of it, or 0. */
  method MaxCosts(costs: EnumMap<seq<Cost>>) returns (m: EnumMap<int>)
    ensures forall r :: m.Get(r) >= 0
    ensures forall c :: c in Flatten(costs) ==> c.amount <= m.Get(c.resource)
    ensures forall r :: m.Get(r) == 0 || exists c :: c in Flatten(costs) && c.resource == r && c.amount == m.Get(r)
  {
    var flat := Flatten(costs);
    m := Uniform(0);
    for i := 0 to |flat|
      invariant forall r :: m.Get(r) >= 0
      invariant forall k :: 0 <= k < i ==> flat[k].amount <= m.Get(flat[k].resource)
      invariant forall r :: m.Get(r) == 0 || exists k :: 0 <= k < i && flat[k].resource == r && flat[k].amount == m.Get(r)
    {
      var cost := flat[i];
      m := m.Set(cost.resource, Max(m.Get(cost.resource), cost.amount));
    }
  }

  /**
   * `parse` for one line, from the numbers in it: the ore, clay, obsidian and
   * geode robot recipes in the input's order. The source panics on a line
   * with fewer than six numbers; that is `None` here.
   */
  method ParseBlueprint(numbers: seq<int>) returns (r: Option<Blueprint>)
    ensures r.None? <==> |numbers| < 6
    ensures r.Some? ==> WellFormed(r.value)
    ensures r.Some? ==> r.value.costs == EnumMap(
      [Cost(Ore, numbers[4]), Cost(Obsidian, numbers[5])], [Cost(Ore, numbers[0])],
      [Cost(Ore, numbers[1])], [Cost(Ore, numbers[2]), Cost(Clay, numbers[3])])
    ensures r.Some? ==> forall c :: c in Flatten(r.value.costs) ==> c.amount <= r.value.maxCosts.Get(c.resource)
  {
    if |numbers| < 6 {
      return None;
    }
    var costs := EnumMap(
      [Cost(Ore, numbers[4]), Cost(Obsidian, numbers[5])], [Cost(Ore, numbers[0])],
      [Cost(Ore, numbers[1])], [Cost(Ore, numbers[2]), Cost(Clay, numbers[3])]);
    var maxCosts := MaxCosts(costs);
    r := Some(Blueprint(costs, maxCosts));
  }
}
