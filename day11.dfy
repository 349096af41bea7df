/**
 * Day 11 (src/days/day11.rs): monkeys pass items around. A monkey's
 * operation changes an item's worry value, and a divisibility test then
 * picks the monkey the item is thrown to. Part 1 divides the worry by 3
 * after every inspection. Part 2 does not, so it keeps only the value's
 * residues modulo every monkey's test number. The model proves that those
 * residues route every item exactly as the unbounded value would.
 */
module Day11 {
  import opened RustInt
  import Sorting
  import opened Largest

  datatype Operation = Add(j: int) | Mul(j: int) | Square

  /** A worry value: either the value itself, or its residues `nums[k]` modulo `mods[k]`. */
  datatype Number = Scalar(i: int) | Vector(nums: seq<int>, mods: seq<int>)

  /** What the operation does to a plain worry value. */
  function Apply(op: Operation, v: int): int
  {
    match op
    case Add(j) => v + j
    case Mul(j) => v * j
    case Square => v * v
  }

  /** The residues line up with their moduli, and no modulus is zero. */
  predicate Sound(x: Number)
  {
    x.Vector? ==> |x.nums| == |x.mods| && forall k :: 0 <= k < |x.mods| ==> x.mods[k] != 0
  }

  /** Sound, and a residue vector holds one entry per monkey of a troop of `n`. */
  predicate Fits(x: Number, n: nat)
  {
    Sound(x) && (x.Vector? ==> |x.nums| == n)
  }

  /** `vector_from_scalar`: the residue of the value modulo every modulus. */
  function FromScalar(x: Number, mods: seq<int>): (r: Number)
    requires x.Scalar?
    requires forall k :: 0 <= k < |mods| ==> mods[k] != 0
    ensures r.Vector? && r.mods == mods && |r.nums| == |mods| && Sound(r)
    ensures forall k :: 0 <= k < |mods| ==> r.nums[k] == Rem(x.i, mods[k])
  {
    Vector(seq(|mods|, k requires 0 <= k < |mods| => Rem(x.i, mods[k])), mods)
  }

  /**
   * `Operation::run` (`scalar_add`, `scalar_mul` or `square`). A scalar
   * changes by the operation. In a vector, every residue changes by the
   * operation and is reduced by Rust's `%` again.
   */
  function Run(op: Operation, x: Number): (r: Number)
    requires Sound(x)
    ensures Sound(r) && r.Vector? == x.Vector?
    ensures x.Vector? ==> r.mods == x.mods && |r.nums| == |x.nums|
  {
    match x
    case Scalar(i) => Scalar(Apply(op, i))
    case Vector(nums, mods) =>
      Vector(seq(|nums|, k requires 0 <= k < |nums| => Rem(Apply(op, nums[k]), mods[k])), mods)
  }

  /** The residue loop of `scalar_add`, `scalar_mul` and `square`. */
  method RunResidues(op: Operation, nums: seq<int>, mods: seq<int>) returns (r: seq<int>)
    requires Sound(Vector(nums, mods))
    ensures Vector(r, mods) == Run(op, Vector(nums, mods))
  {
    r := nums;
    for k := 0 to |nums|
      invariant |r| == |nums| && r[k..] == nums[k..]
      invariant forall l :: 0 <= l < k ==> r[l] == Rem(Apply(op, nums[l]), mods[l])
    {
      var n := r[k];
      var next := match op
        case Add(j) => n + j
        case Mul(j) => n * j
        case Square => n * n;
      r := r[k := Rem(next, mods[k])];
    }
  }

  /** `scalar_add`. */
  method ScalarAdd(x: Number, add: int) returns (r: Number)
    requires Sound(x)
    ensures r == Run(Add(add), x)
  {
    match x
    case Scalar(i) => r := Scalar(i + add);
    case Vector(nums, mods) =>
      var nums' := RunResidues(Add(add), nums, mods);
      r := Vector(nums', mods);
  }

  /** `scalar_mul`. */
  method ScalarMul(x: Number, mul: int) returns (r: Number)
    requires Sound(x)
    ensures r == Run(Mul(mul), x)
  {
    match x
    case Scalar(i) => r := Scalar(i * mul);
    case Vector(nums, mods) =>
      var nums' := RunResidues(Mul(mul), nums, mods);
      r := Vector(nums', mods);
  }

  /** `square`. */
  method SquareNumber(x: Number) returns (r: Number)
    requires Sound(x)
    ensures r == Run(Square, x)
  {
    match x
    case Scalar(i) => r := Scalar(i * i);
    case Vector(nums, mods) =>
      var nums' := RunResidues(Square, nums, mods);
      r := Vector(nums', mods);
  }

  /** `Operation::run` dispatching on the operation. */
  method RunOperation(op: Operation, x: Number) returns (r: Number)
    requires Sound(x)
    ensures r == Run(op, x)
  {
    match op
    case Add(j) => r := ScalarAdd(x, j);
    case Mul(j) => r := ScalarMul(x, j);
    case Square => r := SquareNumber(x);
  }

  /** `div3`: only a scalar is divided, rounding toward zero. */
  function Div3(x: Number): (r: Number)
    ensures x.Vector? ==> r == x
    ensures x.Scalar? ==> r.Scalar? && r.i == Quot(x.i, 3)
    ensures x.Scalar? && x.i >= 0 ==> 0 <= 3 * r.i <= x.i < 3 * r.i + 3
  {
    match x
    case Scalar(i) => Scalar(Quot(i, 3))
    case Vector(_, _) => x
  }

  /** `divisible_by_scalar`: false for a residue vector. */
  function DivisibleByScalar(x: Number, num: int): (r: bool)
    requires num != 0
    ensures r <==> x.Scalar? && x.i % num == 0
  {
    match x
    case Scalar(i) => Rem(i, num) == 0
    case Vector(_, _) => false
  }

  /** `divisible_by_monkey`: false for a scalar. */
  function DivisibleByMonkey(x: Number, id: nat): (r: bool)
    requires x.Vector? ==> id < |x.nums|
    ensures r <==> x.Vector? && x.nums[id] == 0
  {
    match x
    case Scalar(_) => false
    case Vector(nums, _) => nums[id] == 0
  }

  // ---- What the residues stand for ----

  /** `x` holds the residues of the non-negative worry value `v` modulo each of `mods`. */
  predicate Tracks(x: Number, v: int, mods: seq<int>)
  {
    && x.Vector? && x.mods == mods && |x.nums| == |mods| && v >= 0
    && forall k :: 0 <= k < |mods| ==> mods[k] > 0 && x.nums[k] == v % mods[k]
  }

  /** The operation never makes a worry value negative. */
  predicate NonNegative(op: Operation)
  {
    (op.Add? ==> op.j >= 0) && (op.Mul? ==> op.j >= 0)
  }

  lemma FromScalarTracks(v: int, mods: seq<int>)
    requires v >= 0 && forall k :: 0 <= k < |mods| ==> mods[k] > 0
    ensures Tracks(FromScalar(Scalar(v), mods), v, mods)
  {
  }

  /** One residue: reducing before the operation gives the residue of the new value. */
  lemma ResidueStep(op: Operation, v: int, m: int)
    requires m > 0 && v >= 0 && NonNegative(op)
    ensures Rem(Apply(op, v % m), m) == Apply(op, v) % m
  {
    match op
    case Add(j) => ModAdd(v, j, m);
    case Mul(j) => ModMul(v, j, m);
    case Square => ModSquare(v, m);
  }

  /** Running the operation on the residues gives the residues of the new value. */
  lemma RunTracks(op: Operation, x: Number, v: int, mods: seq<int>)
    requires Tracks(x, v, mods) && NonNegative(op)
    ensures Tracks(Run(op, x), Apply(op, v), mods)
  {
    var r := Run(op, x);
    forall k | 0 <= k < |mods|
      ensures r.nums[k] == Apply(op, v) % mods[k]
    {
      ResidueStep(op, v, mods[k]);
    }
    assert Apply(op, v) >= 0;
  }

  /** The residue test agrees with the test on the true value. */
  lemma DivisibleTracks(x: Number, v: int, mods: seq<int>, id: nat)
    requires Tracks(x, v, mods) && id < |mods|
    ensures DivisibleByMonkey(x, id) <==> v % mods[id] == 0
  {
  }

  // ---- Monkeys, turns and rounds ----

  datatype Monkey = Monkey(items: seq<Number>, operation: Operation, testMod: int, testY: nat, testN: nat)

  /** Monkey `i` of a troop of `n` throws to another monkey of the troop, and its test is defined. */
  predicate RulesOk(m: Monkey, i: nat, n: nat)
  {
    m.testMod != 0 && m.testY < n && m.testN < n && m.testY != i && m.testN != i
  }

  /**
   * No throw panics: every target is another monkey (`split_at_mut` would
   * otherwise underflow) and every test number is non-zero.
   */
  predicate Troop(ms: seq<Monkey>)
  {
    forall i :: 0 <= i < |ms| ==> RulesOk(ms[i], i, |ms|)
  }

  predicate ItemsFit(items: seq<Number>, n: nat)
  {
    forall j :: 0 <= j < |items| ==> Fits(items[j], n)
  }

  /**
   * The rounds write only the monkeys' item queues; operation and tests
   * stay as parsed. The state of the loops is therefore one queue per
   * monkey, while the monkeys themselves supply the rules.
   */
  predicate QueuesFit(qs: seq<seq<Number>>, n: nat)
  {
    |qs| == n && forall k :: 0 <= k < |qs| ==> ItemsFit(qs[k], n)
  }

  /** The queues of the parsed monkeys. */
  function Queues(ms: seq<Monkey>): (qs: seq<seq<Number>>)
    ensures |qs| == |ms| && forall k :: 0 <= k < |ms| ==> qs[k] == ms[k].items
  {
    seq(|ms|, k requires 0 <= k < |ms| => ms[k].items)
  }

  /** Monkey `m` inspects the item: it runs the operation, and in part 1 it divides by 3. */
  function Inspect(m: Monkey, x: Number, part2: bool): (r: Number)
    requires Sound(x)
    ensures Sound(r) && r.Vector? == x.Vector? && (x.Vector? ==> |r.nums| == |x.nums|)
  {
    var y := Run(m.operation, x);
    if part2 then y else Div3(y)
  }

  /** Where monkey `m`, number `i` in the troop, throws the inspected item `y`. */
  function Target(m: Monkey, i: nat, y: Number, part2: bool): (t: nat)
    requires m.testMod != 0 && (y.Vector? ==> i < |y.nums|)
    ensures t == m.testY || t == m.testN
  {
    var passes := if part2 then DivisibleByMonkey(y, i) else DivisibleByScalar(y, m.testMod);
    if passes then m.testY else m.testN
  }

  /** `push_back` onto queue `t`. */
  function Push<T>(qs: seq<seq<T>>, t: nat, y: T): (r: seq<seq<T>>)
    requires t < |qs|
    ensures |r| == |qs| && r[t] == qs[t] + [y]
    ensures forall k :: 0 <= k < |qs| && k != t ==> r[k] == qs[k]
  {
    qs[t := qs[t] + [y]]
  }

  /**
   * Monkey `i` inspects `items` in order, throwing each to the back of its
   * target's queue. Queues only grow at the back, and the thrower's own
   * queue is never touched.
   */
  function Deliver(ms: seq<Monkey>, qs: seq<seq<Number>>, i: nat, items: seq<Number>, part2: bool): (r: seq<seq<Number>>)
    requires Troop(ms) && i < |ms| && QueuesFit(qs, |ms|) && ItemsFit(items, |ms|)
    ensures QueuesFit(r, |ms|) && r[i] == qs[i]
    ensures forall k :: 0 <= k < |qs| ==> |qs[k]| <= |r[k]| && r[k][..|qs[k]|] == qs[k]
    decreases |items|
  {
    if items == [] then qs
    else
      var m := ms[i];
      var y := Inspect(m, items[0], part2);
      var t := Target(m, i, y, part2);
      var next := Push(qs, t, y);
      assert forall k :: 0 <= k < |qs| ==> next[k][..|qs[k]|] == qs[k];
      Deliver(ms, next, i, items[1..], part2)
  }

  lemma DeliverStep(ms: seq<Monkey>, qs: seq<seq<Number>>, i: nat, items: seq<Number>, part2: bool)
    requires Troop(ms) && i < |ms| && QueuesFit(qs, |ms|) && ItemsFit(items, |ms|) && items != []
    ensures var y := Inspect(ms[i], items[0], part2);
      Deliver(ms, qs, i, items, part2) == Deliver(ms, Push(qs, Target(ms[i], i, y, part2), y), i, items[1..], part2)
  {
  }

  /** Monkey `i`'s turn: its whole queue is drained and delivered. */
  function Turn(ms: seq<Monkey>, qs: seq<seq<Number>>, i: nat, part2: bool): (r: seq<seq<Number>>)
    requires Troop(ms) && i < |ms| && QueuesFit(qs, |ms|)
    ensures QueuesFit(r, |ms|)
  {
    Deliver(ms, qs[i := []], i, qs[i], part2)
  }

  function Zeros(n: nat): (r: seq<int>)
    ensures |r| == n && forall k :: 0 <= k < n ==> r[k] == 0
  {
    if n == 0 then [] else Zeros(n - 1) + [0]
  }

  /**
   * The rest of a round from monkey `i` on: each monkey in turn inspects
   * every item it holds at the start of its turn, and its count grows by
   * that number.
   */
  function RoundFrom(ms: seq<Monkey>, qs: seq<seq<Number>>, counts: seq<int>, i: nat, part2: bool): (r: (seq<seq<Number>>, seq<int>))
    requires Troop(ms) && QueuesFit(qs, |ms|) && |counts| == |ms| && i <= |ms|
    ensures QueuesFit(r.0, |ms|) && |r.1| == |counts|
    decreases |ms| - i
  {
    if i == |ms| then (qs, counts)
    else RoundFrom(ms, Turn(ms, qs, i, part2), counts[i := counts[i] + |qs[i]|], i + 1, part2)
  }

  /** `rounds` whole rounds. */
  function Rounds(ms: seq<Monkey>, qs: seq<seq<Number>>, counts: seq<int>, rounds: nat, part2: bool): (r: (seq<seq<Number>>, seq<int>))
    requires Troop(ms) && QueuesFit(qs, |ms|) && |counts| == |ms|
    ensures QueuesFit(r.0, |ms|) && |r.1| == |counts|
    decreases rounds
  {
    if rounds == 0 then (qs, counts)
    else
      var next := RoundFrom(ms, qs, counts, 0, part2);
      Rounds(ms, next.0, next.1, rounds - 1, part2)
  }

  /** The body of the drain loop: monkey `i` inspects `x` and throws it. */
  method Throw(ms: seq<Monkey>, qs: seq<seq<Number>>, i: nat, x: Number, part2: bool) returns (r: seq<seq<Number>>)
    requires Troop(ms) && i < |ms| && QueuesFit(qs, |ms|) && Fits(x, |ms|)
    ensures var y := Inspect(ms[i], x, part2); r == Push(qs, Target(ms[i], i, y, part2), y)
  {
    var monkey := ms[i];
    var item := RunOperation(monkey.operation, x);
    if !part2 {
      item := Div3(item);
    }
    var passes := if part2 then DivisibleByMonkey(item, i) else DivisibleByScalar(item, monkey.testMod);
    var next := if passes then monkey.testY else monkey.testN;
    r := Push(qs, next, item);
  }

  /** One turn: monkey `i` drains its queue, counting every item it throws. */
  method DoTurn(ms: seq<Monkey>, queues: seq<seq<Number>>, counts: seq<int>, i: nat, part2: bool)
    returns (qs: seq<seq<Number>>, cs: seq<int>)
    requires Troop(ms) && QueuesFit(queues, |ms|) && |counts| == |ms| && i < |ms|
    ensures qs == Turn(ms, queues, i, part2)
    ensures cs == counts[i := counts[i] + |queues[i]|]
  {
    var items := queues[i];
    qs := queues[i := []];
    cs := counts;
    DrainStart(ms, queues, i, part2);
    for j := 0 to |items|
      invariant Draining(ms, queues, qs, i, items, j, part2)
      invariant cs == counts[i := counts[i] + j]
    {
      cs := cs[i := cs[i] + 1];
      DrainStep(ms, queues, qs, i, items, j, part2);
      qs := Throw(ms, qs, i, items[j], part2);
    }
    assert items[|items|..] == [];
  }

  /** What the drain loop of a turn keeps: delivering the items from `j` on completes the turn. */
  ghost predicate Draining(ms: seq<Monkey>, queues: seq<seq<Number>>, qs: seq<seq<Number>>, i: nat,
    items: seq<Number>, j: nat, part2: bool)
  {
    && Troop(ms) && i < |ms| && QueuesFit(queues, |ms|) && QueuesFit(qs, |ms|)
    && j <= |items| && ItemsFit(items[j..], |ms|)
    && Deliver(ms, qs, i, items[j..], part2) == Turn(ms, queues, i, part2)
  }

  lemma DrainStart(ms: seq<Monkey>, queues: seq<seq<Number>>, i: nat, part2: bool)
    requires Troop(ms) && QueuesFit(queues, |ms|) && i < |ms|
    ensures Draining(ms, queues, queues[i := []], i, queues[i], 0, part2)
  {
    assert queues[i][0..] == queues[i];
    assert QueuesFit(queues[i := []], |ms|) by {
      assert ItemsFit([], |ms|);
    }
  }

  lemma DrainStep(ms: seq<Monkey>, queues: seq<seq<Number>>, qs: seq<seq<Number>>, i: nat,
    items: seq<Number>, j: nat, part2: bool)
    requires Draining(ms, queues, qs, i, items, j, part2) && j < |items|
    ensures Fits(items[j], |ms|)
    ensures var y := Inspect(ms[i], items[j], part2);
      Draining(ms, queues, Push(qs, Target(ms[i], i, y, part2), y), i, items, j + 1, part2)
  {
    assert items[j..][0] == items[j];
    DeliverStep(ms, qs, i, items[j..], part2);
    assert items[j..][1..] == items[j + 1..];
  }

  /** One round: every monkey takes its turn in order. */
  method DoRound(ms: seq<Monkey>, queues: seq<seq<Number>>, counts: seq<int>, part2: bool)
    returns (qs: seq<seq<Number>>, cs: seq<int>)
    requires Troop(ms) && QueuesFit(queues, |ms|) && |counts| == |ms|
    ensures (qs, cs) == RoundFrom(ms, queues, counts, 0, part2)
  {
    qs, cs := queues, counts;
    for i := 0 to |ms|
      invariant QueuesFit(qs, |ms|) && |cs| == |ms|
      invariant RoundFrom(ms, qs, cs, i, part2) == RoundFrom(ms, queues, counts, 0, part2)
    {
      qs, cs := DoTurn(ms, qs, cs, i, part2);
    }
  }

  /**
   * The round loops of `part1` and `part2`: the counts of inspections after
   * `rounds` rounds, starting from the given queues.
   */
  method Simulate(ms: seq<Monkey>, queues: seq<seq<Number>>, rounds: nat, part2: bool) returns (counts: seq<int>)
    requires Troop(ms) && QueuesFit(queues, |ms|)
    ensures counts == Rounds(ms, queues, Zeros(|ms|), rounds, part2).1
  {
    var qs := queues;
    counts := Zeros(|ms|);
    for r := 0 to rounds
      invariant QueuesFit(qs, |ms|) && |counts| == |ms|
      invariant Rounds(ms, qs, counts, rounds - r, part2) == Rounds(ms, queues, Zeros(|ms|), rounds, part2)
    {
      qs, counts := DoRound(ms, qs, counts, part2);
    }
  }

  // ---- Queues and counts ----

  /** The number of items held by the whole troop. */
  function Total<T>(qs: seq<seq<T>>): nat
  {
    if qs == [] then 0 else Total(qs[..|qs| - 1]) + |qs[|qs| - 1]|
  }

  lemma {:induction false} TotalUpdate<T>(qs: seq<seq<T>>, t: nat, q: seq<T>)
    requires t < |qs|
    ensures Total(qs[t := q]) == Total(qs) - |qs[t]| + |q|
    decreases |qs|
  {
    var n := |qs|;
    if t < n - 1 {
      assert qs[t := q][..n - 1] == qs[..n - 1][t := q];
      TotalUpdate(qs[..n - 1], t, q);
    } else {
      assert qs[t := q][..n - 1] == qs[..n - 1];
    }
  }

  /** Delivering `items` adds exactly that many items to the troop. */
  lemma {:induction false} DeliverTotal(ms: seq<Monkey>, qs: seq<seq<Number>>, i: nat, items: seq<Number>, part2: bool)
    requires Troop(ms) && i < |ms| && QueuesFit(qs, |ms|) && ItemsFit(items, |ms|)
    ensures Total(Deliver(ms, qs, i, items, part2)) == Total(qs) + |items|
    decreases |items|
  {
    if items != [] {
      var m := ms[i];
      var y := Inspect(m, items[0], part2);
      var t := Target(m, i, y, part2);
      TotalUpdate(qs, t, qs[t] + [y]);
      DeliverTotal(ms, Push(qs, t, y), i, items[1..], part2);
    }
  }

  /**
   * A turn drains monkey `i`'s queue, keeps every other queue as a prefix
   * of its new queue, and keeps the number of items in the troop.
   */
  lemma TurnDrains(ms: seq<Monkey>, qs: seq<seq<Number>>, i: nat, part2: bool)
    requires Troop(ms) && i < |ms| && QueuesFit(qs, |ms|)
    ensures Turn(ms, qs, i, part2)[i] == []
    ensures Total(Turn(ms, qs, i, part2)) == Total(qs)
    ensures forall k :: 0 <= k < |qs| && k != i ==> Turn(ms, qs, i, part2)[k][..|qs[k]|] == qs[k]
  {
    TotalUpdate(qs, i, []);
    DeliverTotal(ms, qs[i := []], i, qs[i], part2);
  }

  /** A round keeps the number of items in the troop. */
  lemma {:induction false} RoundKeepsTotal(ms: seq<Monkey>, qs: seq<seq<Number>>, counts: seq<int>, i: nat, part2: bool)
    requires Troop(ms) && QueuesFit(qs, |ms|) && |counts| == |ms| && i <= |ms|
    ensures Total(RoundFrom(ms, qs, counts, i, part2).0) == Total(qs)
    decreases |ms| - i
  {
    if i < |ms| {
      TurnDrains(ms, qs, i, part2);
      RoundKeepsTotal(ms, Turn(ms, qs, i, part2), counts[i := counts[i] + |qs[i]|], i + 1, part2);
    }
  }

  /** The counts only grow, and a monkey's count is final once its turn is over. */
  lemma {:induction false} RoundCountsGrow(ms: seq<Monkey>, qs: seq<seq<Number>>, counts: seq<int>, i: nat, part2: bool)
    requires Troop(ms) && QueuesFit(qs, |ms|) && |counts| == |ms| && i <= |ms|
    ensures forall k :: 0 <= k < |counts| ==> RoundFrom(ms, qs, counts, i, part2).1[k] >= counts[k]
    ensures forall k :: 0 <= k < i ==> RoundFrom(ms, qs, counts, i, part2).1[k] == counts[k]
    decreases |ms| - i
  {
    if i < |ms| {
      RoundCountsGrow(ms, Turn(ms, qs, i, part2), counts[i := counts[i] + |qs[i]|], i + 1, part2);
    }
  }

  // ---- Monkey business ----

  /** `rev().take(2).reduce(Mul::mul)` on the sorted counts. */
  function TopTwo(sorted: seq<int>): int
    requires |sorted| >= 1
  {
    var n := |sorted|;
    if n == 1 then sorted[0] else sorted[n - 1] * sorted[n - 2]
  }

  /** `counts.sort_unstable()` followed by the product of the last two. */
  method MonkeyBusiness(counts: seq<int>) returns (r: int)
    requires |counts| >= 1
    ensures r == TopTwo(Sorting.Sort(counts, Le))
  {
    var a := new int[|counts|];
    forall k | 0 <= k < a.Length {
      a[k] := counts[k];
    }
    assert a[..] == counts;
    Sorting.SortUnstable(a, Le);
    var n := a.Length;
    if n == 1 {
      r := a[0];
    } else {
      r := a[n - 1] * a[n - 2];
    }
  }

  /**
   * The product of the two largest counts: no two monkeys' counts multiply
   * to more, and two distinct monkeys' counts give exactly that product.
   */
  lemma TopTwoIsLargest(counts: seq<int>, p: nat, q: nat)
    requires forall k :: 0 <= k < |counts| ==> counts[k] >= 0
    requires p < |counts| && q < |counts| && p != q
    ensures counts[p] * counts[q] <= TopTwo(Sorting.Sort(counts, Le))
  {
    var t := Sorting.Sort(counts, Le);
    assert |t| == |counts| by {
      assert |multiset(t)| == |multiset(counts)|;
    }
    assert counts[p] in multiset(t);
    var a := IndexOf(t, counts[p]);
    var b := OtherIndex(counts, t, p, q, a);
    forall k | 0 <= k < |t| ensures t[k] >= 0 {
      assert t[k] in multiset(counts);
      var c := IndexOf(counts, t[k]);
    }
    SortedPairBound(t, a, b);
  }

  /** A second position of `t` holding `c[q]`, when `t` holds the values of `c`. */
  lemma OtherIndex(c: seq<int>, t: seq<int>, p: nat, q: nat, a: nat) returns (b: nat)
    requires multiset(c) == multiset(t) && p < |c| && q < |c| && p != q && a < |t| && t[a] == c[p]
    ensures b < |t| && b != a && t[b] == c[q]
  {
    var restC, restT := c[..p] + c[p + 1..], t[..a] + t[a + 1..];
    RemoveAtMultiset(c, p);
    RemoveAtMultiset(t, a);
    var q' := if q < p then q else q - 1;
    assert restC[q'] == c[q];
    assert c[q] in multiset(restT);
    var b' := IndexOf(restT, c[q]);
    b := if b' < a then b' else b' + 1;
  }

  /** In a sorted sequence of non-negative values, two positions multiply to at most the last two. */
  lemma SortedPairBound(t: seq<int>, a: nat, b: nat)
    requires Sorting.Sorted(t, Le) && a < |t| && b < |t| && a != b
    requires forall k :: 0 <= k < |t| ==> t[k] >= 0
    ensures t[a] * t[b] <= TopTwo(t)
  {
    var n := |t|;
    var lo, hi := if a < b then a else b, if a < b then b else a;
    assert lo <= n - 2;
    assert t[lo] <= t[n - 2] by {
      if lo < n - 2 {
        assert Le(t[lo], t[n - 2]);
      }
    }
    assert t[hi] <= t[n - 1] by {
      if hi < n - 1 {
        assert Le(t[hi], t[n - 1]);
      }
    }
    MulMonotone(t[lo], t[n - 2], t[hi], t[n - 1]);
    assert t[a] * t[b] == t[lo] * t[hi];
  }

  lemma TopTwoIsAttained(counts: seq<int>)
    requires |counts| >= 2
    ensures exists p, q ::
      && 0 <= p < |counts| && 0 <= q < |counts| && p != q
      && counts[p] * counts[q] == TopTwo(Sorting.Sort(counts, Le))
  {
    var t := Sorting.Sort(counts, Le);
    var n := |t|;
    assert |t| == |counts| by {
      assert |multiset(t)| == |multiset(counts)|;
    }
    assert t[n - 1] in multiset(counts);
    var p := IndexOf(counts, t[n - 1]);
    var q := OtherIndex(t, counts, n - 1, n - 2, p);
    assert counts[p] * counts[q] == TopTwo(t);
  }

  /** The index of a value known to occur. */
  function IndexOf(s: seq<int>, x: int): (i: nat)
    requires x in multiset(s)
    ensures i < |s| && s[i] == x
  {
    assert x in s;
    if s[0] == x then 0
    else
      assert s == [s[0]] + s[1..];
      1 + IndexOf(s[1..], x)
  }

  lemma MulMonotone(a: int, b: int, c: int, d: int)
    requires 0 <= a <= b && 0 <= c <= d
    ensures a * c <= b * d
  {
    assert a * c <= b * c;
    assert b * c <= b * d;
  }

  // ---- The two parts ----

  /** `part1`: 20 rounds with relief. */
  method Part1(input: seq<Monkey>) returns (r: int)
    requires Troop(input) && QueuesFit(Queues(input), |input|) && |input| >= 1
    ensures r == TopTwo(Sorting.Sort(Rounds(input, Queues(input), Zeros(|input|), 20, false).1, Le))
  {
    var counts := Simulate(input, Queues(input), 20, false);
    r := MonkeyBusiness(counts);
  }

  /** The test numbers of every monkey, in order. */
  function TestMods(ms: seq<Monkey>): (r: seq<int>)
    ensures |r| == |ms| && forall k :: 0 <= k < |ms| ==> r[k] == ms[k].testMod
  {
    seq(|ms|, k requires 0 <= k < |ms| => ms[k].testMod)
  }

  predicate AllScalar(ms: seq<Monkey>)
  {
    forall k, j :: 0 <= k < |ms| && 0 <= j < |ms[k].items| ==> ms[k].items[j].Scalar?
  }

  /** Every item of every monkey as its residues modulo all the test numbers. */
  function Converted(ms: seq<Monkey>): (qs: seq<seq<Number>>)
    requires Troop(ms) && AllScalar(ms)
    ensures QueuesFit(qs, |ms|)
    ensures forall k :: 0 <= k < |ms| ==> |qs[k]| == |ms[k].items|
    ensures forall k, j :: 0 <= k < |ms| && 0 <= j < |ms[k].items| ==> qs[k][j] == FromScalar(ms[k].items[j], TestMods(ms))
  {
    var mods := TestMods(ms);
    seq(|ms|, k requires 0 <= k < |ms| =>
      seq(|ms[k].items|, j requires 0 <= j < |ms[k].items| => FromScalar(ms[k].items[j], mods)))
  }

  /** `part2`: convert every item to residues, then 10000 rounds without relief. */
  method Part2(input: seq<Monkey>) returns (r: int)
    requires Troop(input) && AllScalar(input) && |input| >= 1
    ensures r == TopTwo(Sorting.Sort(Rounds(input, Converted(input), Zeros(|input|), 10000, true).1, Le))
  {
    var mods := TestMods(input);
    var queues: seq<seq<Number>> := [];
    for k := 0 to |input|
      invariant |queues| == k
      invariant forall l :: 0 <= l < k ==> queues[l] == Converted(input)[l]
    {
      var items := input[k].items;
      var converted: seq<Number> := [];
      for j := 0 to |items|
        invariant |converted| == j && forall l :: 0 <= l < j ==> converted[l] == FromScalar(items[l], mods)
      {
        converted := converted + [FromScalar(items[j], mods)];
      }
      queues := queues + [converted];
    }
    assert queues == Converted(input);
    var counts := Simulate(input, queues, 10000, true);
    r := MonkeyBusiness(counts);
  }

  // ---- The residues simulate the unbounded worry values ----

  /**
   * The reference semantics of part 2: the worry values themselves, with
   * no relief and the test applied to the value; `vals[k]` is monkey `k`'s
   * queue.
   */
  function WorryDeliver(ms: seq<Monkey>, vals: seq<seq<int>>, i: nat, vs: seq<int>): (r: seq<seq<int>>)
    requires Troop(ms) && |vals| == |ms| && i < |ms|
    ensures |r| == |vals|
    decreases |vs|
  {
    if vs == [] then vals
    else
      var m := ms[i];
      var v := Apply(m.operation, vs[0]);
      var t := if v % m.testMod == 0 then m.testY else m.testN;
      WorryDeliver(ms, Push(vals, t, v), i, vs[1..])
  }

  function WorryRoundFrom(ms: seq<Monkey>, vals: seq<seq<int>>, counts: seq<int>, i: nat): (r: (seq<seq<int>>, seq<int>))
    requires Troop(ms) && |vals| == |ms| && |counts| == |ms| && i <= |ms|
    ensures |r.0| == |vals| && |r.1| == |counts|
    decreases |ms| - i
  {
    if i == |ms| then (vals, counts)
    else
      var turn := WorryDeliver(ms, vals[i := []], i, vals[i]);
      WorryRoundFrom(ms, turn, counts[i := counts[i] + |vals[i]|], i + 1)
  }

  function WorryRounds(ms: seq<Monkey>, vals: seq<seq<int>>, counts: seq<int>, rounds: nat): (r: (seq<seq<int>>, seq<int>))
    requires Troop(ms) && |vals| == |ms| && |counts| == |ms|
    ensures |r.0| == |vals| && |r.1| == |counts|
    decreases rounds
  {
    if rounds == 0 then (vals, counts)
    else
      var next := WorryRoundFrom(ms, vals, counts, 0);
      WorryRounds(ms, next.0, next.1, rounds - 1)
  }

  /** Every operation keeps values non-negative and every test number is positive. */
  predicate Positive(ms: seq<Monkey>)
  {
    forall k :: 0 <= k < |ms| ==> ms[k].testMod > 0 && NonNegative(ms[k].operation)
  }

  predicate QueueTracks(items: seq<Number>, vs: seq<int>, mods: seq<int>)
  {
    |items| == |vs| && forall j :: 0 <= j < |vs| ==> Tracks(items[j], vs[j], mods)
  }

  /** Every queue holds the residues of the matching queue of values. */
  predicate Represents(qs: seq<seq<Number>>, vals: seq<seq<int>>, mods: seq<int>)
  {
    |qs| == |vals| && forall k :: 0 <= k < |qs| ==> QueueTracks(qs[k], vals[k], mods)
  }

  lemma {:induction false} DeliverSimulates(ms: seq<Monkey>, qs: seq<seq<Number>>, vals: seq<seq<int>>, i: nat,
                                            items: seq<Number>, vs: seq<int>)
    requires Troop(ms) && i < |ms| && QueuesFit(qs, |ms|) && ItemsFit(items, |ms|) && Positive(ms)
    requires Represents(qs, vals, TestMods(ms)) && QueueTracks(items, vs, TestMods(ms))
    ensures Represents(Deliver(ms, qs, i, items, true), WorryDeliver(ms, vals, i, vs), TestMods(ms))
    decreases |items|
  {
    if items != [] {
      var mods := TestMods(ms);
      var m := ms[i];
      var y := Inspect(m, items[0], true);
      var v := Apply(m.operation, vs[0]);
      RunTracks(m.operation, items[0], vs[0], mods);
      DivisibleTracks(y, v, mods, i);
      var t := Target(m, i, y, true);
      assert t == if v % m.testMod == 0 then m.testY else m.testN;
      assert Represents(Push(qs, t, y), Push(vals, t, v), mods);
      DeliverSimulates(ms, Push(qs, t, y), Push(vals, t, v), i, items[1..], vs[1..]);
    }
  }

  lemma {:induction false} RoundSimulates(ms: seq<Monkey>, qs: seq<seq<Number>>, vals: seq<seq<int>>, counts: seq<int>, i: nat)
    requires Troop(ms) && QueuesFit(qs, |ms|) && |counts| == |ms| && i <= |ms| && Positive(ms)
    requires Represents(qs, vals, TestMods(ms))
    ensures var r, w := RoundFrom(ms, qs, counts, i, true), WorryRoundFrom(ms, vals, counts, i);
      r.1 == w.1 && Represents(r.0, w.0, TestMods(ms))
    decreases |ms| - i
  {
    if i < |ms| {
      TurnSimulates(ms, qs, vals, i);
      var turn, wturn := Turn(ms, qs, i, true), WorryDeliver(ms, vals[i := []], i, vals[i]);
      var counts' := counts[i := counts[i] + |vals[i]|];
      assert RoundFrom(ms, qs, counts, i, true) == RoundFrom(ms, turn, counts', i + 1, true);
      RoundSimulates(ms, turn, wturn, counts', i + 1);
    }
  }

  /** One turn of monkey `i` on the residues simulates it on the values, and inspects as many items. */
  lemma TurnSimulates(ms: seq<Monkey>, qs: seq<seq<Number>>, vals: seq<seq<int>>, i: nat)
    requires Troop(ms) && QueuesFit(qs, |ms|) && i < |ms| && Positive(ms)
    requires Represents(qs, vals, TestMods(ms))
    ensures |vals| == |ms| && |qs[i]| == |vals[i]|
    ensures Represents(Turn(ms, qs, i, true), WorryDeliver(ms, vals[i := []], i, vals[i]), TestMods(ms))
  {
    ClearQueue(qs, vals, TestMods(ms), |ms|, i);
    DeliverSimulates(ms, qs[i := []], vals[i := []], i, qs[i], vals[i]);
  }

  /** Emptying queue `i` of both keeps the residues tracking the values. */
  lemma ClearQueue(qs: seq<seq<Number>>, vals: seq<seq<int>>, mods: seq<int>, n: nat, i: nat)
    requires QueuesFit(qs, n) && Represents(qs, vals, mods) && i < |qs|
    ensures QueuesFit(qs[i := []], n) && Represents(qs[i := []], vals[i := []], mods)
    ensures ItemsFit(qs[i], n) && QueueTracks(qs[i], vals[i], mods)
  {
    assert ItemsFit([], n) && QueueTracks([], [], mods);
  }

  lemma {:induction false} RoundsSimulate(ms: seq<Monkey>, qs: seq<seq<Number>>, vals: seq<seq<int>>, counts: seq<int>, rounds: nat)
    requires Troop(ms) && QueuesFit(qs, |ms|) && |counts| == |ms| && Positive(ms)
    requires Represents(qs, vals, TestMods(ms))
    ensures Rounds(ms, qs, counts, rounds, true).1 == WorryRounds(ms, vals, counts, rounds).1
    decreases rounds
  {
    if rounds > 0 {
      RoundSimulates(ms, qs, vals, counts, 0);
      var next := RoundFrom(ms, qs, counts, 0, true);
      var w := WorryRoundFrom(ms, vals, counts, 0);
      RoundsSimulate(ms, next.0, w.0, next.1, rounds - 1);
    }
  }

  /** The worry values of the parsed items, queue by queue. */
  function Values(ms: seq<Monkey>): (r: seq<seq<int>>)
    requires AllScalar(ms)
    ensures |r| == |ms|
    ensures forall k :: 0 <= k < |ms| ==> |r[k]| == |ms[k].items|
    ensures forall k, j :: 0 <= k < |ms| && 0 <= j < |ms[k].items| ==> r[k][j] == ms[k].items[j].i
  {
    seq(|ms|, k requires 0 <= k < |ms| => seq(|ms[k].items|, j requires 0 <= j < |ms[k].items| => ms[k].items[j].i))
  }

  predicate NonNegativeItems(ms: seq<Monkey>)
  {
    forall k, j :: 0 <= k < |ms| && 0 <= j < |ms[k].items| ==> ms[k].items[j].Scalar? && ms[k].items[j].i >= 0
  }

  /**
   * Why part 2 may forget the worry values: on residue vectors the rounds
   * count exactly the inspections that the unbounded values, never
   * divided by 3, would give.
   */
  lemma Part2CountsAreExact(input: seq<Monkey>, rounds: nat)
    requires Troop(input) && NonNegativeItems(input) && Positive(input)
    ensures AllScalar(input)
    ensures Rounds(input, Converted(input), Zeros(|input|), rounds, true).1
         == WorryRounds(input, Values(input), Zeros(|input|), rounds).1
  {
    var mods := TestMods(input);
    var conv := Converted(input);
    forall k | 0 <= k < |input| ensures QueueTracks(conv[k], Values(input)[k], mods) {
      forall j | 0 <= j < |input[k].items| ensures Tracks(conv[k][j], Values(input)[k][j], mods) {
        FromScalarTracks(input[k].items[j].i, mods);
      }
    }
    RoundsSimulate(input, conv, Values(input), Zeros(|input|), rounds);
  }
}
