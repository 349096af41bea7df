/**
 * Day 23 (src/days/day23.rs): elves on an unbounded grid spread out in
 * turns. In a turn every elf with a neighbour proposes to step towards
 * the first of four directions, in the current order, whose three cells on
 * that side are all free; the proposals that no other elf shares are
 * carried out, and the order of the directions rotates by one.
 *
 * The proposals are the pure function `Proposal`; a turn's outcome is
 * `NextElves`, about which the lemmas prove that no elf is lost or gained.
 * `Grove.RunTurn` does the turn as the source does it, filling a map of
 * destinations and then moving the elves one by one, and is proved to
 * reach `NextElves`.
 */
module Day23 {
  import opened Wrappers

  type Pos = (int, int)

  datatype Direction = North | South | East | West

  /** `get_pos_mod`: y grows southwards. */
  function PosMod(d: Direction): (r: Pos)
    ensures (r.0 == 0) != (r.1 == 0) && -1 <= r.0 <= 1 && -1 <= r.1 <= 1
    ensures d == North ==> r == (0, -1)
  {
    match d
    case North => (0, -1)
    case South => (0, 1)
    case West => (-1, 0)
    case East => (1, 0)
  }

  function Toward(p: Pos, d: Direction): Pos
  {
    (p.0 + PosMod(d).0, p.1 + PosMod(d).1)
  }

  /** The three cells `check_obstructed` looks at: the target and its two neighbours across the direction. */
  function Inspected(source: Pos, d: Direction): seq<Pos>
  {
    var t := Toward(source, d);
    match d
    case North => [(t.0 - 1, t.1), (t.0, t.1), (t.0 + 1, t.1)]
    case South => [(t.0 - 1, t.1), (t.0, t.1), (t.0 + 1, t.1)]
    case East => [(t.0, t.1 - 1), (t.0, t.1), (t.0, t.1 + 1)]
    case West => [(t.0, t.1 - 1), (t.0, t.1), (t.0, t.1 + 1)]
  }

  /** `check_obstructed`: some elf stands in one of the three cells on that side. */
  predicate Obstructed(elves: set<Pos>, source: Pos, d: Direction)
  {
    Inspected(source, d)[0] in elves || Inspected(source, d)[1] in elves || Inspected(source, d)[2] in elves
  }

  /** The eight cells around `p`. */
  function Neighbours(p: Pos): set<Pos>
  {
    {(p.0 - 1, p.1 - 1), (p.0, p.1 - 1), (p.0 + 1, p.1 - 1),
     (p.0 - 1, p.1), (p.0 + 1, p.1),
     (p.0 - 1, p.1 + 1), (p.0, p.1 + 1), (p.0 + 1, p.1 + 1)}
  }

  /** The three cells of each side are the side's row or column of neighbours, including the target. */
  lemma InspectedSide(source: Pos, d: Direction)
    ensures forall i :: 0 <= i < 3 ==> Inspected(source, d)[i] in Neighbours(source)
    ensures Inspected(source, d)[1] == Toward(source, d)
    ensures d == North ==> forall i :: 0 <= i < 3 ==> Inspected(source, d)[i].1 == source.1 - 1
    ensures d == South ==> forall i :: 0 <= i < 3 ==> Inspected(source, d)[i].1 == source.1 + 1
    ensures d == West ==> forall i :: 0 <= i < 3 ==> Inspected(source, d)[i].0 == source.0 - 1
    ensures d == East ==> forall i :: 0 <= i < 3 ==> Inspected(source, d)[i].0 == source.0 + 1
  {
  }

  /** Every direction in `dirs` is clear. */
  predicate AllClear(elves: set<Pos>, elf: Pos, dirs: seq<Direction>)
  {
    forall i :: 0 <= i < |dirs| ==> !Obstructed(elves, elf, dirs[i])
  }

  /** `find`: the first direction of `dirs` that is clear. */
  function FirstClear(elves: set<Pos>, elf: Pos, dirs: seq<Direction>): (r: Option<nat>)
    ensures r.Some? ==> r.value < |dirs| && !Obstructed(elves, elf, dirs[r.value])
    ensures r.Some? ==> forall i :: 0 <= i < r.value ==> Obstructed(elves, elf, dirs[i])
    ensures r.None? ==> forall i :: 0 <= i < |dirs| ==> Obstructed(elves, elf, dirs[i])
  {
    if dirs == [] then None
    else if !Obstructed(elves, elf, dirs[0]) then Some(0)
    else
      var rest := FirstClear(elves, elf, dirs[1..]);
      if rest.Some? then Some(rest.value + 1) else None
  }

  /**
   * `get_elf_moves`' decision: nothing for an elf with all directions
   * clear, otherwise a step towards the first clear direction, if any.
   */
  function Proposal(elves: set<Pos>, dirs: seq<Direction>, elf: Pos): (r: Option<Pos>)
    ensures r.Some? ==> r.value !in elves
  {
    if AllClear(elves, elf, dirs) then None
    else
      var i := FirstClear(elves, elf, dirs);
      if i.None? then None
      else
        assert Inspected(elf, dirs[i.value])[1] !in elves;
        Some(Toward(elf, dirs[i.value]))
  }

  /** The order holds all four directions. */
  predicate Complete(dirs: seq<Direction>)
  {
    North in dirs && South in dirs && East in dirs && West in dirs
  }

  /**
   * With all four directions in the order, an elf proposes nothing exactly
   * when it has no neighbour or every side is blocked.
   */
  lemma ProposalNone(elves: set<Pos>, dirs: seq<Direction>, elf: Pos)
    requires Complete(dirs)
    ensures Proposal(elves, dirs, elf).None? <==>
      Neighbours(elf) * elves == {} || forall i :: 0 <= i < |dirs| ==> Obstructed(elves, elf, dirs[i])
  {
    if Neighbours(elf) * elves == {} {
      forall i | 0 <= i < |dirs|
        ensures !Obstructed(elves, elf, dirs[i])
      {
        InspectedSide(elf, dirs[i]);
        var cells := Inspected(elf, dirs[i]);
        assert cells[0] in Neighbours(elf) && cells[1] in Neighbours(elf) && cells[2] in Neighbours(elf);
        assert cells[0] !in Neighbours(elf) * elves && cells[1] !in Neighbours(elf) * elves;
        assert cells[2] !in Neighbours(elf) * elves;
      }
    } else {
      var n :| n in Neighbours(elf) * elves;
      var d: Direction :| d in dirs && Obstructed(elves, elf, d) by {
        if n.1 == elf.1 - 1 {
          assert Obstructed(elves, elf, North);
        } else if n.1 == elf.1 + 1 {
          assert Obstructed(elves, elf, South);
        } else if n.0 == elf.0 - 1 {
          assert Obstructed(elves, elf, West);
        } else {
          assert Obstructed(elves, elf, East);
        }
      }
      var k :| 0 <= k < |dirs| && dirs[k] == d;
      assert !AllClear(elves, elf, dirs);
    }
  }

  /** A proposal is the step towards the first clear direction. */
  lemma ProposalFirstClear(elves: set<Pos>, dirs: seq<Direction>, elf: Pos)
    requires Proposal(elves, dirs, elf).Some?
    ensures var i := FirstClear(elves, elf, dirs);
      i.Some? && Proposal(elves, dirs, elf).value == Toward(elf, dirs[i.value])
      && forall j :: 0 <= j < 3 ==> Inspected(elf, dirs[i.value])[j] !in elves
  {
  }

  /** `rotate_left(1)`. */
  function RotateLeft(dirs: seq<Direction>): (r: seq<Direction>)
    ensures |r| == |dirs|
  {
    if dirs == [] then [] else dirs[1..] + [dirs[0]]
  }

  /** Rotating moves the first direction to the end and keeps the others in order. */
  lemma RotateLeftAt(dirs: seq<Direction>)
    requires dirs != []
    ensures RotateLeft(dirs)[|dirs| - 1] == dirs[0]
    ensures forall i :: 0 <= i < |dirs| - 1 ==> RotateLeft(dirs)[i] == dirs[i + 1]
  {
  }

  /** Rotating keeps the same directions, as many times each. */
  lemma RotatePermutes(dirs: seq<Direction>)
    ensures multiset(RotateLeft(dirs)) == multiset(dirs)
  {
    if dirs != [] {
      assert dirs == [dirs[0]] + dirs[1..];
    }
  }

  /** Rotating keeps every direction in the order. */
  lemma RotateComplete(dirs: seq<Direction>)
    requires Complete(dirs)
    ensures Complete(RotateLeft(dirs))
  {
    RotatePermutes(dirs);
    var r := RotateLeft(dirs);
    assert forall d :: d in dirs ==> d in multiset(r);
  }

  /** Four rotations of the four directions give the order back. */
  lemma RotateFour(dirs: seq<Direction>)
    requires |dirs| == 4
    ensures RotateLeft(RotateLeft(RotateLeft(RotateLeft(dirs)))) == dirs
  {
  }

  const InitialDirections: seq<Direction> := [North, South, West, East]

  // ---- A turn, as a function of the elves ----

  /** The elves of `pool` that propose `d`. */
  function ProposersIn(elves: set<Pos>, dirs: seq<Direction>, pool: set<Pos>, d: Pos): set<Pos>
  {
    set e | e in pool && Proposal(elves, dirs, e) == Some(d)
  }

  function Proposers(elves: set<Pos>, dirs: seq<Direction>, d: Pos): set<Pos>
  {
    ProposersIn(elves, dirs, elves, d)
  }

  /** An elf whose proposal no other elf shares. */
  predicate Moves(elves: set<Pos>, dirs: seq<Direction>, e: Pos)
  {
    e in elves && Proposal(elves, dirs, e).Some? && |Proposers(elves, dirs, Proposal(elves, dirs, e).value)| == 1
  }

  function Movers(elves: set<Pos>, dirs: seq<Direction>): set<Pos>
  {
    set e | e in elves && Moves(elves, dirs, e)
  }

  function Targets(elves: set<Pos>, dirs: seq<Direction>): set<Pos>
  {
    set e | e in Movers(elves, dirs) :: Proposal(elves, dirs, e).value
  }

  /** The elves after a turn: the movers leave, and appear at their targets. */
  function NextElves(elves: set<Pos>, dirs: seq<Direction>): set<Pos>
  {
    (elves - Movers(elves, dirs)) + Targets(elves, dirs)
  }

  lemma SingletonHasOne<T>(s: set<T>, a: T, b: T)
    requires |s| == 1 && a in s && b in s
    ensures a == b
  {
    if a != b {
      assert {a, b} <= s;
      assert |{a, b}| == 2;
      SubsetSize({a, b}, s);
    }
  }

  lemma {:induction false} SubsetSize<T>(a: set<T>, b: set<T>)
    requires a <= b
    ensures |a| <= |b|
    decreases |b|
  {
    if a != {} {
      var x :| x in a;
      SubsetSize(a - {x}, b - {x});
    }
  }

  /** No two movers aim at the same cell. */
  lemma MoversInjective(elves: set<Pos>, dirs: seq<Direction>, e1: Pos, e2: Pos)
    requires e1 in Movers(elves, dirs) && e2 in Movers(elves, dirs)
    requires Proposal(elves, dirs, e1) == Proposal(elves, dirs, e2)
    ensures e1 == e2
  {
    var d := Proposal(elves, dirs, e1).value;
    assert e1 in Proposers(elves, dirs, d) && e2 in Proposers(elves, dirs, d);
    SingletonHasOne(Proposers(elves, dirs, d), e1, e2);
  }

  function Image<A, B>(f: A -> B, s: set<A>): set<B>
  {
    set e | e in s :: f(e)
  }

  /** An injective function maps a set onto a set of the same size. */
  lemma {:induction false} InjectiveImageSize<A, B>(f: A -> B, s: set<A>)
    requires forall x, y :: x in s && y in s && f(x) == f(y) ==> x == y
    ensures |Image(f, s)| == |s|
    decreases |s|
  {
    if s != {} {
      var x :| x in s;
      var rest := s - {x};
      InjectiveImageSize(f, rest);
      assert Image(f, s) == Image(f, rest) + {f(x)};
      assert f(x) !in Image(f, rest);
    }
  }

  /** There are as many targets as movers. */
  lemma ImageSize(elves: set<Pos>, dirs: seq<Direction>)
    ensures |Targets(elves, dirs)| == |Movers(elves, dirs)|
  {
    var movers := Movers(elves, dirs);
    var f := (e: Pos) => if Proposal(elves, dirs, e).Some? then Proposal(elves, dirs, e).value else e;
    forall x, y | x in movers && y in movers && f(x) == f(y)
      ensures x == y
    {
      MoversInjective(elves, dirs, x, y);
    }
    InjectiveImageSize(f, movers);
    var image := Image(f, movers);
    forall m | m in movers
      ensures f(m) == Proposal(elves, dirs, m).value
    {
      assert Moves(elves, dirs, m);
    }
    assert Targets(elves, dirs) == image;
  }

  /** A turn neither loses nor gains an elf. */
  lemma CountPreserved(elves: set<Pos>, dirs: seq<Direction>)
    ensures |NextElves(elves, dirs)| == |elves|
  {
    var movers, targets := Movers(elves, dirs), Targets(elves, dirs);
    ImageSize(elves, dirs);
    assert (elves - movers) * targets == {};
    assert |elves - movers| == |elves| - |movers| by {
      assert elves == (elves - movers) + movers;
    }
  }

  /** A turn changes the elves exactly when some elf moves. */
  lemma ChangedIffMoved(elves: set<Pos>, dirs: seq<Direction>)
    ensures NextElves(elves, dirs) != elves <==> Movers(elves, dirs) != {}
  {
    if Movers(elves, dirs) != {} {
      var e :| e in Movers(elves, dirs);
      var t := Proposal(elves, dirs, e).value;
      assert t in Targets(elves, dirs);
      assert t !in elves;
    } else {
      assert Targets(elves, dirs) == {};
    }
  }

  /** Every elf after a turn either stayed, or stepped to the proposal no one else made. */
  lemma NextElvesFrom(elves: set<Pos>, dirs: seq<Direction>, p: Pos)
    requires p in NextElves(elves, dirs)
    ensures (p in elves && !Moves(elves, dirs, p)) ||
      exists e :: e in elves && Moves(elves, dirs, e) && Proposal(elves, dirs, e) == Some(p)
  {
  }

  // ---- Several turns ----

  datatype Round = Round(elves: set<Pos>, dirs: seq<Direction>)

  function Turn(r: Round): Round
  {
    Round(NextElves(r.elves, r.dirs), RotateLeft(r.dirs))
  }

  /** Some elf moves in the turn that starts from `r`. */
  ghost predicate Moving(r: Round)
  {
    exists e :: Moves(r.elves, r.dirs, e)
  }

  lemma MovingMovers(r: Round)
    ensures Moving(r) <==> Movers(r.elves, r.dirs) != {}
  {
    if Moving(r) {
      var e :| Moves(r.elves, r.dirs, e);
      assert e in Movers(r.elves, r.dirs);
    }
  }

  /** `k` applications of `f`. */
  function Iterate<T>(f: T -> T, x: T, k: nat): T
    decreases k
  {
    if k == 0 then x else Iterate(f, f(x), k - 1)
  }

  lemma {:induction false} IterateStep<T>(f: T -> T, x: T, k: nat)
    ensures Iterate(f, x, k + 1) == f(Iterate(f, x, k))
    decreases k
  {
    if k > 0 {
      IterateStep(f, f(x), k - 1);
    }
  }

  lemma {:induction false} IterateKeeps<T>(f: T -> T, m: T -> int, x: T, k: nat)
    requires forall y :: m(f(y)) == m(y)
    ensures m(Iterate(f, x, k)) == m(x)
    decreases k
  {
    if k > 0 {
      IterateKeeps(f, m, f(x), k - 1);
    }
  }

  /** The state after `k` turns. */
  function Rounds(r: Round, k: nat): Round
  {
    Iterate(Turn, r, k)
  }

  function ElfCount(r: Round): int
  {
    |r.elves|
  }

  lemma TurnKeepsCount()
    ensures forall r :: ElfCount(Turn(r)) == ElfCount(r)
  {
    forall r
      ensures ElfCount(Turn(r)) == ElfCount(r)
    {
      CountPreserved(r.elves, r.dirs);
    }
  }

  /** Any number of turns keeps the number of elves. */
  lemma RoundsCount(r: Round, k: nat)
    ensures |Rounds(r, k).elves| == |r.elves|
  {
    TurnKeepsCount();
    IterateKeeps(Turn, ElfCount, r, k);
  }

  lemma RoundsStep(r: Round, k: nat)
    ensures Rounds(r, k + 1) == Turn(Rounds(r, k))
  {
    IterateStep(Turn, r, k);
  }

  // ---- The turn, as the source does it ----

  /** `destinations[d]` lists, once each, the elves of `done` proposing `d`; no other cell is a key. */
  ghost predicate Collected(elves: set<Pos>, dirs: seq<Direction>, destinations: map<Pos, seq<Pos>>, done: set<Pos>)
  {
    (forall d :: d in destinations ==>
      |destinations[d]| == |ProposersIn(elves, dirs, done, d)| >= 1 &&
      forall i :: 0 <= i < |destinations[d]| ==> destinations[d][i] in ProposersIn(elves, dirs, done, d)) &&
    (forall d :: d !in destinations ==> ProposersIn(elves, dirs, done, d) == {})
  }

  /** `destinations.entry(dest).or_default().push(elf)` for the elf's proposal. */
  function Record<K, V>(destinations: map<K, seq<V>>, proposal: Option<K>, elf: V): (r: map<K, seq<V>>)
    ensures proposal.None? ==> r == destinations
    ensures proposal.Some? ==> r.Keys == destinations.Keys + {proposal.value}
    ensures proposal.Some? ==> r[proposal.value] == (if proposal.value in destinations then destinations[proposal.value] else []) + [elf]
    ensures forall d :: d in destinations && Some(d) != proposal ==> r[d] == destinations[d]
  {
    if proposal.None? then destinations
    else
      var d := proposal.value;
      destinations[d := (if d in destinations then destinations[d] else []) + [elf]]
  }

  lemma ProposersInAdd(elves: set<Pos>, dirs: seq<Direction>, done: set<Pos>, elf: Pos, d: Pos)
    requires elf !in done
    ensures ProposersIn(elves, dirs, done + {elf}, d) ==
      ProposersIn(elves, dirs, done, d) + (if Proposal(elves, dirs, elf) == Some(d) then {elf} else {})
  {
  }

  lemma RecordCollects(elves: set<Pos>, dirs: seq<Direction>, destinations: map<Pos, seq<Pos>>, done: set<Pos>, elf: Pos)
    requires elf !in done && Collected(elves, dirs, destinations, done)
    ensures Collected(elves, dirs, Record(destinations, Proposal(elves, dirs, elf), elf), done + {elf})
  {
    var p := Proposal(elves, dirs, elf);
    var r := Record(destinations, p, elf);
    forall d | d in r
      ensures |r[d]| == |ProposersIn(elves, dirs, done + {elf}, d)| >= 1
      ensures forall i :: 0 <= i < |r[d]| ==> r[d][i] in ProposersIn(elves, dirs, done + {elf}, d)
    {
      RecordedAt(elves, dirs, destinations, done, elf, d);
    }
    forall d | d !in r
      ensures ProposersIn(elves, dirs, done + {elf}, d) == {}
    {
      ProposersInAdd(elves, dirs, done, elf, d);
    }
  }

  /** One key of the map after recording an elf. */
  lemma RecordedAt(elves: set<Pos>, dirs: seq<Direction>, destinations: map<Pos, seq<Pos>>, done: set<Pos>, elf: Pos, d: Pos)
    requires elf !in done && Collected(elves, dirs, destinations, done)
    requires d in Record(destinations, Proposal(elves, dirs, elf), elf)
    ensures var r := Record(destinations, Proposal(elves, dirs, elf), elf);
      |r[d]| == |ProposersIn(elves, dirs, done + {elf}, d)| >= 1 &&
      forall i :: 0 <= i < |r[d]| ==> r[d][i] in ProposersIn(elves, dirs, done + {elf}, d)
  {
    ProposersInAdd(elves, dirs, done, elf, d);
    RecordedKey(destinations, Proposal(elves, dirs, elf), elf, d, ProposersIn(elves, dirs, done, d), ProposersIn(elves, dirs, done + {elf}, d));
  }

  /**
   * A key of the map lists the set `before` once each; recording `elf`
   * under `proposal` makes it list `after`, the set with `elf` added when
   * the proposal is that key.
   */
  lemma RecordedKey<K, V>(destinations: map<K, seq<V>>, proposal: Option<K>, elf: V, d: K, before: set<V>, after: set<V>)
    requires d in Record(destinations, proposal, elf) && elf !in before
    requires d in destinations ==> |destinations[d]| == |before| >= 1 && forall i :: 0 <= i < |destinations[d]| ==> destinations[d][i] in before
    requires d !in destinations ==> before == {}
    requires after == before + (if proposal == Some(d) then {elf} else {})
    ensures var r := Record(destinations, proposal, elf);
      |r[d]| == |after| >= 1 && forall i :: 0 <= i < |r[d]| ==> r[d][i] in after
  {
    if proposal == Some(d) {
      assert |before + {elf}| == |before| + 1;
    }
  }

  /** The movers among those proposing a cell of `keys`. */
  function SourcesFor(elves: set<Pos>, dirs: seq<Direction>, keys: set<Pos>): set<Pos>
  {
    set e | e in Movers(elves, dirs) && Proposal(elves, dirs, e).value in keys
  }

  /** The cells of `keys` with a single proposer. */
  function SinglesOf(elves: set<Pos>, dirs: seq<Direction>, keys: set<Pos>): set<Pos>
  {
    set d | d in keys && |Proposers(elves, dirs, d)| == 1
  }

  /** Carrying out the move at a key with a single proposer. */
  lemma ApplyOne(elves: set<Pos>, dirs: seq<Direction>, keys: set<Pos>, d: Pos, src: Pos)
    requires d !in keys && src in Proposers(elves, dirs, d) && |Proposers(elves, dirs, d)| == 1
    ensures SourcesFor(elves, dirs, keys + {d}) == SourcesFor(elves, dirs, keys) + {src}
    ensures SinglesOf(elves, dirs, keys + {d}) == SinglesOf(elves, dirs, keys) + {d}
    ensures src !in SinglesOf(elves, dirs, keys) && src in elves
  {
    assert Moves(elves, dirs, src);
    forall e | e in Movers(elves, dirs) && Proposal(elves, dirs, e).value == d
      ensures e == src
    {
      assert e in Proposers(elves, dirs, d);
      SingletonHasOne(Proposers(elves, dirs, d), e, src);
    }
    NoProposerOnElf(elves, dirs, src);
  }

  /** No elf proposes a cell where an elf stands. */
  lemma NoProposerOnElf(elves: set<Pos>, dirs: seq<Direction>, p: Pos)
    requires p in elves
    ensures Proposers(elves, dirs, p) == {}
  {
  }

  /** Skipping a key whose proposers are not exactly one. */
  lemma SkipOne(elves: set<Pos>, dirs: seq<Direction>, keys: set<Pos>, d: Pos)
    requires |Proposers(elves, dirs, d)| != 1
    ensures SourcesFor(elves, dirs, keys + {d}) == SourcesFor(elves, dirs, keys)
    ensures SinglesOf(elves, dirs, keys + {d}) == SinglesOf(elves, dirs, keys)
  {
    forall e | e in Movers(elves, dirs) && Proposal(elves, dirs, e).value == d
      ensures false
    {
    }
  }

  /** `todo` and `done` split `all`. */
  ghost predicate Partition<T>(todo: set<T>, done: set<T>, all: set<T>)
  {
    todo + done == all && todo * done == {}
  }

  lemma PartitionStep<T>(todo: set<T>, done: set<T>, all: set<T>, x: T)
    requires Partition(todo, done, all) && x in todo
    ensures Partition(todo - {x}, done + {x}, all) && x !in done && x in all
    ensures |todo - {x}| < |todo|
  {
    assert x !in done by {
      assert x in todo * done ==> false;
    }
    assert (todo - {x}) + (done + {x}) == all;
    assert (todo - {x}) * (done + {x}) == {};
    assert todo == (todo - {x}) + {x};
  }

  /** The elves once the keys `handled` are carried out. */
  ghost predicate Applied(start: set<Pos>, dirs: seq<Direction>, handled: set<Pos>, current: set<Pos>)
  {
    current == (start - SourcesFor(start, dirs, handled)) + SinglesOf(start, dirs, handled)
  }

  /** One iteration of the second loop of `run_turn`. */
  lemma ApplyStep(start: set<Pos>, dirs: seq<Direction>, destinations: map<Pos, seq<Pos>>, handled: set<Pos>, d: Pos, current: set<Pos>)
    requires Collected(start, dirs, destinations, start) && d in destinations && d !in handled
    requires Applied(start, dirs, handled, current)
    ensures |destinations[d]| == 1 ==>
      Applied(start, dirs, handled + {d}, (current - {destinations[d][0]}) + {d}) && SinglesOf(start, dirs, handled + {d}) != {}
    ensures |destinations[d]| != 1 ==>
      Applied(start, dirs, handled + {d}, current) && SinglesOf(start, dirs, handled + {d}) == SinglesOf(start, dirs, handled)
  {
    if |destinations[d]| == 1 {
      var src := destinations[d][0];
      ApplyOne(start, dirs, handled, d, src);
      assert d in SinglesOf(start, dirs, handled + {d});
    } else {
      SkipOne(start, dirs, handled, d);
    }
  }

  /** After the last key, the elves are those of `NextElves`, and some moved exactly when there were movers. */
  lemma AllApplied(start: set<Pos>, dirs: seq<Direction>, destinations: map<Pos, seq<Pos>>,
                    keys: set<Pos>, handled: set<Pos>, current: set<Pos>, moved: bool)
    requires Collected(start, dirs, destinations, start)
    requires Applying(start, dirs, destinations, keys, handled, current, moved) && keys == {}
    ensures current == NextElves(start, dirs)
    ensures moved <==> Movers(start, dirs) != {}
  {
    assert handled == destinations.Keys;
    AllKeys(start, dirs, destinations);
    if Movers(start, dirs) != {} {
      var e :| e in Movers(start, dirs);
      assert Proposal(start, dirs, e).value in Targets(start, dirs);
    }
  }

  /** Once every key is handled, the sources are the movers and the singles the targets. */
  lemma AllKeys(elves: set<Pos>, dirs: seq<Direction>, destinations: map<Pos, seq<Pos>>)
    requires Collected(elves, dirs, destinations, elves)
    ensures SourcesFor(elves, dirs, destinations.Keys) == Movers(elves, dirs)
    ensures SinglesOf(elves, dirs, destinations.Keys) == Targets(elves, dirs)
  {
    forall e | e in Movers(elves, dirs)
      ensures Proposal(elves, dirs, e).value in destinations
    {
      assert e in Proposers(elves, dirs, Proposal(elves, dirs, e).value);
    }
    forall d | d in SinglesOf(elves, dirs, destinations.Keys)
      ensures d in Targets(elves, dirs)
    {
      var e :| e in Proposers(elves, dirs, d);
      assert e in Movers(elves, dirs);
    }
  }

  /** The first loop of `run_turn`: every elf's proposal, recorded as `get_elf_moves` does. */
  method CollectMoves(elves: set<Pos>, dirs: seq<Direction>) returns (destinations: map<Pos, seq<Pos>>)
    ensures Collected(elves, dirs, destinations, elves)
  {
    destinations := map[];
    var todo := elves;
    ghost var done: set<Pos> := {};
    while todo != {}
      invariant Partition(todo, done, elves)
      invariant Collected(elves, dirs, destinations, done)
      decreases |todo|
    {
      var elf :| elf in todo;
      PartitionStep(todo, done, elves, elf);
      RecordCollects(elves, dirs, destinations, done, elf);
      destinations := Record(destinations, Proposal(elves, dirs, elf), elf);
      todo := todo - {elf};
      done := done + {elf};
    }
  }

  /** The state of the second loop of `run_turn` once the keys `handled` are carried out and `keys` remain. */
  ghost predicate Applying(start: set<Pos>, dirs: seq<Direction>, destinations: map<Pos, seq<Pos>>,
                           keys: set<Pos>, handled: set<Pos>, elves: set<Pos>, moved: bool)
  {
    Partition(keys, handled, destinations.Keys) &&
    Applied(start, dirs, handled, elves) &&
    (moved <==> SinglesOf(start, dirs, handled) != {})
  }

  /** One key of the second loop of `run_turn`: the move is carried out when the destination has one proposer. */
  method ApplyKey(ghost start: set<Pos>, ghost dirs: seq<Direction>, destinations: map<Pos, seq<Pos>>,
                  keys: set<Pos>, ghost handled: set<Pos>, d: Pos, elves: set<Pos>, moved: bool)
    returns (next: set<Pos>, nowMoved: bool)
    requires Collected(start, dirs, destinations, start) && d in keys
    requires Applying(start, dirs, destinations, keys, handled, elves, moved)
    ensures Applying(start, dirs, destinations, keys - {d}, handled + {d}, next, nowMoved)
    ensures |keys - {d}| < |keys|
  {
    PartitionStep(keys, handled, destinations.Keys, d);
    ApplyStep(start, dirs, destinations, handled, d, elves);
    next, nowMoved := elves, moved;
    if |destinations[d]| == 1 {
      next := next - {destinations[d][0]};
      next := next + {d};
      nowMoved := true;
    }
  }

  /**
   * The second loop of `run_turn`: carry out, one key at a time, the
   * proposals no other elf shares.
   */
  method ApplyMoves(start: set<Pos>, ghost dirs: seq<Direction>, destinations: map<Pos, seq<Pos>>)
    returns (elves: set<Pos>, moved: bool)
    requires Collected(start, dirs, destinations, start)
    ensures elves == NextElves(start, dirs)
    ensures moved <==> Movers(start, dirs) != {}
  {
    elves := start;
    var keys := destinations.Keys;
    ghost var handled: set<Pos> := {};
    moved := false;
    AppliedNone(start, dirs, destinations);
    while keys != {}
      invariant Applying(start, dirs, destinations, keys, handled, elves, moved)
      decreases |keys|
    {
      var d :| d in keys;
      elves, moved := ApplyKey(start, dirs, destinations, keys, handled, d, elves, moved);
      keys := keys - {d};
      handled := handled + {d};
    }
    AllApplied(start, dirs, destinations, keys, handled, elves, moved);
  }

  lemma AppliedNone(start: set<Pos>, dirs: seq<Direction>, destinations: map<Pos, seq<Pos>>)
    ensures Applying(start, dirs, destinations, destinations.Keys, {}, start, false)
  {
  }

  /** The grid of `run_turn`: the elves and the current order of directions. */
  class Grove {
    var elves: set<Pos>
    var directions: seq<Direction>

    constructor (elves: set<Pos>, directions: seq<Direction>)
      ensures this.elves == elves && this.directions == directions
    {
      this.elves := elves;
      this.directions := directions;
    }

    ghost function State(): Round
      reads this
    {
      Round(elves, directions)
    }

    /** `run_turn`. */
    method RunTurn() returns (moved: bool)
      modifies this
      ensures elves == NextElves(old(elves), old(directions)) && directions == RotateLeft(old(directions))
      ensures moved <==> Movers(old(elves), old(directions)) != {}
      ensures State() == Turn(old(State()))
    {
      var destinations := CollectMoves(elves, directions);
      elves, moved := ApplyMoves(elves, directions, destinations);
      directions := RotateLeft(directions);
    }
  }

  // ---- The parts ----

  /** The x or y coordinates of a set of positions. */
  function Xs(s: set<Pos>): set<int>
  {
    set p | p in s :: p.0
  }

  function Ys(s: set<Pos>): set<int>
  {
    set p | p in s :: p.1
  }

  lemma CoordinatesIn(s: set<Pos>)
    ensures forall p :: p in s ==> p.0 in Xs(s) && p.1 in Ys(s)
  {
  }

  ghost predicate IsMin(xs: set<int>, m: int)
  {
    m in xs && forall x :: x in xs ==> m <= x
  }

  ghost predicate IsMax(xs: set<int>, m: int)
  {
    m in xs && forall x :: x in xs ==> x <= m
  }

  /** `minX..=maxX` and `minY..=maxY` are the tightest ranges holding the positions of `s`. */
  ghost predicate Boxed(s: set<Pos>, minX: int, maxX: int, minY: int, maxY: int)
  {
    IsMin(Xs(s), minX) && IsMax(Xs(s), maxX) && IsMin(Ys(s), minY) && IsMax(Ys(s), maxY)
  }

  lemma BoxedOne(p: Pos)
    ensures Boxed({p}, p.0, p.0, p.1, p.1)
  {
    assert Xs({p}) == {p.0};
    assert Ys({p}) == {p.1};
  }

  /** Adding a position widens the box as the comparisons of the loop do. */
  lemma BoxedAdd(s: set<Pos>, p: Pos, minX: int, maxX: int, minY: int, maxY: int)
    requires Boxed(s, minX, maxX, minY, maxY)
    ensures Boxed(s + {p}, if p.0 < minX then p.0 else minX, if p.0 > maxX then p.0 else maxX,
                  if p.1 < minY then p.1 else minY, if p.1 > maxY then p.1 else maxY)
  {
    assert Xs(s + {p}) == Xs(s) + {p.0};
    assert Ys(s + {p}) == Ys(s) + {p.1};
  }

  /** `iter().min()` and `iter().max()` of both coordinates; `unwrap` panics on no elves. */
  method BoundingBox(s: set<Pos>) returns (minX: int, maxX: int, minY: int, maxY: int)
    requires s != {}
    ensures Boxed(s, minX, maxX, minY, maxY)
  {
    var first :| first in s;
    minX, maxX, minY, maxY := first.0, first.0, first.1, first.1;
    var todo := s - {first};
    ghost var done := {first};
    BoxedOne(first);
    while todo != {}
      invariant Partition(todo, done, s)
      invariant Boxed(done, minX, maxX, minY, maxY)
      decreases |todo|
    {
      var p :| p in todo;
      PartitionStep(todo, done, s, p);
      BoxedAdd(done, p, minX, maxX, minY, maxY);
      if p.0 < minX { minX := p.0; }
      if p.0 > maxX { maxX := p.0; }
      if p.1 < minY { minY := p.1; }
      if p.1 > maxY { maxY := p.1; }
      todo := todo - {p};
      done := done + {p};
    }
  }

  /** The set of positions of one row, `x0..=x1`, holds at most `x1 + 1 - x0` of them. */
  lemma {:induction false} RowBound(row: set<Pos>, x0: int, x1: int, y: int)
    requires x0 <= x1 + 1
    requires forall p :: p in row ==> p.1 == y && x0 <= p.0 <= x1
    ensures |row| <= x1 + 1 - x0
    decreases x1 + 1 - x0
  {
    if x0 <= x1 {
      var rest := set p | p in row && p.0 < x1;
      assert row <= rest + {(x1, y)};
      RowBound(rest, x0, x1 - 1, y);
      SubsetSize(row, rest + {(x1, y)});
    } else {
      assert row == {};
    }
  }

  /** At most `(x1 + 1 - x0) * (y1 + 1 - y0)` positions fit in a box. */
  lemma {:induction false} BoxBound(s: set<Pos>, x0: int, x1: int, y0: int, y1: int)
    requires x0 <= x1 + 1 && y0 <= y1 + 1
    requires forall p :: p in s ==> x0 <= p.0 <= x1 && y0 <= p.1 <= y1
    ensures |s| <= (x1 + 1 - x0) * (y1 + 1 - y0)
    decreases y1 + 1 - y0
  {
    var w := x1 + 1 - x0;
    if y0 <= y1 {
      var row := set p | p in s && p.1 == y1;
      var rest := set p | p in s && p.1 < y1;
      assert s == row + rest && row * rest == {};
      RowBound(row, x0, x1, y1);
      BoxBound(rest, x0, x1, y0, y1 - 1);
      assert w * (y1 + 1 - y0) == w * (y1 - y0) + w;
    } else {
      assert s == {};
      assert w * 0 == 0;
    }
  }

  /** The free tiles of the bounding box of `s`; `None` where `unwrap` panics on no elves. */
  method EmptyGround(s: set<Pos>) returns (r: Option<int>)
    ensures r.None? <==> s == {}
    ensures r.Some? ==> r.value >= 0
    ensures r.Some? ==> exists minX, maxX, minY, maxY ::
      Boxed(s, minX, maxX, minY, maxY) && r.value == (maxX + 1 - minX) * (maxY + 1 - minY) - |s|
  {
    if s == {} {
      return None;
    }
    var minX, maxX, minY, maxY := BoundingBox(s);
    CoordinatesIn(s);
    BoxBound(s, minX, maxX, minY, maxY);
    r := Some((maxX + 1 - minX) * (maxY + 1 - minY) - |s|);
  }

  /** One turn, as a step from the `k`-th round to the next. */
  method TurnOnce(grid: Grove, ghost start: Round, ghost k: nat) returns (moved: bool)
    requires grid.State() == Rounds(start, k)
    modifies grid
    ensures grid.State() == Rounds(start, k + 1)
    ensures moved == Moving(Rounds(start, k))
  {
    RoundsStep(start, k);
    MovingMovers(grid.State());
    moved := grid.RunTurn();
  }

  /** `n` turns from the round `start` the grid holds. */
  method RunTurns(grid: Grove, ghost start: Round, n: nat)
    requires grid.State() == start
    modifies grid
    ensures grid.State() == Rounds(start, n)
  {
    for k := 0 to n
      invariant grid.State() == Rounds(start, k)
    {
      var _ := TurnOnce(grid, start, k);
    }
  }

  /** `part1`: the free tiles of the elves' bounding box after ten turns; `None` where `unwrap` panics. */
  method Part1(elves: set<Pos>) returns (r: Option<int>)
    ensures r.None? <==> elves == {}
    ensures r.Some? ==> r.value >= 0
    ensures r.Some? ==> var s := Rounds(Round(elves, InitialDirections), 10).elves;
      exists minX, maxX, minY, maxY :: Boxed(s, minX, maxX, minY, maxY) &&
        r.value == (maxX + 1 - minX) * (maxY + 1 - minY) - |s|
  {
    var grid := new Grove(elves, InitialDirections);
    RunTurns(grid, Round(elves, InitialDirections), 10);
    RoundsCount(Round(elves, InitialDirections), 10);
    r := EmptyGround(grid.elves);
  }

  /**
   * The first of the turns numbered `i` to `limit`, starting from `x`, in
   * which `p` fails, where the state goes from one turn to the next by `f`.
   */
  ghost function FirstFailure<T>(p: T -> bool, f: T -> T, x: T, i: nat, limit: nat): Option<nat>
    decreases limit + 1 - i
  {
    if i > limit then None
    else if !p(x) then Some(i)
    else FirstFailure(p, f, f(x), i + 1, limit)
  }

  /** A found turn is the earliest failure; with none, `p` holds in every turn. */
  lemma {:induction false} FirstFailureIsFirst<T>(p: T -> bool, f: T -> T, x: T, i: nat, limit: nat)
    ensures var r := FirstFailure(p, f, x, i, limit);
      (r.Some? ==> i <= r.value <= limit && !p(Iterate(f, x, r.value - i))) &&
      (r.Some? ==> forall k :: 0 <= k < r.value - i ==> p(Iterate(f, x, k))) &&
      (r.None? ==> forall k :: 0 <= k <= limit - i ==> p(Iterate(f, x, k)))
    decreases limit + 1 - i
  {
    if i <= limit && p(x) {
      FirstFailureIsFirst(p, f, f(x), i + 1, limit);
      var r := FirstFailure(p, f, x, i, limit);
      forall k | 0 <= k && (if r.Some? then k < r.value - i else k <= limit - i)
        ensures p(Iterate(f, x, k))
      {
        if k > 0 {
          assert Iterate(f, x, k) == Iterate(f, f(x), k - 1);
        }
      }
      if r.Some? {
        assert Iterate(f, x, r.value - i) == Iterate(f, f(x), r.value - (i + 1));
      }
    }
  }

  /** The turn of `part2`: the grid holds `x`, and turn `i` is the next to run. */
  method TurnOrStop(grid: Grove, ghost start: Round, limit: nat, i: nat) returns (r: Option<nat>)
    requires 1 <= i <= limit
    requires FirstFailure(Moving, Turn, start, 1, limit) == FirstFailure(Moving, Turn, grid.State(), i, limit)
    modifies grid
    ensures r.Some? ==> r == FirstFailure(Moving, Turn, start, 1, limit)
    ensures r.None? ==> FirstFailure(Moving, Turn, start, 1, limit) == FirstFailure(Moving, Turn, grid.State(), i + 1, limit)
  {
    ghost var before := grid.State();
    MovingMovers(before);
    var moved := grid.RunTurn();
    if !moved {
      r := Some(i);
    } else {
      r := None;
    }
  }

  /** The turns of `part2`, from the round `start` the grid holds, until no elf moves or `limit` turns are done. */
  method TurnsUntilStill(grid: Grove, ghost start: Round, limit: nat) returns (r: Option<nat>)
    requires grid.State() == start
    modifies grid
    ensures r == FirstFailure(Moving, Turn, start, 1, limit)
  {
    var i := 1;
    while i <= limit
      invariant 1 <= i <= limit + 1
      invariant FirstFailure(Moving, Turn, start, 1, limit) == FirstFailure(Moving, Turn, grid.State(), i, limit)
    {
      r := TurnOrStop(grid, start, limit, i);
      if r.Some? {
        return;
      }
      i := i + 1;
    }
    r := None;
  }

  /**
   * `part2`: the number of the first turn in which no elf moves. The
   * source's `for i in 1..` has no bound; the model gives up after `limit`
   * turns.
   */
  method Part2(elves: set<Pos>, limit: nat) returns (r: Option<nat>)
    ensures StillFirst(Round(elves, InitialDirections), limit, r)
  {
    var grid := new Grove(elves, InitialDirections);
    r := TurnsUntilStill(grid, Round(elves, InitialDirections), limit);
    FirstFailureFails(Moving, Turn, Round(elves, InitialDirections), limit);
  }

  /**
   * `r` is the number of the first of `limit` turns from `start` in which
   * no elf moves, or `None` when elves move in all of them
   * (`Iterate(Turn, start, k)` is `Rounds(start, k)`).
   */
  ghost predicate StillFirst(start: Round, limit: nat, r: Option<nat>)
  {
    FailsFirst(Moving, Turn, start, limit, r)
  }

  /** `r` numbers the first of turns 1 to `limit` whose state fails `p`, or is `None` when all pass. */
  ghost predicate FailsFirst<T>(p: T -> bool, f: T -> T, x: T, limit: nat, r: Option<nat>)
  {
    (r.Some? ==> 1 <= r.value <= limit && !p(Iterate(f, x, r.value - 1))) &&
    (r.Some? ==> forall k :: 0 <= k < r.value - 1 ==> p(Iterate(f, x, k))) &&
    (r.None? ==> forall k :: 0 <= k < limit ==> p(Iterate(f, x, k)))
  }

  /** `FirstFailure` from turn 1 finds the first failing turn. */
  lemma FirstFailureFails<T>(p: T -> bool, f: T -> T, x: T, limit: nat)
    ensures FailsFirst(p, f, x, limit, FirstFailure(p, f, x, 1, limit))
  {
    FirstFailureIsFirst(p, f, x, 1, limit);
  }
}
