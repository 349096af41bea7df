/**
 * Day 5 (src/days/day5.rs): crates moved between stacks by a crane.
 *
 * A stack is a sequence of crates whose first element is the top of the
 * stack (the front of the Rust `VecDeque`). `Storage` keeps the stacks and
 * the parsed moves; the moves themselves come from a regular expression
 * and are given as values here.
 */
module Day05 {
  import opened Wrappers

  /** `move n from from to to`, with 1-based stack numbers. */
  datatype Move = Move(from: nat, to: nat, n: nat)

  type Stacks = seq<seq<char>>

  /**
   * What `do_move` needs not to panic: both numbers name a stack (`from - 1`
   * underflows otherwise), they differ (`split_at_mut` leaves no second
   * stack otherwise) and the source holds at least `n` crates (`drain`).
   */
  predicate ValidMove(st: Stacks, m: Move)
  {
    1 <= m.from <= |st| && 1 <= m.to <= |st| && m.from != m.to && m.n <= |st[m.from - 1]|
  }

  function Reverse<T>(s: seq<T>): (r: seq<T>)
    ensures |r| == |s|
    ensures forall i :: 0 <= i < |s| ==> r[i] == s[|s| - 1 - i]
  {
    if s == [] then [] else [s[|s| - 1]] + Reverse(s[..|s| - 1])
  }

  /**
   * The stacks after a move: the top `n` crates leave the source; the target
   * gets them reversed when they move one at a time (`reverse == false`) and
   * in their old order when the crane lifts them together.
   */
  function Moved(st: Stacks, m: Move, reverse: bool): (r: Stacks)
    requires ValidMove(st, m)
  {
    var block := st[m.from - 1][..m.n];
    var landed := if reverse then block else Reverse(block);
    st[m.to - 1 := landed + st[m.to - 1]][m.from - 1 := st[m.from - 1][m.n..]]
  }

  function Total(st: Stacks): nat
  {
    if st == [] then 0 else Total(st[..|st| - 1]) + |st[|st| - 1]|
  }

  lemma {:induction false} TotalUpdate(st: Stacks, i: nat, s: seq<char>)
    requires i < |st|
    ensures Total(st[i := s]) + |st[i]| == Total(st) + |s|
  {
    var n := |st| - 1;
    if i < n {
      TotalUpdate(st[..n], i, s);
      assert st[i := s][..n] == st[..n][i := s];
    } else {
      assert st[i := s][..n] == st[..n];
    }
  }

  /** A move keeps the number of crates. */
  lemma MovePreservesTotal(st: Stacks, m: Move, reverse: bool)
    requires ValidMove(st, m)
    ensures Total(Moved(st, m, reverse)) == Total(st)
  {
    var block := st[m.from - 1][..m.n];
    var landed := if reverse then block else Reverse(block);
    var mid := st[m.to - 1 := landed + st[m.to - 1]];
    assert |landed| == m.n && mid[m.from - 1] == st[m.from - 1];
    TotalUpdate(st, m.to - 1, landed + st[m.to - 1]);
    TotalUpdate(mid, m.from - 1, st[m.from - 1][m.n..]);
  }

  /** A move changes the two stacks it names and no other, and keeps the crates of both. */
  lemma MoveShape(st: Stacks, m: Move, reverse: bool)
    requires ValidMove(st, m)
    ensures var r := Moved(st, m, reverse);
      && |r| == |st|
      && (forall i :: 0 <= i < |st| && i != m.from - 1 && i != m.to - 1 ==> r[i] == st[i])
      && r[m.from - 1] == st[m.from - 1][m.n..]
      && r[m.to - 1][m.n..] == st[m.to - 1]
      && multiset(r[m.from - 1] + r[m.to - 1]) == multiset(st[m.from - 1] + st[m.to - 1])
  {
    var block := st[m.from - 1][..m.n];
    var landed := if reverse then block else Reverse(block);
    assert multiset(Reverse(block)) == multiset(block) by { ReverseMultiset(block); }
    assert st[m.from - 1] == block + st[m.from - 1][m.n..];
  }

  lemma {:induction false} ReverseMultiset<T>(s: seq<T>)
    ensures multiset(Reverse(s)) == multiset(s)
  {
    if s != [] {
      ReverseMultiset(s[..|s| - 1]);
      assert s == s[..|s| - 1] + [s[|s| - 1]];
    }
  }

  /** One crane: the first crate of the target is the last one lifted when crates move one by one. */
  lemma SingleCraneTop(st: Stacks, m: Move)
    requires ValidMove(st, m) && m.n > 0
    ensures Moved(st, m, false)[m.to - 1][0] == st[m.from - 1][m.n - 1]
    ensures Moved(st, m, true)[m.to - 1][0] == st[m.from - 1][0]
  {
  }

  class Storage {
    var stacks: Stacks
    var moves: seq<Move>

    constructor(stacks: Stacks, moves: seq<Move>)
      ensures this.stacks == stacks && this.moves == moves
    {
      this.stacks := stacks;
      this.moves := moves;
    }

    /**
     * `do_move`: drain the top `n` crates of the source and push each onto
     * the front of the target, in drained order or in reverse order.
     */
    method DoMove(mov: Move, reverse: bool)
      requires ValidMove(stacks, mov)
      modifies this
      ensures stacks == Moved(old(stacks), mov, reverse)
      ensures moves == old(moves)
    {
      var from, to := mov.from - 1, mov.to - 1;
      var source := stacks[from];
      var drained := source[..mov.n];
      var onto := stacks[to];
      var target := onto;
      if reverse {
        var i := mov.n;
        while i > 0
          invariant 0 <= i <= mov.n
          invariant target == drained[i..] + onto
        {
          i := i - 1;
          target := [drained[i]] + target;
        }
      } else {
        for i := 0 to mov.n
          invariant target == Reverse(drained[..i]) + onto
        {
          assert drained[..i + 1][..i] == drained[..i];
          target := [drained[i]] + target;
        }
        assert drained[..mov.n] == drained;
      }
      stacks := stacks[to := target][from := source[mov.n..]];
    }
  }

  /** All moves in order; a move that would panic stops the run. */
  function Apply(st: Stacks, moves: seq<Move>, reverse: bool): (r: Option<Stacks>)
    ensures r.Some? ==> |r.value| == |st| && Total(r.value) == Total(st)
    decreases |moves|
  {
    if moves == [] then Some(st)
    else if !ValidMove(st, moves[0]) then None
    else
      MovePreservesTotal(st, moves[0], reverse);
      MoveShape(st, moves[0], reverse);
      Apply(Moved(st, moves[0], reverse), moves[1..], reverse)
  }

  /** `filter_map(pop_front).collect()`: the top crate of every non-empty stack. */
  function Tops(st: Stacks): (r: string)
    ensures |r| <= |st|
  {
    if st == [] then []
    else if st[0] == [] then Tops(st[1..])
    else [st[0][0]] + Tops(st[1..])
  }

  /** When no stack is empty, the answer has one letter per stack, its top crate. */
  lemma {:induction false} TopsOfNonEmpty(st: Stacks)
    requires forall i :: 0 <= i < |st| ==> st[i] != []
    ensures |Tops(st)| == |st|
    ensures forall i :: 0 <= i < |st| ==> Tops(st)[i] == st[i][0]
  {
    if st != [] {
      TopsOfNonEmpty(st[1..]);
    }
  }

  /** The part1/part2 loop over a copy of the storage. */
  method RunCrane(input: Storage, reverse: bool) returns (r: Option<string>)
    ensures var after := Apply(input.stacks, input.moves, reverse);
      r == if after.Some? then Some(Tops(after.value)) else None
  {
    var storage := new Storage(input.stacks, input.moves);
    var moves := storage.moves;
    for i := 0 to |moves|
      invariant storage.moves == moves
      invariant Apply(input.stacks, input.moves, reverse) == Apply(storage.stacks, moves[i..], reverse)
    {
      if !ValidMove(storage.stacks, moves[i]) {
        return None;
      }
      assert moves[i..][1..] == moves[i + 1..];
      storage.DoMove(moves[i], reverse);
    }
    return Some(Tops(storage.stacks));
  }

  /** `part1`: crates moved one at a time. */
  method Part1(input: Storage) returns (r: Option<string>)
    ensures var after := Apply(input.stacks, input.moves, false);
      r == if after.Some? then Some(Tops(after.value)) else None
  {
    r := RunCrane(input, false);
  }

  /** `part2`: crates lifted together. */
  method Part2(input: Storage) returns (r: Option<string>)
    ensures var after := Apply(input.stacks, input.moves, true);
      r == if after.Some? then Some(Tops(after.value)) else None
  {
    r := RunCrane(input, true);
  }

  /** The example of src/days/day5.rs:101-109, top crate first. */
  function ExampleStacks(): Stacks
  {
    [['N', 'Z'], ['D', 'C', 'M'], ['P']]
  }

  function ExampleMoves(): seq<Move>
  {
    [Move(2, 1, 1), Move(1, 3, 3), Move(2, 1, 2), Move(1, 2, 1)]
  }

  /** A move spelled out by the block it lifts and the crates it leaves. */
  lemma MoveStep(st: Stacks, m: Move, reverse: bool, block: seq<char>, rest: seq<char>, landed: seq<char>)
    requires ValidMove(st, m)
    requires st[m.from - 1] == block + rest && |block| == m.n
    requires landed == if reverse then block else Reverse(block)
    ensures Moved(st, m, reverse) == st[m.to - 1 := landed + st[m.to - 1]][m.from - 1 := rest]
  {
    assert st[m.from - 1][..m.n] == block;
    assert st[m.from - 1][m.n..] == rest;
  }

  /** Applying a valid first move leaves the rest of the moves on the stacks it produces. */
  lemma ApplyStep(st: Stacks, ms: seq<Move>, reverse: bool, st': Stacks)
    requires ms != [] && ValidMove(st, ms[0]) && Moved(st, ms[0], reverse) == st'
    ensures Apply(st, ms, reverse) == Apply(st', ms[1..], reverse)
  {
  }

  lemma Part1Example()
    ensures Apply(ExampleStacks(), ExampleMoves(), false) == Some([['C'], ['M'], ['Z', 'N', 'D', 'P']])
    ensures Tops([['C'], ['M'], ['Z', 'N', 'D', 'P']]) == "CMZ"
  {
    var ms := ExampleMoves();
    var s0, s1, s2, s3, s4 := ExampleStacks(), Part1After(1), Part1After(2), Part1After(3), Part1After(4);
    Part1Move1();
    Part1Move2();
    Part1Move3();
    Part1Move4();
    ApplyStep(s0, ms, false, s1);
    ApplyStep(s1, ms[1..], false, s2);
    ApplyStep(s2, ms[2..], false, s3);
    ApplyStep(s3, ms[3..], false, s4);
    assert ms[3..][1..] == ms[4..] == [];
    assert ms[2..][1..] == ms[3..];
    assert ms[1..][1..] == ms[2..];
    TopsOfNonEmpty(s4);
  }

  /** The stacks of the example after `k` moves of one crate at a time. */
  function Part1After(k: nat): Stacks
  {
    if k == 0 then ExampleStacks()
    else if k == 1 then [['D', 'N', 'Z'], ['C', 'M'], ['P']]
    else if k == 2 then [[], ['C', 'M'], ['Z', 'N', 'D', 'P']]
    else if k == 3 then [['M', 'C'], [], ['Z', 'N', 'D', 'P']]
    else [['C'], ['M'], ['Z', 'N', 'D', 'P']]
  }

  /** The stacks of the example after `k` moves of blocks. */
  function Part2After(k: nat): Stacks
  {
    if k == 0 then ExampleStacks()
    else if k == 1 then [['D', 'N', 'Z'], ['C', 'M'], ['P']]
    else if k == 2 then [[], ['C', 'M'], ['D', 'N', 'Z', 'P']]
    else if k == 3 then [['C', 'M'], [], ['D', 'N', 'Z', 'P']]
    else [['M'], ['C'], ['D', 'N', 'Z', 'P']]
  }

  lemma Part1Move1()
    ensures ValidMove(Part1After(0), ExampleMoves()[0]) && Moved(Part1After(0), ExampleMoves()[0], false) == Part1After(1)
  {
    assert Reverse(['D']) == ['D'];
    MoveStep(Part1After(0), ExampleMoves()[0], false, ['D'], ['C', 'M'], ['D']);
    assert ['D'] + ['N', 'Z'] == ['D', 'N', 'Z'];
  }

  lemma Part1Move2()
    ensures ValidMove(Part1After(1), ExampleMoves()[1]) && Moved(Part1After(1), ExampleMoves()[1], false) == Part1After(2)
  {
    assert Reverse(['D']) == ['D'];
    assert Reverse(['D', 'N']) == ['N', 'D'] by { assert ['D', 'N'][..1] == ['D']; }
    assert Reverse(['D', 'N', 'Z']) == ['Z', 'N', 'D'] by { assert ['D', 'N', 'Z'][..2] == ['D', 'N']; }
    MoveStep(Part1After(1), ExampleMoves()[1], false, ['D', 'N', 'Z'], [], ['Z', 'N', 'D']);
    assert ['Z', 'N', 'D'] + ['P'] == ['Z', 'N', 'D', 'P'];
  }

  lemma Part1Move3()
    ensures ValidMove(Part1After(2), ExampleMoves()[2]) && Moved(Part1After(2), ExampleMoves()[2], false) == Part1After(3)
  {
    assert Reverse(['C']) == ['C'];
    assert Reverse(['C', 'M']) == ['M', 'C'] by { assert ['C', 'M'][..1] == ['C']; }
    MoveStep(Part1After(2), ExampleMoves()[2], false, ['C', 'M'], [], ['M', 'C']);
    assert ['M', 'C'] + [] == ['M', 'C'];
  }

  lemma Part1Move4()
    ensures ValidMove(Part1After(3), ExampleMoves()[3]) && Moved(Part1After(3), ExampleMoves()[3], false) == Part1After(4)
  {
    assert Reverse(['M']) == ['M'];
    MoveStep(Part1After(3), ExampleMoves()[3], false, ['M'], ['C'], ['M']);
  }

  lemma Part2Example()
    ensures Apply(ExampleStacks(), ExampleMoves(), true) == Some([['M'], ['C'], ['D', 'N', 'Z', 'P']])
    ensures Tops([['M'], ['C'], ['D', 'N', 'Z', 'P']]) == "MCD"
  {
    var ms := ExampleMoves();
    var s0, s1, s2, s3, s4 := ExampleStacks(), Part2After(1), Part2After(2), Part2After(3), Part2After(4);
    Part2Move1();
    Part2Move2();
    Part2Move3();
    Part2Move4();
    ApplyStep(s0, ms, true, s1);
    ApplyStep(s1, ms[1..], true, s2);
    ApplyStep(s2, ms[2..], true, s3);
    ApplyStep(s3, ms[3..], true, s4);
    assert ms[3..][1..] == ms[4..] == [];
    assert ms[2..][1..] == ms[3..];
    assert ms[1..][1..] == ms[2..];
    TopsOfNonEmpty(s4);
  }

  lemma Part2Move1()
    ensures ValidMove(Part2After(0), ExampleMoves()[0]) && Moved(Part2After(0), ExampleMoves()[0], true) == Part2After(1)
  {
    MoveStep(Part2After(0), ExampleMoves()[0], true, ['D'], ['C', 'M'], ['D']);
    assert ['D'] + ['N', 'Z'] == ['D', 'N', 'Z'];
  }

  lemma Part2Move2()
    ensures ValidMove(Part2After(1), ExampleMoves()[1]) && Moved(Part2After(1), ExampleMoves()[1], true) == Part2After(2)
  {
    MoveStep(Part2After(1), ExampleMoves()[1], true, ['D', 'N', 'Z'], [], ['D', 'N', 'Z']);
    assert ['D', 'N', 'Z'] + ['P'] == ['D', 'N', 'Z', 'P'];
  }

  lemma Part2Move3()
    ensures ValidMove(Part2After(2), ExampleMoves()[2]) && Moved(Part2After(2), ExampleMoves()[2], true) == Part2After(3)
  {
    MoveStep(Part2After(2), ExampleMoves()[2], true, ['C', 'M'], [], ['C', 'M']);
    assert ['C', 'M'] + [] == ['C', 'M'];
  }

  lemma Part2Move4()
    ensures ValidMove(Part2After(3), ExampleMoves()[3]) && Moved(Part2After(3), ExampleMoves()[3], true) == Part2After(4)
  {
    MoveStep(Part2After(3), ExampleMoves()[3], true, ['C'], ['M'], ['C']);
    assert ['C'] + [] == ['C'];
  }



  // --- The crate drawing -------------------------------------------------

  /** The crate letter of column `j` of a drawing row (`skip(1).step_by(4)`), or a space. */
  function Cell(line: string, j: nat): char
  {
    if 1 + 4 * j < |line| then line[1 + 4 * j] else ' '
  }

  /** The number of columns `skip(1).step_by(4)` visits. */
  function Columns(line: string): (n: nat)
    ensures forall j: nat :: j < n <==> 1 + 4 * j < |line|
  {
    if |line| <= 1 then 0 else (|line| - 2) / 4 + 1
  }

  /**
   * The first `j` columns of a row pushed onto the backs of the stacks; a
   * crate in a column with no stack panics.
   */
  function PushCells(st: Stacks, line: string, j: nat): (r: Option<Stacks>)
    ensures r.Some? ==> |r.value| == |st|
  {
    if j == 0 then Some(st)
    else
      var prev := PushCells(st, line, j - 1);
      var c := Cell(line, j - 1);
      if prev.None? then None
      else if c == ' ' then prev
      else if j - 1 < |st| then Some(prev.value[j - 1 := prev.value[j - 1] + [c]])
      else None
  }

  /** Each column gains its crate at the back, and a row only fails on a crate without a stack. */
  lemma {:induction false} PushCellsContents(st: Stacks, line: string, j: nat)
    ensures PushCells(st, line, j).Some? <==> forall c :: |st| <= c < j ==> Cell(line, c) == ' '
    ensures PushCells(st, line, j).Some? ==>
      forall c :: 0 <= c < |st| ==>
        PushCells(st, line, j).value[c] == st[c] + (if c < j && Cell(line, c) != ' ' then [Cell(line, c)] else [])
  {
    if j > 0 {
      PushCellsContents(st, line, j - 1);
    }
  }

  /** The rows of the drawing: the lines before the first one with no `[`. */
  function CrateRows(lines: seq<string>): (rows: nat)
    ensures rows <= |lines|
    ensures forall i :: 0 <= i < rows ==> '[' in lines[i]
    ensures rows < |lines| ==> '[' !in lines[rows]
  {
    if lines == [] || '[' !in lines[0] then 0 else 1 + CrateRows(lines[1..])
  }

  function EmptyStacks(n: nat): (st: Stacks)
    ensures |st| == n && forall i :: 0 <= i < n ==> st[i] == []
  {
    if n == 0 then [] else EmptyStacks(n - 1) + [[]]
  }

  /** The drawing rows pushed top first, so the front of every stack is its top crate. */
  function PushRows(st: Stacks, rows: seq<string>): (r: Option<Stacks>)
    ensures r.Some? ==> |r.value| == |st|
    decreases |rows|
  {
    if rows == [] then Some(st)
    else
      var next := PushCells(st, rows[0], Columns(rows[0]));
      if next.None? then None else PushRows(next.value, rows[1..])
  }

  /** The stacks of `parse`: as many as a third of the first line's length; an empty input panics. */
  function Drawing(lines: seq<string>): Option<Stacks>
  {
    if lines == [] then None
    else PushRows(EmptyStacks(|lines[0]| / 3), lines[..CrateRows(lines)])
  }

  /** The top crate of a stack comes from the highest row that has a crate in that column. */
  lemma {:induction false} TopComesFromHighestRow(st: Stacks, rows: seq<string>, c: nat, i: nat)
    requires c < |st| && st[c] == []
    requires PushRows(st, rows).Some?
    requires i < |rows| && Cell(rows[i], c) != ' '
    requires forall h :: 0 <= h < i ==> Cell(rows[h], c) == ' '
    ensures PushRows(st, rows).value[c] != [] && PushRows(st, rows).value[c][0] == Cell(rows[i], c)
    decreases |rows|
  {
    var next := PushCells(st, rows[0], Columns(rows[0]));
    PushCellsContents(st, rows[0], Columns(rows[0]));
    if i == 0 {
      assert next.value[c] == [Cell(rows[0], c)];
      PushRowsKeepsFront(next.value, rows[1..], c);
    } else {
      assert Cell(rows[0], c) == ' ';
      assert next.value[c] == [] by {
        if c < Columns(rows[0]) {
        } else {
        }
      }
      TopComesFromHighestRow(next.value, rows[1..], c, i - 1);
    }
  }

  /** Later rows only push at the back, so a non-empty stack keeps its front. */
  lemma {:induction false} PushRowsKeepsFront(st: Stacks, rows: seq<string>, c: nat)
    requires c < |st| && st[c] != []
    requires PushRows(st, rows).Some?
    ensures |PushRows(st, rows).value| == |st|
    ensures PushRows(st, rows).value[c] != [] && PushRows(st, rows).value[c][0] == st[c][0]
    decreases |rows|
  {
    if rows != [] {
      var next := PushCells(st, rows[0], Columns(rows[0]));
      PushCellsContents(st, rows[0], Columns(rows[0]));
      PushRowsKeepsFront(next.value, rows[1..], c);
    }
  }

  /** Once a column fails, the row fails. */
  lemma {:induction false} PushCellsNoneStays(st: Stacks, line: string, j: nat, k: nat)
    requires j <= k && PushCells(st, line, j).None?
    ensures PushCells(st, line, k).None?
    decreases k - j
  {
    if j < k {
      PushCellsNoneStays(st, line, j + 1, k);
    }
  }

  /** The drawing half of `parse`: the nested loop over rows and columns. */
  method ParseDrawing(lines: seq<string>) returns (r: Option<Stacks>)
    ensures r == Drawing(lines)
  {
    if lines == [] {
      return None;
    }
    var stacks := EmptyStacks(|lines[0]| / 3);
    ghost var rows := CrateRows(lines);
    ghost var init := stacks;
    var i := 0;
    while i < |lines| && '[' in lines[i]
      invariant i <= rows
      invariant PushRows(init, lines[..rows]) == PushRows(stacks, lines[i..rows])
    {
      var line := lines[i];
      ghost var before := stacks;
      for j := 0 to Columns(line)
        invariant PushCells(before, line, j) == Some(stacks)
      {
        var c := line[1 + 4 * j];
        if c != ' ' {
          if j >= |stacks| {
            assert Cell(line, j) == c;
            PushCellsNoneStays(before, line, j + 1, Columns(line));
            return None;
          }
          stacks := stacks[j := stacks[j] + [c]];
        }
      }
      assert lines[i..rows][1..] == lines[i + 1..rows];
      i := i + 1;
    }
    return Some(stacks);
  }
}
