/**
 * Day 10 (src/days/day10.rs): a one-register CPU and the picture its
 * register draws on a 40-column screen.
 *
 * Parsing expands every `addx v` into a `Nop` followed by `Addx(v)` and every
 * `noop` into a `Nop`, so that entry `i` of the expanded program is cycle
 * `i + 1` and an addition takes effect after its second cycle.
 */
module Day10 {
  import opened Wrappers
  import Text

  /** An entry of the expanded program, one per cycle. */
  datatype Inst = Nop | Addx(v: int)

  /** `From<Inst> for i32`: what the entry adds to the register. */
  function Value(i: Inst): int
  {
    match i
    case Nop => 0
    case Addx(v) => v
  }

  /** An instruction as written in the input. */
  datatype Op = Noop | AddX(arg: int)

  /** The cycles of one instruction in the `flat_map` of `parse`. */
  function Expand(op: Op): (r: seq<Inst>)
    ensures |r| == Cycles(op)
  {
    match op
    case Noop => [Nop]
    case AddX(v) => [Nop, Addx(v)]
  }

  function Cycles(op: Op): nat
  {
    if op.Noop? then 1 else 2
  }

  function ExpandAll(ops: seq<Op>): (r: seq<Inst>)
    ensures |r| == CyclesAll(ops)
  {
    if ops == [] then [] else ExpandAll(ops[..|ops| - 1]) + Expand(ops[|ops| - 1])
  }

  function CyclesAll(ops: seq<Op>): nat
  {
    if ops == [] then 0 else CyclesAll(ops[..|ops| - 1]) + Cycles(ops[|ops| - 1])
  }

  /**
   * One line: `noop` (anything after it is ignored) or `addx` with a
   * parsable `i32`; anything else panics.
   */
  function ParseLine(line: string): (r: Option<Op>)
    ensures var w := Text.Words(line);
      r.Some? <==> |w| >= 1 && (w[0] == "noop" || (w[0] == "addx" && |w| >= 2 && Text.ParseI32(w[1]).Some?))
    ensures var w := Text.Words(line);
      r.Some? ==> (r.value == Noop <==> w[0] == "noop") && (r.value.AddX? ==> Text.ParseI32(w[1]) == Some(r.value.arg))
  {
    var w := Text.Words(line);
    if |w| == 0 then None
    else if w[0] == "noop" then Some(Noop)
    else if w[0] == "addx" && |w| >= 2 then
      var v := Text.ParseI32(w[1]);
      if v.None? then None else Some(AddX(v.value))
    else None
  }

  function ParseLines(lines: seq<string>): (r: Option<seq<Op>>)
    ensures r.Some? <==> forall i :: 0 <= i < |lines| ==> ParseLine(lines[i]).Some?
    ensures r.Some? ==> |r.value| == |lines| && forall i :: 0 <= i < |lines| ==> ParseLine(lines[i]) == Some(r.value[i])
  {
    if lines == [] then Some([])
    else
      var op := ParseLine(lines[0]);
      var rest := ParseLines(lines[1..]);
      if op.None? || rest.None? then
        assert op.None? ==> !ParseLine(lines[0]).Some?;
        assert rest.None? ==> exists i :: 1 <= i < |lines| && !ParseLine(lines[i]).Some? by {
          if rest.None? {
            var j :| 0 <= j < |lines[1..]| && !ParseLine(lines[1..][j]).Some?;
            assert lines[1..][j] == lines[j + 1];
          }
        }
        None
      else Some([op.value] + rest.value)
  }

  /** `parse`: the expanded program. */
  function Parse(input: string): Option<seq<Inst>>
  {
    var ops := ParseLines(Text.Lines(input));
    if ops.None? then None else Some(ExpandAll(ops.value))
  }

  /** The register after the first `n` entries: it starts at 1 and only `Addx` changes it. */
  function XAfter(insts: seq<Inst>, n: nat): int
    requires n <= |insts|
  {
    if n == 0 then 1 else XAfter(insts, n - 1) + Value(insts[n - 1])
  }

  /** The sum of the arguments of the `addx` instructions. */
  function AddSum(ops: seq<Op>): int
  {
    if ops == [] then 0
    else AddSum(ops[..|ops| - 1]) + (if ops[|ops| - 1].AddX? then ops[|ops| - 1].arg else 0)
  }

  lemma XAfterPrefix(insts: seq<Inst>, more: seq<Inst>, n: nat)
    requires n <= |insts|
    ensures XAfter(insts + more, n) == XAfter(insts, n)
  {
    if n > 0 {
      XAfterPrefix(insts, more, n - 1);
    }
  }

  /**
   * The cycle semantics of the expansion: once the first `k` instructions
   * have completed, the register is 1 plus the sum of their `addx`
   * arguments; during the second cycle of an `addx` it is still unchanged.
   */
  lemma {:induction false} RegisterAfterInstructions(ops: seq<Op>, k: nat)
    requires k <= |ops|
    ensures CyclesAll(ops[..k]) <= |ExpandAll(ops)|
    ensures XAfter(ExpandAll(ops), CyclesAll(ops[..k])) == 1 + AddSum(ops[..k])
    ensures k < |ops| && ops[k].AddX? ==>
      CyclesAll(ops[..k]) + 1 <= |ExpandAll(ops)|
      && XAfter(ExpandAll(ops), CyclesAll(ops[..k]) + 1) == 1 + AddSum(ops[..k])
    decreases |ops|
  {
    var n := |ops|;
    if n > 0 {
      var init := ops[..n - 1];
      if k < n {
        RegisterAfterInstructions(init, k);
        RegisterBefore(ops, k);
      } else {
        RegisterAfterInstructions(init, n - 1);
        RegisterAtEnd(ops);
      }
    } else {
      assert ops[..k] == [];
    }
  }

  /** The three facts of `RegisterAfterInstructions` about the first `k` instructions. */
  ghost predicate RegisterKnown(ops: seq<Op>, k: nat)
    requires k <= |ops|
  {
    && CyclesAll(ops[..k]) <= |ExpandAll(ops)|
    && XAfter(ExpandAll(ops), CyclesAll(ops[..k])) == 1 + AddSum(ops[..k])
    && (k < |ops| && ops[k].AddX? ==>
      CyclesAll(ops[..k]) + 1 <= |ExpandAll(ops)|
      && XAfter(ExpandAll(ops), CyclesAll(ops[..k]) + 1) == 1 + AddSum(ops[..k]))
  }

  /** Appending an instruction does not change the register during the earlier ones. */
  lemma RegisterBefore(ops: seq<Op>, k: nat)
    requires k < |ops| && RegisterKnown(ops[..|ops| - 1], k)
    ensures RegisterKnown(ops, k)
  {
    var n := |ops|;
    var init := ops[..n - 1];
    assert ExpandAll(ops) == ExpandAll(init) + Expand(ops[n - 1]);
    assert ops[..k] == init[..k];
    XAfterPrefix(ExpandAll(init), Expand(ops[n - 1]), CyclesAll(init[..k]));
    if k < n - 1 && ops[k].AddX? {
      assert init[k] == ops[k];
      XAfterPrefix(ExpandAll(init), Expand(ops[n - 1]), CyclesAll(init[..k]) + 1);
    } else if k == n - 1 && ops[k].AddX? {
      assert init[..k] == init;
      assert XAfter(ExpandAll(ops), CyclesAll(init) + 1) == XAfter(ExpandAll(ops), CyclesAll(init));
    }
  }

  /** After the last instruction the register has taken every addition. */
  lemma RegisterAtEnd(ops: seq<Op>)
    requires |ops| > 0 && RegisterKnown(ops[..|ops| - 1], |ops| - 1)
    ensures RegisterKnown(ops, |ops|)
  {
    var n := |ops|;
    var init := ops[..n - 1];
    assert ExpandAll(ops) == ExpandAll(init) + Expand(ops[n - 1]);
    assert ops[..n] == ops;
    assert init[..n - 1] == init;
    var base := CyclesAll(init);
    XAfterPrefix(ExpandAll(init), Expand(ops[n - 1]), base);
    if ops[n - 1].AddX? {
      assert XAfter(ExpandAll(ops), base + 2) == XAfter(ExpandAll(ops), base) + ops[n - 1].arg;
    }
  }

  /** The cycles at which `part1` samples the signal. */
  const Checkpoints: seq<nat> := [20, 60, 100, 140, 180, 220]

  /**
   * The signal strengths at the checkpoints the program reaches among the
   * first `n` entries: after entry `i` the register holds its value during
   * cycle `i + 2`.
   */
  function Strength(insts: seq<Inst>, n: nat): int
    requires n <= |insts|
  {
    if n == 0 then 0
    else Strength(insts, n - 1) + (if n + 1 in Checkpoints then (n + 1) * XAfter(insts, n) else 0)
  }

  /** `part1`: the register loop and the running sum. */
  method Part1(insts: seq<Inst>) returns (sum: int)
    ensures sum == Strength(insts, |insts|)
  {
    var x := 1;
    sum := 0;
    for i := 0 to |insts|
      invariant x == XAfter(insts, i) && sum == Strength(insts, i)
    {
      x := x + Value(insts[i]);
      if i + 2 in Checkpoints {
        sum := sum + (i + 2) * x;
      }
    }
  }

  /** Pixel `ci` is lit when the three-wide sprite around the register covers column `ci % 40`. */
  function Pixel(insts: seq<Inst>, ci: nat): char
    requires ci < |insts|
  {
    var x := XAfter(insts, ci);
    if x - 1 <= ci % 40 <= x + 1 then '#' else ' '
  }

  /** `buf.chunks(40).fold(..)`: every row of at most 40 pixels followed by a line end. */
  function Rows(buf: string): string
    decreases |buf|
  {
    if buf == [] then []
    else if |buf| <= 40 then buf + "\n"
    else buf[..40] + "\n" + Rows(buf[40..])
  }

  function RemoveNewlines(s: string): string
  {
    if s == [] then [] else (if s[0] == '\n' then [] else [s[0]]) + RemoveNewlines(s[1..])
  }

  lemma {:induction false} RemoveNewlinesConcat(a: string, b: string)
    ensures RemoveNewlines(a + b) == RemoveNewlines(a) + RemoveNewlines(b)
  {
    if a != [] {
      assert (a + b)[1..] == a[1..] + b;
      RemoveNewlinesConcat(a[1..], b);
    } else {
      assert a + b == b;
    }
  }

  lemma {:induction false} RemoveNewlinesNone(s: string)
    requires '\n' !in s
    ensures RemoveNewlines(s) == s
  {
    if s != [] {
      assert s == [s[0]] + s[1..];
      assert '\n' !in s[1..];
      RemoveNewlinesNone(s[1..]);
    }
  }

  /**
   * The screen holds exactly the pixels, in order, cut into rows: one line
   * end per started row of 40.
   */
  lemma {:induction false} RowsShape(buf: string)
    requires '\n' !in buf
    ensures RemoveNewlines(Rows(buf)) == buf
    ensures |Rows(buf)| == |buf| + (|buf| + 39) / 40
    decreases |buf|
  {
    if buf == [] {
    } else if |buf| <= 40 {
      RemoveNewlinesConcat(buf, "\n");
      RemoveNewlinesNone(buf);
    } else {
      RowsShape(buf[40..]);
      RemoveNewlinesConcat(buf[..40] + "\n", Rows(buf[40..]));
      RemoveNewlinesConcat(buf[..40], "\n");
      RemoveNewlinesNone(buf[..40]);
      assert buf[..40] + buf[40..] == buf;
    }
  }

  /** `part2`: the pixels of every cycle, drawn row by row after a leading line end. */
  method Part2(insts: seq<Inst>) returns (screen: string)
    ensures exists buf: string ::
      && |buf| == |insts|
      && (forall ci :: 0 <= ci < |insts| ==> buf[ci] == Pixel(insts, ci))
      && screen == "\n" + Rows(buf)
  {
    var x := 1;
    var buf: string := [];
    for ci := 0 to |insts|
      invariant x == XAfter(insts, ci)
      invariant |buf| == ci && forall c :: 0 <= c < ci ==> buf[c] == Pixel(insts, c)
    {
      buf := buf + [if x - 1 <= ci % 40 <= x + 1 then '#' else ' '];
      x := x + Value(insts[ci]);
    }
    screen := "\n" + Rows(buf);
  }

  /** The pixels are `#` and space only, so the screen gives them back row by row. */
  lemma ScreenHoldsPixels(insts: seq<Inst>, buf: string)
    requires |buf| == |insts| && forall ci :: 0 <= ci < |insts| ==> buf[ci] == Pixel(insts, ci)
    ensures RemoveNewlines(Rows(buf)) == buf
    ensures |Rows(buf)| == |buf| + (|buf| + 39) / 40
  {
    assert '\n' !in buf by {
      forall ci | 0 <= ci < |buf| ensures buf[ci] != '\n' {
        assert buf[ci] == Pixel(insts, ci);
      }
    }
    RowsShape(buf);
  }
}
