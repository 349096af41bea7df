/**
 * Day 1 (src/days/day1.rs): elves carry groups of calorie counts; part 1 is
 * the largest group total, part 2 the sum of the three largest totals.
 */
module Day01 {
  import opened Wrappers
  import Text
  import Sorting
  import opened Largest

  /** One elf's calorie items (`Elf(Vec<i32>)`). */
  type Elf = seq<int>

  /** Every word is an `i32`. */
  predicate AllParse(words: seq<string>)
  {
    forall k :: 0 <= k < |words| ==> Text.ParseI32(words[k]).Some?
  }

  /** One group of the input: every whitespace-separated word is an `i32`. */
  function ParseElf(group: string): (r: Option<Elf>)
    ensures r.Some? <==> AllParse(Text.Words(group))
    ensures r.Some? ==>
              && |r.value| == |Text.Words(group)|
              && forall k :: 0 <= k < |r.value| ==> Some(r.value[k]) == Text.ParseI32(Text.Words(group)[k])
  {
    var words := Text.Words(group);
    if AllParse(words) then
      Some(seq(|words|, k requires 0 <= k < |words| => Text.ParseI32(words[k]).value))
    else None
  }

  /** Every group is a list of `i32`s. */
  predicate AllElves(groups: seq<string>)
  {
    forall g :: 0 <= g < |groups| ==> ParseElf(groups[g]).Some?
  }

  /**
   * `parse`: groups are separated by a blank line; a word that is not an
   * `i32` makes `unwrap` panic, modelled as `None`.
   */
  function Parse(input: string): (r: Option<seq<Elf>>)
    ensures r.Some? <==> AllElves(Text.Split(input, "\n\n"))
    ensures r.Some? ==>
              && |r.value| == |Text.Split(input, "\n\n")|
              && forall g :: 0 <= g < |r.value| ==> Some(r.value[g]) == ParseElf(Text.Split(input, "\n\n")[g])
  {
    var groups := Text.Split(input, "\n\n");
    if AllElves(groups) then
      Some(seq(|groups|, g requires 0 <= g < |groups| => ParseElf(groups[g]).value))
    else None
  }

  /** The calorie total of every elf, in input order. */
  function Totals(elves: seq<Elf>): (r: seq<int>)
    ensures |r| == |elves|
    ensures forall i :: 0 <= i < |elves| ==> r[i] == Sum(elves[i])
  {
    seq(|elves|, i requires 0 <= i < |elves| => Sum(elves[i]))
  }

  /** The largest entry of a non-empty sequence. */
  function MaxOf(s: seq<int>): (m: int)
    requires |s| > 0
    ensures m in s
    ensures forall i :: 0 <= i < |s| ==> s[i] <= m
  {
    if |s| == 1 then s[0]
    else
      var rest := MaxOf(s[..|s| - 1]);
      if s[|s| - 1] > rest then s[|s| - 1] else rest
  }

  /** `part1`: the largest elf total; `max().unwrap()` panics when there is no elf. */
  function Part1(elves: seq<Elf>): (r: Option<int>)
    ensures r.None? <==> elves == []
    ensures r.Some? ==> exists i :: 0 <= i < |elves| && r.value == Sum(elves[i])
    ensures r.Some? ==> forall i :: 0 <= i < |elves| ==> Sum(elves[i]) <= r.value
  {
    if elves == [] then None
    else
      var totals := Totals(elves);
      var m := MaxOf(totals);
      assert exists i :: 0 <= i < |totals| && totals[i] == m;
      Some(m)
  }

  /**
   * `part2`: sort the totals in place, then add the last three (`rev().take(3)`).
   * The result is the sum of the three largest totals of the sorted order.
   */
  method Part2(elves: seq<Elf>) returns (r: int)
    ensures r == SumLast(Sorting.Sort(Totals(elves), Le), 3)
  {
    var totals := Totals(elves);
    var a := new int[|totals|];
    forall i | 0 <= i < a.Length {
      a[i] := totals[i];
    }
    assert a[..] == totals;
    Sorting.SortUnstable(a, Le);
    r := SumOfLast(a, 3);
  }

  /** `into_iter().rev().take(k).sum()` over an array. */
  method SumOfLast(a: array<int>, k: nat) returns (r: int)
    ensures r == SumLast(a[..], k)
  {
    var n := a.Length;
    var take := if n < k then n else k;
    r := 0;
    var i := 0;
    while i < take
      invariant 0 <= i <= take
      invariant r == Sum(a[n - i..])
    {
      SumFirst(a[n - i - 1..]);
      assert a[n - i - 1..][1..] == a[n - i..];
      r := r + a[n - 1 - i];
      i := i + 1;
    }
  }

  /**
   * The part 2 answer is the largest sum of three totals: no choice of three
   * elves (all of them, when there are fewer) carries more.
   */
  lemma Part2IsLargest(elves: seq<Elf>, chosen: seq<int>)
    requires multiset(chosen) <= multiset(Totals(elves))
    requires |chosen| == Min(3, |elves|)
    ensures Sum(chosen) <= SumLast(Sorting.Sort(Totals(elves), Le), 3)
  {
    var sorted := Sorting.Sort(Totals(elves), Le);
    SumLastIsLargest(sorted, chosen, 3);
  }

  /** ... and the three (or fewer) largest totals are themselves a choice of elves. */
  lemma Part2IsAttained(elves: seq<Elf>)
    ensures exists chosen: seq<int> ::
      multiset(chosen) <= multiset(Totals(elves)) && |chosen| == Min(3, |elves|)
      && Sum(chosen) == SumLast(Sorting.Sort(Totals(elves), Le), 3)
  {
    var sorted := Sorting.Sort(Totals(elves), Le);
    assert |sorted| == |elves| by {
      assert |multiset(sorted)| == |multiset(Totals(elves))|;
    }
    SumLastIsAttained(sorted, 3);
    var last := sorted[|sorted| - Min(3, |sorted|)..];
    assert multiset(last) <= multiset(Totals(elves));
  }

  /** The example of the puzzle statement (src/days/day1.rs:38-52). */
  lemma Part1Example()
    ensures Part1([[1000, 2000, 3000], [4000], [5000, 6000], [7000, 8000, 9000], [10000]]) == Some(24000)
  {
    var elves := [[1000, 2000, 3000], [4000], [5000, 6000], [7000, 8000, 9000], [10000]];
    assert Sum([7000]) == 7000;
    assert Sum([7000, 8000]) == 15000;
    assert Sum(elves[3]) == 24000;
    assert Sum([10000]) == 10000;
    assert Sum([1000]) == 1000;
    assert Sum([1000, 2000]) == 3000;
    assert Sum(elves[0]) == 6000;
    assert Sum([5000]) == 5000;
    assert Sum(elves[2]) == 11000;
    assert Sum(elves[1]) == 4000;
    assert Totals(elves) == [6000, 4000, 11000, 24000, 10000];
  }
}
