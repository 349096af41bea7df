/**
 * Day 4 (src/days/day4.rs): pairs of inclusive section ranges; part 1 counts
 * pairs where one range contains the other, part 2 pairs that overlap.
 */
module Day04 {
  import opened Wrappers

  /** `RangeInclusive<u32>`: `start..=end`, empty when `start > end`. */
  datatype Range = Range(start: nat, end: nat)
  {
    predicate Contains(x: int)
    {
      start <= x <= end
    }

    predicate NonEmpty()
    {
      start <= end
    }
  }

  /** `ElfPair`: the two ranges of one line, as the regex parser yields them. */
  datatype ElfPair = ElfPair(a: Range, b: Range)

  /** `is_superset`: `self` starts no later and ends no earlier than `other`. */
  predicate IsSuperset(slf: Range, other: Range)
  {
    slf.start <= other.start && slf.end >= other.end
  }

  /** For a non-empty `other`, `is_superset` means every section of `other` is in `slf`. */
  lemma SupersetMeansContainment(slf: Range, other: Range)
    requires other.NonEmpty()
    ensures IsSuperset(slf, other) <==> forall x :: other.Contains(x) ==> slf.Contains(x)
  {
    if !IsSuperset(slf, other) {
      if slf.start > other.start {
        assert other.Contains(other.start);
      } else {
        assert other.Contains(other.end);
      }
    }
  }

  /** `is_overlapping`: shared endpoints overlap; otherwise compare the later start with the other end. */
  predicate IsOverlapping(slf: Range, other: Range)
  {
    if slf.end == other.start || other.end == slf.start then true
    else if slf.start < other.start then slf.end >= other.start
    else other.end >= slf.start
  }

  /**
   * For non-empty ranges `is_overlapping` is exactly "some section lies in
   * both", the naive count the source compares it with in debug builds.
   */
  lemma OverlapMeansCommonSection(slf: Range, other: Range)
    requires slf.NonEmpty() && other.NonEmpty()
    ensures IsOverlapping(slf, other) <==> exists x :: slf.Contains(x) && other.Contains(x)
  {
    if IsOverlapping(slf, other) {
      var x := if slf.start < other.start then other.start else slf.start;
      assert slf.Contains(x) && other.Contains(x);
    }
  }

  /** `is_overlapping` is symmetric on non-empty ranges, and ranges sharing an endpoint overlap. */
  lemma OverlapSymmetric(slf: Range, other: Range)
    requires slf.NonEmpty() && other.NonEmpty()
    ensures IsOverlapping(slf, other) == IsOverlapping(other, slf)
    ensures slf.end == other.start ==> IsOverlapping(slf, other)
  {
  }

  /** On an empty range the shortcut and the naive check disagree: `5..=3` "overlaps" `3..=3`. */
  lemma EmptyRangeOverlaps()
    ensures IsOverlapping(Range(5, 3), Range(3, 3))
    ensures !exists x :: Range(5, 3).Contains(x) && Range(3, 3).Contains(x)
  {
  }

  /** The number of pairs satisfying `p`, as `filter(..).count()` computes it. */
  function Count(pairs: seq<ElfPair>, p: ElfPair -> bool): (n: nat)
    ensures n <= |pairs|
  {
    if pairs == [] then 0 else Count(pairs[..|pairs| - 1], p) + if p(pairs[|pairs| - 1]) then 1 else 0
  }

  predicate FullyContained(e: ElfPair)
  {
    IsSuperset(e.a, e.b) || IsSuperset(e.b, e.a)
  }

  predicate Overlapping(e: ElfPair)
  {
    IsOverlapping(e.a, e.b)
  }

  /** The indices of the pairs satisfying `p`: the set `filter(..).count()` counts. */
  ghost function Where(pairs: seq<ElfPair>, p: ElfPair -> bool): set<nat>
  {
    set i: nat | i < |pairs| && p(pairs[i])
  }

  /** `Count` is the number of indices whose pair passes the filter. */
  lemma {:induction false} CountWhere(pairs: seq<ElfPair>, p: ElfPair -> bool)
    ensures Count(pairs, p) == |Where(pairs, p)|
    decreases |pairs|
  {
    if pairs != [] {
      var n := |pairs| - 1;
      var init := pairs[..n];
      CountWhere(init, p);
      assert forall i :: 0 <= i < n ==> init[i] == pairs[i];
      if p(pairs[n]) {
        assert Where(pairs, p) == Where(init, p) + {n};
      } else {
        assert Where(pairs, p) == Where(init, p);
      }
    }
  }

  /**
   * The naive test of the debug build: some section of `b` lies in `a`, or
   * some section of `a` lies in `b` (iterating an empty range yields nothing).
   */
  predicate NaiveOverlap(e: ElfPair)
  {
    (exists x | e.b.start <= x <= e.b.end :: e.a.Contains(x))
    || (exists x | e.a.start <= x <= e.a.end :: e.b.Contains(x))
  }

  /**
   * The naive test is "some section lies in both"; it implies
   * `is_overlapping`, and on non-empty ranges it agrees with it.
   */
  lemma NaiveMeansCommonSection(e: ElfPair)
    ensures NaiveOverlap(e) <==> exists x :: e.a.Contains(x) && e.b.Contains(x)
    ensures NaiveOverlap(e) ==> Overlapping(e)
    ensures e.a.NonEmpty() && e.b.NonEmpty() ==> (NaiveOverlap(e) <==> Overlapping(e))
  {
    if exists x :: e.a.Contains(x) && e.b.Contains(x) {
      var x :| e.a.Contains(x) && e.b.Contains(x);
      assert e.b.start <= x <= e.b.end && e.a.Contains(x);
    }
    if NaiveOverlap(e) {
      var x :| e.a.Contains(x) && e.b.Contains(x);
      assert e.a.NonEmpty() && e.b.NonEmpty();
      OverlapMeansCommonSection(e.a, e.b);
    }
    if e.a.NonEmpty() && e.b.NonEmpty() {
      OverlapMeansCommonSection(e.a, e.b);
    }
  }

  /** A pair the shortcut counts but the naive test does not: it has an empty range. */
  predicate Spurious(e: ElfPair)
  {
    Overlapping(e) && !NaiveOverlap(e)
  }

  /**
   * With a filter `p` that implies `q`, the two counts are equal exactly
   * when no pair passes `q` but fails `p`.
   */
  lemma {:induction false} CountsAgree(pairs: seq<ElfPair>, p: ElfPair -> bool, q: ElfPair -> bool)
    requires forall e :: p(e) ==> q(e)
    ensures Count(pairs, p) <= Count(pairs, q)
    ensures Count(pairs, p) == Count(pairs, q) <==> forall i :: 0 <= i < |pairs| ==> (q(pairs[i]) ==> p(pairs[i]))
    decreases |pairs|
  {
    if pairs != [] {
      var n := |pairs| - 1;
      var init := pairs[..n];
      CountsAgree(init, p, q);
      assert forall i :: 0 <= i < n ==> init[i] == pairs[i];
    }
  }

  /** `part1`: pairs where either range contains the other. */
  function Part1(pairs: seq<ElfPair>): (r: nat)
    ensures r == |Where(pairs, FullyContained)|
  {
    CountWhere(pairs, FullyContained);
    Count(pairs, FullyContained)
  }

  /**
   * `part2` in a debug build: the pairs whose ranges overlap by the
   * shortcut, or `None` where `assert_eq!` against the naive count panics,
   * which is exactly when some pair with an empty range is counted.
   */
  function Part2(pairs: seq<ElfPair>): (r: Option<nat>)
    ensures r.None? <==> exists i :: 0 <= i < |pairs| && Spurious(pairs[i])
    ensures r.Some? ==> r.value == |Where(pairs, Overlapping)| && r.value == |Where(pairs, NaiveOverlap)|
  {
    var naive := Count(pairs, NaiveOverlap);
    var withRange := Count(pairs, Overlapping);
    forall e | NaiveOverlap(e) ensures Overlapping(e) {
      NaiveMeansCommonSection(e);
    }
    CountsAgree(pairs, NaiveOverlap, Overlapping);
    CountWhere(pairs, Overlapping);
    CountWhere(pairs, NaiveOverlap);
    if naive != withRange then None else Some(withRange)
  }

  /** With non-empty ranges the assertion holds, and part 2 counts the pairs sharing a section. */
  lemma Part2NonEmpty(pairs: seq<ElfPair>)
    requires forall i :: 0 <= i < |pairs| ==> pairs[i].a.NonEmpty() && pairs[i].b.NonEmpty()
    ensures Part2(pairs) == Some(Count(pairs, Overlapping))
  {
    forall i | 0 <= i < |pairs| ensures !Spurious(pairs[i]) {
      NaiveMeansCommonSection(pairs[i]);
    }
    CountWhere(pairs, Overlapping);
  }

  /** The pair `5-3,3-3` makes the debug build panic. */
  lemma EmptyRangePanics()
    ensures Part2([ElfPair(Range(5, 3), Range(3, 3))]).None?
  {
    var e := ElfPair(Range(5, 3), Range(3, 3));
    NaiveMeansCommonSection(e);
    assert [e][0] == e;
  }

  /** With non-empty ranges part 2 does not panic, and part 1 never exceeds it. */
  lemma {:induction false} Part1AtMostPart2(pairs: seq<ElfPair>)
    requires forall i :: 0 <= i < |pairs| ==> pairs[i].a.NonEmpty() && pairs[i].b.NonEmpty()
    ensures Part2(pairs).Some? && Part1(pairs) <= Part2(pairs).value
  {
    Part2NonEmpty(pairs);
    ContainedAtMostOverlapping(pairs);
  }

  /** With non-empty ranges, every fully contained pair is counted by the shortcut. */
  lemma {:induction false} ContainedAtMostOverlapping(pairs: seq<ElfPair>)
    requires forall i :: 0 <= i < |pairs| ==> pairs[i].a.NonEmpty() && pairs[i].b.NonEmpty()
    ensures Count(pairs, FullyContained) <= Count(pairs, Overlapping)
  {
    if pairs != [] {
      ContainedAtMostOverlapping(pairs[..|pairs| - 1]);
      var e := pairs[|pairs| - 1];
      if FullyContained(e) {
        var x := if IsSuperset(e.a, e.b) then e.b.start else e.a.start;
        OverlapMeansCommonSection(e.a, e.b);
        assert e.a.Contains(x) && e.b.Contains(x);
      }
    }
  }

  /** `Count` over one more pair. */
  lemma CountSnoc(pairs: seq<ElfPair>, e: ElfPair, p: ElfPair -> bool)
    ensures Count(pairs + [e], p) == Count(pairs, p) + if p(e) then 1 else 0
  {
    assert (pairs + [e])[..|pairs|] == pairs;
  }

  /** The example of src/days/day4.rs:87-93: two pairs are fully contained. */
  lemma Part1Example()
    ensures Part1([ElfPair(Range(2, 4), Range(6, 8)), ElfPair(Range(2, 3), Range(4, 5)),
                   ElfPair(Range(5, 7), Range(7, 9)), ElfPair(Range(2, 8), Range(3, 7)),
                   ElfPair(Range(6, 6), Range(4, 6)), ElfPair(Range(2, 6), Range(4, 8))]) == 2
  {
    var c0: seq<ElfPair> := [];
    var ps := [ElfPair(Range(2, 4), Range(6, 8)), ElfPair(Range(2, 3), Range(4, 5)),
               ElfPair(Range(5, 7), Range(7, 9)), ElfPair(Range(2, 8), Range(3, 7)),
               ElfPair(Range(6, 6), Range(4, 6)), ElfPair(Range(2, 6), Range(4, 8))];
    CountSnoc(c0, ps[0], FullyContained);
    var c1 := c0 + [ps[0]];
    CountSnoc(c1, ps[1], FullyContained);
    var c2 := c1 + [ps[1]];
    CountSnoc(c2, ps[2], FullyContained);
    var c3 := c2 + [ps[2]];
    CountSnoc(c3, ps[3], FullyContained);
    var c4 := c3 + [ps[3]];
    CountSnoc(c4, ps[4], FullyContained);
    var c5 := c4 + [ps[4]];
    CountSnoc(c5, ps[5], FullyContained);
    assert c5 + [ps[5]] == ps;
  }

  /** The pairs of the test at src/days/day4.rs:98-109. */
  function Part2Pairs(): seq<ElfPair>
  {
    [ElfPair(Range(2, 4), Range(6, 8)), ElfPair(Range(2, 3), Range(4, 5)),
     ElfPair(Range(5, 7), Range(7, 9)), ElfPair(Range(2, 8), Range(3, 7)),
     ElfPair(Range(6, 6), Range(4, 6)), ElfPair(Range(2, 6), Range(4, 8)),
     ElfPair(Range(1, 4), Range(3, 7)), ElfPair(Range(7, 9), Range(1, 8)),
     ElfPair(Range(7, 8), Range(1, 9)), ElfPair(Range(6, 7), Range(1, 8)),
     ElfPair(Range(28, 79), Range(27, 27))]
  }

  /** Eight of those pairs overlap by the shortcut. */
  lemma Part2PairsOverlap()
    ensures Count(Part2Pairs(), Overlapping) == 8
  {
    var c0: seq<ElfPair> := [];
    var ps := Part2Pairs();
    CountSnoc(c0, ps[0], Overlapping);
    var c1 := c0 + [ps[0]];
    CountSnoc(c1, ps[1], Overlapping);
    var c2 := c1 + [ps[1]];
    CountSnoc(c2, ps[2], Overlapping);
    var c3 := c2 + [ps[2]];
    CountSnoc(c3, ps[3], Overlapping);
    var c4 := c3 + [ps[3]];
    CountSnoc(c4, ps[4], Overlapping);
    var c5 := c4 + [ps[4]];
    CountSnoc(c5, ps[5], Overlapping);
    var c6 := c5 + [ps[5]];
    CountSnoc(c6, ps[6], Overlapping);
    var c7 := c6 + [ps[6]];
    CountSnoc(c7, ps[7], Overlapping);
    var c8 := c7 + [ps[7]];
    CountSnoc(c8, ps[8], Overlapping);
    var c9 := c8 + [ps[8]];
    CountSnoc(c9, ps[9], Overlapping);
    var c10 := c9 + [ps[9]];
    CountSnoc(c10, ps[10], Overlapping);
    assert c10 + [ps[10]] == ps;
  }

  /** The example of src/days/day4.rs:98-109: no range is empty, and eight pairs overlap. */
  lemma Part2Example()
    ensures Part2(Part2Pairs()) == Some(8)
  {
    var ps := Part2Pairs();
    assert forall i :: 0 <= i < |ps| ==> ps[i].a.NonEmpty() && ps[i].b.NonEmpty();
    Part2NonEmpty(ps);
    Part2PairsOverlap();
  }
}
