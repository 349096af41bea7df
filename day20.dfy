/**
 * Day 20 (src/days/day20.rs): mixing an encrypted file. Every number is
 * tagged with its original index; in the original order, each nonzero
 * number is moved through the buffer by swapping it with its neighbour,
 * |number| mod (len - 1) times, in the direction of its sign, and the
 * coordinates are the values 1000, 2000 and 3000 places after the 0.
 *
 * The buffer is an array, changed only by swaps. The mixing is proved
 * against the function `Mixed`; what it keeps (the multiset of tagged
 * values, the uniqueness of the tags) and where a moved number lands are
 * lemmas about that function.
 */
module Day20 {
  import opened Wrappers
  import RustInt

  /** A value with its original index. */
  type Tagged = (int, nat)

  /** `enumerate().map(|(i, &v)| (v, i))`. */
  function Tag(values: seq<int>): (r: seq<Tagged>)
    ensures |r| == |values| && forall i :: 0 <= i < |values| ==> r[i] == (values[i], i)
  {
    seq(|values|, i requires 0 <= i < |values| => (values[i], i))
  }

  /** No tagged value occurs twice. */
  ghost predicate Unique(s: seq<Tagged>)
  {
    forall x :: multiset(s)[x] <= 1
  }

  /** The tags of a fresh buffer are unique, because the indices are. */
  lemma {:induction false} TagUnique(values: seq<int>)
    ensures Unique(Tag(values))
  {
    if values != [] {
      var init := values[..|values| - 1];
      TagUnique(init);
      var t := Tag(values);
      assert t == Tag(init) + [t[|t| - 1]];
      forall x ensures multiset(t)[x] <= 1 {
        if x == t[|t| - 1] {
          assert x !in Tag(init) by {
            forall i | 0 <= i < |init| ensures Tag(init)[i] != x {
            }
          }
        }
      }
    }
  }

  /** A permutation of a buffer with unique tags has unique tags. */
  lemma UniquePermutation(s: seq<Tagged>, t: seq<Tagged>)
    requires Unique(s) && multiset(s) == multiset(t)
    ensures Unique(t)
  {
  }

  /** `iter().position(|&n| n == x)`: the first index holding `x`. */
  function Position(s: seq<Tagged>, x: Tagged): (r: Option<nat>)
    ensures r.Some? ==> r.value < |s| && s[r.value] == x && forall j :: 0 <= j < r.value ==> s[j] != x
    ensures r.None? <==> x !in s
  {
    if s == [] then None
    else if s[0] == x then Some(0)
    else
      var rest := Position(s[1..], x);
      assert x in s <==> x in s[1..] by {
        assert s == [s[0]] + s[1..];
      }
      if rest.Some? then Some(rest.value + 1) else None
  }

  /** With unique tags, the position lookup finds the one index holding `x`. */
  lemma PositionUnique(s: seq<Tagged>, x: Tagged, i: nat)
    requires Unique(s) && i < |s| && s[i] == x
    ensures Position(s, x) == Some(i)
  {
    var p := Position(s, x).value;
    if p < i {
      OccursTwice(s, x, p, i);
      assert false;
    }
  }

  /** A value at two indices occurs twice in the multiset. */
  lemma OccursTwice(s: seq<Tagged>, x: Tagged, p: nat, i: nat)
    requires p < i < |s| && s[p] == x && s[i] == x
    ensures multiset(s)[x] >= 2
  {
    assert s == s[..i] + s[i..];
    assert s[..i][p] == x && s[i..][0] == x;
    assert multiset(s) == multiset(s[..i]) + multiset(s[i..]);
  }

  // ---- Moving one number ----

  function Sign(n: int): int
  {
    if n > 0 then 1 else if n < 0 then -1 else 0
  }

  function Abs(n: int): nat
  {
    if n < 0 then -n else n
  }

  /** A step of one place in the direction `dir`, round the end of a buffer of `n`. */
  function Next(i: nat, dir: int, n: nat): (r: nat)
    requires i < n && (dir == 1 || dir == -1)
    ensures r < n
  {
    if i + dir == n then 0 else if i + dir < 0 then n - 1 else i + dir
  }

  /** `Next` is the source's `(idx + dir).rem_euclid(len)`; Dafny's `%` is `rem_euclid`. */
  lemma NextIsRemEuclid(i: nat, dir: int, n: nat)
    requires i < n && (dir == 1 || dir == -1)
    ensures Next(i, dir, n) == (i + dir) % n
  {
    if i + dir == n {
      RustInt.ModUnique(n, n, 1, 0);
    } else if i + dir < 0 {
      RustInt.ModUnique(-1, n, -1, n - 1);
    } else {
      RustInt.ModUnique(i + dir, n, 0, i + dir);
    }
  }

  /** `buffer.swap(i, j)`. */
  function Swap(s: seq<Tagged>, i: nat, j: nat): (r: seq<Tagged>)
    requires i < |s| && j < |s|
    ensures |r| == |s| && r[i] == s[j] && r[j] == s[i]
    ensures forall k :: 0 <= k < |s| && k != i && k != j ==> r[k] == s[k]
  {
    s[i := s[j]][j := s[i]]
  }

  /** A swap only permutes the buffer. */
  lemma SwapPermutation(s: seq<Tagged>, i: nat, j: nat)
    requires i < |s| && j < |s|
    ensures multiset(Swap(s, i, j)) == multiset(s)
  {
  }

  /** `k` swaps that carry the value at `i` one place at a time in the direction `dir`, round the end. */
  function Steps(s: seq<Tagged>, i: nat, dir: int, k: nat): (r: seq<Tagged>)
    requires i < |s| && (dir == 1 || dir == -1)
    ensures |r| == |s|
    decreases k
  {
    if k == 0 then s
    else
      var next := Next(i, dir, |s|);
      Steps(Swap(s, i, next), next, dir, k - 1)
  }

  /** The swaps only permute the buffer. */
  lemma {:induction false} StepsPermutation(s: seq<Tagged>, i: nat, dir: int, k: nat)
    requires i < |s| && (dir == 1 || dir == -1)
    ensures multiset(Steps(s, i, dir, k)) == multiset(s)
    decreases k
  {
    if k > 0 {
      var next := Next(i, dir, |s|);
      var swapped := Swap(s, i, next);
      StepsPermutation(swapped, next, dir, k - 1);
      SwapPermutation(s, i, next);
      assert Steps(s, i, dir, k) == Steps(swapped, next, dir, k - 1);
    }
  }

  /** Where `k` single steps from `i` end, in a buffer of `n`. */
  function Advance(i: nat, dir: int, k: nat, n: nat): (r: nat)
    requires i < n && (dir == 1 || dir == -1)
    ensures r < n
    decreases k
  {
    if k == 0 then i else Advance(Next(i, dir, n), dir, k - 1, n)
  }

  /** `k` single steps round the end are one jump of `dir * k` places, reduced mod `n`. */
  lemma {:induction false} AdvanceWraps(i: nat, dir: int, k: nat, n: nat, offset: int)
    requires i < n && (dir == 1 || dir == -1) && offset == (if dir == 1 then k as int else -(k as int))
    ensures Advance(i, dir, k, n) == (i + offset) % n
    decreases k
  {
    if k == 0 {
      RustInt.ModUnique(i, n, 0, i);
    } else {
      AdvanceWraps(Next(i, dir, n), dir, k - 1, n, offset - dir);
      NextIsRemEuclid(i, dir, n);
      RustInt.ModAdd(i + dir, offset - dir, n);
      assert i + dir + (offset - dir) == i + offset;
    }
  }

  /** After `k` steps the value that was at `i` is where `Advance` says. */
  lemma {:induction false} StepsLand(s: seq<Tagged>, i: nat, dir: int, k: nat)
    requires i < |s| && (dir == 1 || dir == -1)
    ensures Steps(s, i, dir, k)[Advance(i, dir, k, |s|)] == s[i]
    decreases k
  {
    if k > 0 {
      var next := Next(i, dir, |s|);
      StepsLand(Swap(s, i, next), next, dir, k - 1);
    }
  }

  /**
   * What the source does for one tagged number `x`: nothing for a zero;
   * otherwise find it and step it |value| mod (len - 1) times. A buffer of
   * one element cannot move a nonzero number (`rem_euclid(0)` panics): such
   * a buffer is left as it is, and `Part1`/`Part2` reject it beforehand.
   */
  function MixOne(s: seq<Tagged>, x: Tagged): (r: seq<Tagged>)
    ensures |r| == |s|
  {
    if x.0 == 0 || |s| < 2 then s
    else match Position(s, x)
      case None => s
      case Some(pos) => Steps(s, pos, Sign(x.0), Abs(x.0) % (|s| - 1))
  }

  /** Mixing each number of `order` in turn. */
  function Mixed(s: seq<Tagged>, order: seq<Tagged>): (r: seq<Tagged>)
    ensures |r| == |s|
  {
    if order == [] then s else MixOne(Mixed(s, order[..|order| - 1]), order[|order| - 1])
  }

  /** Mixing permutes the buffer. */
  lemma {:induction false} MixedPermutation(s: seq<Tagged>, order: seq<Tagged>)
    ensures multiset(Mixed(s, order)) == multiset(s)
  {
    if order != [] {
      var prev := Mixed(s, order[..|order| - 1]);
      MixedPermutation(s, order[..|order| - 1]);
      var x := order[|order| - 1];
      if x.0 != 0 && |prev| >= 2 && Position(prev, x).Some? {
        StepsPermutation(prev, Position(prev, x).value, Sign(x.0), Abs(x.0) % (|prev| - 1));
      }
    }
  }

  /** Mixing keeps the tags unique, so every lookup of a later round finds exactly its number. */
  lemma MixedUnique(s: seq<Tagged>, order: seq<Tagged>)
    requires Unique(s)
    ensures Unique(Mixed(s, order))
  {
    MixedPermutation(s, order);
  }

  /**
   * The number `x` at index `pos` of a buffer with unique tags, if nonzero,
   * is the one that moves: it ends |value| mod (len - 1) places further in
   * the direction of its sign, round the end.
   */
  lemma MixOneLands(s: seq<Tagged>, x: Tagged, pos: nat)
    requires Unique(s) && |s| >= 2 && pos < |s| && s[pos] == x && x.0 != 0
    ensures var k := Abs(x.0) % (|s| - 1);
      MixOne(s, x)[(pos + (if x.0 > 0 then k as int else -(k as int))) % |s|] == x
  {
    PositionUnique(s, x, pos);
    var k := Abs(x.0) % (|s| - 1);
    StepsLand(s, pos, Sign(x.0), k);
    AdvanceWraps(pos, Sign(x.0), k, |s|, if x.0 > 0 then k as int else -(k as int));
  }

  /** A zero is never moved. */
  lemma MixOneZero(s: seq<Tagged>, x: Tagged)
    requires x.0 == 0
    ensures MixOne(s, x) == s
  {
  }

  // ---- The buffer ----

  /** The inner loop: `count` swaps carrying the value at `pos` in the direction `dir`. */
  method MoveSteps(buffer: array<Tagged>, pos: nat, dir: int, count: nat)
    requires pos < buffer.Length && (dir == 1 || dir == -1)
    modifies buffer
    ensures buffer[..] == Steps(old(buffer[..]), pos, dir, count)
  {
    var idx: nat := pos;
    var k: nat := 0;
    while k < count
      invariant k <= count && idx < buffer.Length
      invariant Steps(buffer[..], idx, dir, count - k) == Steps(old(buffer[..]), pos, dir, count)
    {
      var nextIdx := (idx + dir) % buffer.Length;
      NextIsRemEuclid(idx, dir, buffer.Length);
      ghost var before := buffer[..];
      buffer[idx], buffer[nextIdx] := buffer[nextIdx], buffer[idx];
      assert buffer[..] == Swap(before, idx, nextIdx);
      idx := nextIdx;
      k := k + 1;
    }
  }

  /** One pass of the outer loop over the original order: mix every number once. */
  method MixRound(buffer: array<Tagged>, order: seq<Tagged>)
    requires forall x :: x in order ==> x in multiset(buffer[..])
    requires buffer.Length >= 2 || forall x :: x in order ==> x.0 == 0
    modifies buffer
    ensures buffer[..] == Mixed(old(buffer[..]), order)
    ensures multiset(buffer[..]) == multiset(old(buffer[..]))
  {
    var len := buffer.Length;
    for i := 0 to |order|
      invariant buffer[..] == Mixed(old(buffer[..]), order[..i])
      invariant multiset(buffer[..]) == multiset(old(buffer[..]))
    {
      var x := order[i];
      assert order[..i + 1][..i] == order[..i];
      var num := x.0;
      if num == 0 {
        continue;
      }
      var found := Position(buffer[..], x);
      assert x in order;
      var pos := found.value;
      var dir := Sign(num);
      ghost var before := buffer[..];
      MoveSteps(buffer, pos, dir, Abs(num) % (len - 1));
      StepsPermutation(before, pos, dir, Abs(num) % (len - 1));
    }
    assert order[..|order|] == order;
  }

  /** The input's numbers, tagged, in an array. */
  method NewBuffer(values: seq<int>) returns (buffer: array<Tagged>)
    ensures fresh(buffer) && buffer[..] == Tag(values)
  {
    buffer := new Tagged[|values|](i requires 0 <= i < |values| => (values[i], i));
  }

  /** The index of the first zero value, as `position(|&n| n.0 == 0)` finds it. */
  function ZeroAt(s: seq<Tagged>): (r: Option<nat>)
    ensures r.Some? ==> r.value < |s| && s[r.value].0 == 0 && forall j :: 0 <= j < r.value ==> s[j].0 != 0
    ensures r.None? <==> forall j :: 0 <= j < |s| ==> s[j].0 != 0
  {
    if s == [] then None
    else if s[0].0 == 0 then Some(0)
    else
      var rest := ZeroAt(s[1..]);
      assert forall j :: 1 <= j < |s| ==> s[j] == s[1..][j - 1];
      if rest.Some? then Some(rest.value + 1) else None
  }

  /** The grove coordinates: the values 1000, 2000 and 3000 places after the first zero, round the end. */
  function GroveSum(s: seq<Tagged>): (r: Option<int>)
    ensures r.None? <==> ZeroAt(s).None?
    ensures r.Some? ==> var z := ZeroAt(s).value;
      r.value == s[(z + 1000) % |s|].0 + s[(z + 2000) % |s|].0 + s[(z + 3000) % |s|].0
  {
    match ZeroAt(s)
    case None => None
    case Some(zero) =>
      var n := |s|;
      Some(s[(zero + 1000) % n].0 + s[(zero + 2000) % n].0 + s[(zero + 3000) % n].0)
  }

  /** The buffer cannot mix: a single nonzero number, whose `rem_euclid(0)` panics. */
  predicate Unmixable(values: seq<int>)
  {
    |values| == 1 && values[0] != 0
  }

  /** Tagged values are all in the tagged buffer. */
  lemma TagMembers(values: seq<int>)
    ensures forall x :: x in Tag(values) ==> x in multiset(Tag(values))
  {
  }

  /**
   * `part1`: mix once and add up the grove coordinates. `None` where the
   * source panics: no zero to count from, or a single nonzero number.
   */
  method Part1(input: seq<int>) returns (r: Option<int>)
    ensures Unmixable(input) ==> r.None?
    ensures !Unmixable(input) ==> r == GroveSum(Mixed(Tag(input), Tag(input)))
  {
    if Unmixable(input) {
      return None;
    }
    var buffer := NewBuffer(input);
    var copy := buffer[..];
    MixRound(buffer, copy);
    r := GroveSum(buffer[..]);
  }

  /** The decryption key of part 2. */
  const DecryptionKey: int := 811589153

  function Scale(values: seq<int>): (r: seq<int>)
    ensures |r| == |values| && forall i :: 0 <= i < |values| ==> r[i] == values[i] * DecryptionKey
  {
    seq(|values|, i requires 0 <= i < |values| => values[i] * DecryptionKey)
  }

  /** `rounds` mixing rounds, each in the original order. */
  function MixedRounds(s: seq<Tagged>, order: seq<Tagged>, rounds: nat): (r: seq<Tagged>)
    ensures |r| == |s|
  {
    if rounds == 0 then s else Mixed(MixedRounds(s, order, rounds - 1), order)
  }

  /** Rounds of mixing permute the buffer and keep its tags unique. */
  lemma {:induction false} MixedRoundsPermutation(s: seq<Tagged>, order: seq<Tagged>, rounds: nat)
    ensures multiset(MixedRounds(s, order, rounds)) == multiset(s)
  {
    if rounds > 0 {
      MixedRoundsPermutation(s, order, rounds - 1);
      MixedPermutation(MixedRounds(s, order, rounds - 1), order);
    }
  }

  /** `part2`: scale by the key and mix ten times in the original order. */
  method Part2(input: seq<int>) returns (r: Option<int>)
    ensures Unmixable(input) ==> r.None?
    ensures !Unmixable(input) ==> r == GroveSum(MixedRounds(Tag(Scale(input)), Tag(Scale(input)), 10))
  {
    if Unmixable(input) {
      return None;
    }
    var scaled := Scale(input);
    var buffer := NewBuffer(scaled);
    var copy := buffer[..];
    for round := 0 to 10
      invariant buffer[..] == MixedRounds(copy, copy, round)
      invariant multiset(buffer[..]) == multiset(copy)
    {
      MixRound(buffer, copy);
    }
    r := GroveSum(buffer[..]);
  }
}
