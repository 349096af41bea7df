/**
 * The standard library's `sort_unstable`, which several solvers call
 * (src/days/day1.rs, src/days/day11.rs, src/days/day13.rs). It is modelled by
 * an insertion sort: for a total preorder every sorting algorithm yields a
 * sequence that is sorted and a permutation of its input, and that is all the
 * solvers rely on.
 */
module Sorting {

  /** `le` is a total preorder: total and transitive. */
  ghost predicate TotalPreorder<T(!new)>(le: (T, T) -> bool)
  {
    && (forall a, b :: le(a, b) || le(b, a))
    && (forall a, b, c :: le(a, b) && le(b, c) ==> le(a, c))
  }

  predicate Sorted<T>(s: seq<T>, le: (T, T) -> bool)
  {
    forall i, j :: 0 <= i < j < |s| ==> le(s[i], s[j])
  }

  /** Inserts `x` before the first element it is `le` to. */
  function Insert<T(!new)>(x: T, s: seq<T>, le: (T, T) -> bool): (r: seq<T>)
    requires TotalPreorder(le)
    requires Sorted(s, le)
    ensures multiset(r) == multiset(s) + multiset{x}
    ensures Sorted(r, le)
  {
    if s == [] then [x]
    else if le(x, s[0]) then
      assert forall i :: 0 <= i < |s| ==> le(s[0], s[i]);
      [x] + s
    else
      var tail := Insert(x, s[1..], le);
      assert s == [s[0]] + s[1..];
      forall y | y in tail ensures le(s[0], y) {
        assert y in multiset(tail);
        if y != x {
          assert y in multiset(s[1..]);
          var k :| 0 <= k < |s[1..]| && s[1..][k] == y;
          assert s[k + 1] == y;
        }
      }
      [s[0]] + tail
  }

  /** A sorted permutation of `s`. */
  function Sort<T(!new)>(s: seq<T>, le: (T, T) -> bool): (r: seq<T>)
    requires TotalPreorder(le)
    ensures multiset(r) == multiset(s)
    ensures Sorted(r, le)
  {
    if s == [] then []
    else
      assert s == [s[0]] + s[1..];
      Insert(s[0], Sort(s[1..], le), le)
  }

  /** `sort_unstable` on a slice: the array ends up holding a sorted permutation of its contents. */
  method SortUnstable<T(!new)>(a: array<T>, le: (T, T) -> bool)
    requires TotalPreorder(le)
    modifies a
    ensures a[..] == Sort(old(a[..]), le)
    ensures Sorted(a[..], le) && multiset(a[..]) == multiset(old(a[..]))
  {
    var sorted := Sort(a[..], le);
    assert |sorted| == a.Length by {
      assert |multiset(sorted)| == |multiset(a[..])|;
    }
    for i := 0 to a.Length
      invariant a[..i] == sorted[..i]
    {
      a[i] := sorted[i];
    }
    assert a[..] == a[..a.Length];
  }
}

/**
 * What "the largest `k` values" means for a sorted sequence: the sum of its
 * last `k` entries is at least the sum of any `k` values taken from it.
 */
module Largest {
  import opened Sorting

  /** The order `sort_unstable` uses on integers. */
  function Le(a: int, b: int): bool
  {
    a <= b
  }

  function Sum(s: seq<int>): int
  {
    if s == [] then 0 else Sum(s[..|s| - 1]) + s[|s| - 1]
  }

  /** The sum of the last `min(k, |s|)` entries of `s`. */
  function SumLast(s: seq<int>, k: nat): int
  {
    Sum(s[|s| - Min(k, |s|)..])
  }

  function Min(a: nat, b: nat): nat
  {
    if a <= b then a else b
  }

  /** Removing the entry at `i` takes exactly that value off the sum. */
  lemma {:induction false} SumRemoveAt(c: seq<int>, i: nat)
    requires i < |c|
    ensures Sum(c) == c[i] + Sum(c[..i] + c[i + 1..])
  {
    var n := |c| - 1;
    if i < n {
      SumRemoveAt(c[..n], i);
      assert c[..n][..i] + c[..n][i + 1..] == (c[..i] + c[i + 1..])[..n - 1];
    } else {
      assert c[..i] + c[i + 1..] == c[..n];
    }
  }

  lemma SumLastStep(s: seq<int>, k: nat)
    requires |s| > 0 && k > 0
    ensures SumLast(s, k) == SumLast(s[..|s| - 1], k - 1) + s[|s| - 1]
  {
    var n := |s|;
    var t := s[n - Min(k, n)..];
    assert t[..|t| - 1] == s[..n - 1][n - 1 - Min(k - 1, n - 1)..];
  }

  lemma SumLastGrow(s: seq<int>, k: nat, x: int)
    requires 0 < k <= |s|
    requires forall i :: 0 <= i < |s| ==> s[i] <= x
    ensures SumLast(s, k) <= SumLast(s, k - 1) + x
  {
    var n := |s|;
    var t := s[n - k..];
    assert t[1..] == s[n - (k - 1)..];
    SumFirst(t);
  }

  lemma {:induction false} SumFirst(t: seq<int>)
    requires |t| > 0
    ensures Sum(t) == t[0] + Sum(t[1..])
  {
    if |t| > 1 {
      SumFirst(t[..|t| - 1]);
      assert t[..|t| - 1][1..] == t[1..][..|t| - 2];
    }
  }

  /**
   * For a sequence sorted ascending, the last `k` entries have the largest
   * sum among all choices of `k` of its values (all of them when it has
   * fewer): `c` lists the chosen values, each used at most as often as it
   * occurs in `t`.
   */
  lemma {:induction false} SumLastIsLargest(t: seq<int>, c: seq<int>, k: nat)
    requires Sorted(t, Le)
    requires multiset(c) <= multiset(t) && |c| == Min(k, |t|)
    ensures Sum(c) <= SumLast(t, k)
    decreases |t|, 1
  {
    if t == [] || k == 0 {
      assert c == [];
    } else if t[|t| - 1] in c {
      LargestWhenLastChosen(t, c, k);
    } else {
      LargestWhenLastSkipped(t, c, k);
    }
  }

  lemma {:induction false} LargestWhenLastChosen(t: seq<int>, c: seq<int>, k: nat)
    requires Sorted(t, Le) && |t| > 0 && k > 0 && t[|t| - 1] in c
    requires multiset(c) <= multiset(t) && |c| == Min(k, |t|)
    ensures Sum(c) <= SumLast(t, k)
    decreases |t|, 0
  {
    var n := |t| - 1;
    SumLastStep(t, k);
    var i :| 0 <= i < |c| && c[i] == t[n];
    var rest := c[..i] + c[i + 1..];
    RemoveChosen(t, c, k, i);
    SumLastIsLargest(t[..n], rest, k - 1);
  }

  /** Taking the chosen last value out of `c` leaves a choice of `k - 1` values from the rest of `t`. */
  lemma RemoveChosen(t: seq<int>, c: seq<int>, k: nat, i: nat)
    requires Sorted(t, Le) && |t| > 0 && k > 0 && i < |c| && c[i] == t[|t| - 1]
    requires multiset(c) <= multiset(t) && |c| == Min(k, |t|)
    ensures Sorted(t[..|t| - 1], Le) && Sum(c) == c[i] + Sum(c[..i] + c[i + 1..])
    ensures multiset(c[..i] + c[i + 1..]) <= multiset(t[..|t| - 1])
    ensures |c[..i] + c[i + 1..]| == Min(k - 1, |t| - 1)
  {
    SplitLast(t);
    SumRemoveAt(c, i);
    RemoveAtMultiset(c, i);
  }

  lemma {:induction false} LargestWhenLastSkipped(t: seq<int>, c: seq<int>, k: nat)
    requires Sorted(t, Le) && |t| > 0 && k > 0 && t[|t| - 1] !in c
    requires multiset(c) <= multiset(t) && |c| == Min(k, |t|)
    ensures Sum(c) <= SumLast(t, k)
    decreases |t|, 0
  {
    var n := |t| - 1;
    var x, p := t[n], t[..n];
    SplitLast(t);
    SumLastStep(t, k);
    assert multiset(c) <= multiset(p) by {
      NotInSubMultiset(multiset(c), multiset(p), x);
    }
    SubMultisetSize(c, p);
    SumLastIsLargest(p, c, k);
    SumLastGrow(p, k, x);
  }

  lemma SplitLast(t: seq<int>)
    requires Sorted(t, Le) && |t| > 0
    ensures multiset(t) == multiset(t[..|t| - 1]) + multiset{t[|t| - 1]}
    ensures Sorted(t[..|t| - 1], Le)
    ensures forall i :: 0 <= i < |t| - 1 ==> t[i] <= t[|t| - 1]
  {
    assert t == t[..|t| - 1] + [t[|t| - 1]];
  }

  lemma RemoveAtMultiset(c: seq<int>, i: nat)
    requires i < |c|
    ensures multiset(c[..i] + c[i + 1..]) == multiset(c) - multiset{c[i]}
  {
    assert c == c[..i] + [c[i]] + c[i + 1..];
  }

  lemma NotInSubMultiset(a: multiset<int>, b: multiset<int>, x: int)
    requires a <= b + multiset{x} && x !in a
    ensures a <= b
  {
    forall y ensures a[y] <= b[y] {
      if y == x {
        assert a[y] == 0;
      }
    }
  }

  lemma SubMultisetSize(c: seq<int>, p: seq<int>)
    requires multiset(c) <= multiset(p)
    ensures |c| <= |p|
  {
    assert |multiset(p)| == |multiset(c)| + |multiset(p) - multiset(c)|;
  }

  /** The last `k` entries are themselves `min(k, |t|)` of the values of `t`. */
  lemma SumLastIsAttained(t: seq<int>, k: nat)
    ensures var last := t[|t| - Min(k, |t|)..];
      multiset(last) <= multiset(t) && |last| == Min(k, |t|) && Sum(last) == SumLast(t, k)
  {
    var j := |t| - Min(k, |t|);
    assert t == t[..j] + t[j..];
  }
}
