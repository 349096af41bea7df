/**
 * Day 6 (src/days/day6.rs): the end of the first window of 4 (part 1) or 14
 * (part 2) pairwise distinct characters in the signal.
 */
module Day06 {
  import opened Wrappers
  import opened BitSets

  /** The characters `byte - b'a'` maps into a 64-bit set without overflow. */
  predicate InSetRange(c: char)
  {
    'a' <= c && (c as int - 'a' as int) < 64
  }

  /** The window of `k` characters starting at `i` holds no character twice. */
  predicate DistinctAt(s: string, i: nat, k: nat)
    requires i + k <= |s|
  {
    forall a, b :: i <= a < b < i + k ==> s[a] != s[b]
  }

  /** Every character of the window can be put into the set. */
  predicate InRangeAt(s: string, i: nat, k: nat)
    requires i + k <= |s|
  {
    forall a :: i <= a < i + k ==> InSetRange(s[a])
  }

  /** The set indices of a window (`b - b'a'`). */
  function Offsets(s: string, i: nat, k: nat): (r: seq<Index>)
    requires i + k <= |s| && InRangeAt(s, i, k)
    ensures |r| == k
    ensures forall c :: 0 <= c < k ==> r[c] == s[i + c] as int - 'a' as int
  {
    seq(k, c requires 0 <= c < k => (s[i + c] as int - 'a' as int) as Index)
  }

  /** The distinct entries of a sequence. */
  function SetOf(s: seq<Index>): set<Index>
  {
    set j | j in s
  }

  lemma SetOfSnoc(s: seq<Index>)
    requires s != []
    ensures SetOf(s) == SetOf(s[..|s| - 1]) + {s[|s| - 1]}
    ensures s[|s| - 1] in s[..|s| - 1] ==> SetOf(s) == SetOf(s[..|s| - 1])
    ensures s[|s| - 1] !in s[..|s| - 1] ==> |SetOf(s)| == |SetOf(s[..|s| - 1])| + 1
  {
    assert s == s[..|s| - 1] + [s[|s| - 1]];
  }

  lemma {:induction false} SetOfBound(s: seq<Index>)
    ensures |SetOf(s)| <= |s|
  {
    if s != [] {
      SetOfBound(s[..|s| - 1]);
      SetOfSnoc(s);
    }
  }

  /** The number of distinct entries of a sequence is its length exactly when no entry repeats. */
  lemma {:induction false} CardinalityIsLengthIffDistinct(s: seq<Index>)
    ensures |SetOf(s)| == |s| <==> forall a, b :: 0 <= a < b < |s| ==> s[a] != s[b]
  {
    if s != [] {
      var n := |s| - 1;
      var init := s[..n];
      CardinalityIsLengthIffDistinct(init);
      SetOfBound(init);
      SetOfSnoc(s);
      if s[n] in init {
        var k :| 0 <= k < n && init[k] == s[n];
        assert s[k] == s[n];
      } else {
        DistinctSnoc(s, init);
      }
    }
  }

  /** A last entry that does not occur before keeps the entries pairwise distinct exactly when they were. */
  lemma DistinctSnoc(s: seq<Index>, init: seq<Index>)
    requires s != [] && init == s[..|s| - 1] && s[|s| - 1] !in init
    ensures (forall a, b :: 0 <= a < b < |s| ==> s[a] != s[b]) <==>
      (forall a, b :: 0 <= a < b < |init| ==> init[a] != init[b])
  {
    assert forall a :: 0 <= a < |init| ==> s[a] == init[a];
  }

  lemma LenOfFromSeq(s: seq<Index>)
    ensures FromSeq(s).Len() == |SetOf(s)|
  {
    assert Elements(FromSeq(s)) == SetOf(s);
  }

  /**
   * The test of the `find` closure: the window's set has as many members as
   * the window has bytes, which holds exactly when the bytes are distinct.
   */
  function WindowIsDistinct(s: string, i: nat, k: nat): (r: bool)
    requires i + k <= |s| && InRangeAt(s, i, k)
    ensures r <==> DistinctAt(s, i, k)
  {
    var offsets := Offsets(s, i, k);
    CardinalityIsLengthIffDistinct(offsets);
    LenOfFromSeq(offsets);
    OffsetsDistinct(s, i, k);
    FromSeq(offsets).Len() == k
  }

  /** Subtracting `a` keeps characters apart, so the offsets repeat exactly when the characters do. */
  lemma OffsetsDistinct(s: string, i: nat, k: nat)
    requires i + k <= |s| && InRangeAt(s, i, k)
    ensures var offsets := Offsets(s, i, k);
      (forall a, b :: 0 <= a < b < k ==> offsets[a] != offsets[b]) <==> DistinctAt(s, i, k)
  {
    var offsets := Offsets(s, i, k);
    if !DistinctAt(s, i, k) {
      var a, b :| i <= a < b < i + k && s[a] == s[b];
      assert offsets[a - i] == offsets[b - i];
    } else {
      forall a, b | 0 <= a < b < k ensures offsets[a] != offsets[b] {
        assert s[i + a] != s[i + b];
      }
    }
  }

  /**
   * `windows(k).enumerate().find(..).unwrap().0 + k`, from window `start` on.
   * A window holding a byte below `a` or too far above it panics (the
   * subtraction underflows or the set overflows), as does running out of
   * windows: both are `None`.
   */
  function FindFrom(s: string, k: nat, start: nat): (r: Option<nat>)
    requires k > 0
    ensures r.Some? ==> start + k <= r.value <= |s| && DistinctAt(s, r.value - k, k)
    ensures r.Some? ==> forall i :: start <= i < r.value - k ==> !DistinctAt(s, i, k)
    decreases |s| + 1 - start
  {
    if start + k > |s| then None
    else if !InRangeAt(s, start, k) then None
    else if WindowIsDistinct(s, start, k) then Some(start + k)
    else FindFrom(s, k, start + 1)
  }

  /**
   * The marker position: the number of characters read when the first
   * window of `k` distinct characters ends.
   */
  function Marker(s: string, k: nat): (r: Option<nat>)
    requires k > 0
    ensures r.Some? ==> k <= r.value <= |s| && DistinctAt(s, r.value - k, k)
    ensures r.Some? ==> forall i :: 0 <= i < r.value - k ==> !DistinctAt(s, i, k)
  {
    FindFrom(s, k, 0)
  }

  /** A lower-case letter fits into the set. */
  lemma LowercaseInRange(s: string, i: nat, k: nat)
    requires i + k <= |s|
    requires forall c :: 0 <= c < |s| ==> 'a' <= s[c] <= 'z'
    ensures InRangeAt(s, i, k)
  {
    forall a | i <= a < i + k ensures InSetRange(s[a]) {
      assert 'a' <= s[a] <= 'z';
    }
  }

  /** In a signal of lower-case letters, the search from `start` stops at the latest at a distinct window `i`. */
  lemma {:induction false} FindFromReaches(s: string, k: nat, start: nat, i: nat)
    requires k > 0
    requires forall c :: 0 <= c < |s| ==> 'a' <= s[c] <= 'z'
    requires start <= i && i + k <= |s| && DistinctAt(s, i, k)
    ensures FindFrom(s, k, start).Some?
    decreases i - start
  {
    LowercaseInRange(s, start, k);
    if !WindowIsDistinct(s, start, k) {
      FindFromReaches(s, k, start + 1, i);
    }
  }

  /** For a signal of lower-case letters, a marker is found exactly when some window is distinct. */
  lemma MarkerFoundIffSomeWindow(s: string, k: nat)
    requires k > 0
    requires forall c :: 0 <= c < |s| ==> 'a' <= s[c] <= 'z'
    ensures Marker(s, k).Some? <==> exists i: nat :: i + k <= |s| && DistinctAt(s, i, k)
  {
    if i: nat :| i + k <= |s| && DistinctAt(s, i, k) {
      FindFromReaches(s, k, 0, i);
    }
    if Marker(s, k).Some? {
      var i := Marker(s, k).value - k;
      assert i + k <= |s| && DistinctAt(s, i, k);
    }
  }

  /** `part1`: the end of the first window of 4 distinct characters. */
  function Part1(s: string): (r: Option<nat>)
    ensures r.Some? ==> 4 <= r.value <= |s| && DistinctAt(s, r.value - 4, 4)
    ensures r.Some? ==> forall i :: 0 <= i < r.value - 4 ==> !DistinctAt(s, i, 4)
  {
    Marker(s, 4)
  }

  /** `part2`: the end of the first window of 14 distinct characters. */
  function Part2(s: string): (r: Option<nat>)
    ensures r.Some? ==> 14 <= r.value <= |s| && DistinctAt(s, r.value - 14, 14)
    ensures r.Some? ==> forall i :: 0 <= i < r.value - 14 ==> !DistinctAt(s, i, 14)
  {
    Marker(s, 14)
  }

  /** One step of the search: a distinct window in range ends it, any other window moves it on. */
  lemma FindFromStep(s: string, k: nat, start: nat)
    requires k > 0 && start + k <= |s| && InRangeAt(s, start, k)
    ensures DistinctAt(s, start, k) ==> FindFrom(s, k, start) == Some(start + k)
    ensures !DistinctAt(s, start, k) ==> FindFrom(s, k, start) == FindFrom(s, k, start + 1)
  {
  }

  /** A window of four is distinct when its six pairs differ. */
  lemma DistinctFour(s: string, i: nat)
    requires i + 4 <= |s|
    requires s[i] != s[i + 1] && s[i] != s[i + 2] && s[i] != s[i + 3]
    requires s[i + 1] != s[i + 2] && s[i + 1] != s[i + 3] && s[i + 2] != s[i + 3]
    ensures DistinctAt(s, i, 4)
  {
  }

  /** The example of src/days/day6.rs:33-34: the first marker ends after 7 characters. */
  lemma Part1Example()
    ensures Part1("mjqjpqmgbljsphdztnvjfqwrcgsmlb") == Some(7)
  {
    var s := "mjqjpqmgbljsphdztnvjfqwrcgsmlb";
    assert s[..7] == "mjqjpqm";
    MarkerAfterSeven(s);
  }

  /** Any signal of lower-case letters that starts with the example's `mjqjpqm` has its first marker after 7 characters. */
  lemma MarkerAfterSeven(s: string)
    requires |s| >= 7 && s[..7] == "mjqjpqm"
    requires forall c :: 0 <= c < |s| ==> 'a' <= s[c] <= 'z'
    ensures Part1(s) == Some(7)
  {
    assert forall c :: 0 <= c < 7 ==> s[c] == "mjqjpqm"[c];
    LowercaseInRange(s, 0, 4);
    LowercaseInRange(s, 1, 4);
    LowercaseInRange(s, 2, 4);
    LowercaseInRange(s, 3, 4);
    assert !DistinctAt(s, 0, 4) by { assert s[1] == s[3]; }
    assert !DistinctAt(s, 1, 4) by { assert s[1] == s[3]; }
    assert !DistinctAt(s, 2, 4) by { assert s[2] == s[5]; }
    DistinctFour(s, 3);
    FindFromStep(s, 4, 0);
    FindFromStep(s, 4, 1);
    FindFromStep(s, 4, 2);
    FindFromStep(s, 4, 3);
  }

}
