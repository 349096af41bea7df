/**
 * The 64-bit membership set shared by several solvers (src/util.rs).
 *
 * A `BitSet` is a single `u64`; index `i` is a member when bit `i` is set.
 * The word is modelled by its 64 bits, lowest first: bit `i` of the `u64`
 * is `bits[i]`, so `|`, `&` and `count_ones` keep their bitwise meaning.
 * The Rust type is `Copy`, so `insert(&mut self, i)` on it is the same as
 * replacing the value by `Insert(i)`.
 */
module BitSets {

  /** The indices a 64-bit word can hold: `1 << index` overflows otherwise. */
  type Index = i: nat | i < 64

  /** The 64 bits of a `u64`, lowest first. */
  type Word = s: seq<bool> | |s| == 64 witness Clear(64)

  /** `n` clear bits. */
  function Clear(n: nat): (s: seq<bool>)
    ensures |s| == n
    ensures forall i :: 0 <= i < n ==> !s[i]
  {
    if n == 0 then [] else Clear(n - 1) + [false]
  }

  datatype BitSet = BitSet(bits: Word)
  {
    /** `contains`: bit `i` is set. */
    predicate Contains(i: Index)
    {
      bits[i]
    }

    /** `insert`: OR in the word `1 << i`. */
    function Insert(i: Index): (r: BitSet)
      ensures r.Contains(i)
      ensures forall j: Index :: r.Contains(j) <==> Contains(j) || j == i
    {
      BitSet(bits[i := true])
    }

    /** `impl BitAnd`: the intersection of the two sets. */
    function And(other: BitSet): (r: BitSet)
      ensures forall j: Index :: r.Contains(j) <==> Contains(j) && other.Contains(j)
    {
      BitSet(seq(64, j requires 0 <= j < 64 => bits[j] && other.bits[j]))
    }

    /** `len` (`count_ones`): the number of set bits. */
    function Len(): (n: nat)
      ensures n == |Elements(this)|
      ensures n <= 64
    {
      CountBelowIsCardinality(this, 64);
      CountBelow(this, 64)
    }

    /** `is_empty`: no bit is set. */
    predicate IsEmpty()
    {
      Len() == 0
    }

    /**
     * `reduce_sum` (`trailing_zeros`), called on a set whose only member is
     * the answer; the source checks this with a debug assertion.
     */
    function ReduceSum(): (r: Index)
      requires Len() == 1
      ensures Contains(r)
      ensures Elements(this) == {r}
    {
      LowestMemberExists(this);
      var t := TrailingZeros(this, 0);
      SingletonOfCardinalityOne(Elements(this), t);
      t
    }
  }

  /** The empty set (`BitSet::default()`). */
  const Empty := BitSet(Clear(64))

  /** The indices a set contains, as a mathematical set. */
  function Elements(b: BitSet): (s: set<Index>)
    ensures forall j: Index :: j in s <==> b.Contains(j)
  {
    ElementsBelowMembers(b, 64);
    ElementsBelow(b, 64)
  }

  /** The members below `k`, gathered one bit at a time. */
  function ElementsBelow(b: BitSet, k: nat): set<Index>
    requires k <= 64
  {
    if k == 0 then {}
    else ElementsBelow(b, k - 1) + if b.Contains(k - 1) then {k - 1} else {}
  }

  lemma {:induction false} ElementsBelowMembers(b: BitSet, k: nat)
    requires k <= 64
    ensures forall j: Index :: j in ElementsBelow(b, k) <==> j < k && b.Contains(j)
  {
    if k > 0 {
      ElementsBelowMembers(b, k - 1);
    }
  }

  /** The number of set bits below `k`, one bit at a time (`count_ones` for k = 64). */
  function CountBelow(b: BitSet, k: nat): nat
    requires k <= 64
  {
    if k == 0 then 0 else CountBelow(b, k - 1) + (if b.Contains(k - 1) then 1 else 0)
  }

  /** The lowest set bit at or above `k`, or 64 when there is none. */
  function TrailingZeros(b: BitSet, k: nat): nat
    requires k <= 64
    decreases 64 - k
  {
    if k == 64 then 64 else if b.Contains(k) then k else TrailingZeros(b, k + 1)
  }

  lemma {:induction false} CountBelowIsCardinality(b: BitSet, k: nat)
    requires k <= 64
    ensures CountBelow(b, k) == |ElementsBelow(b, k)| <= k
  {
    if k > 0 {
      CountBelowIsCardinality(b, k - 1);
      ElementsBelowMembers(b, k - 1);
      assert k - 1 !in ElementsBelow(b, k - 1);
    }
  }

  lemma {:induction false} TrailingZerosFindsLowest(b: BitSet, k: nat)
    requires k <= 64
    ensures var r := TrailingZeros(b, k);
      k <= r <= 64 && (r < 64 ==> b.Contains(r))
      && forall j: Index :: k <= j < r ==> !b.Contains(j)
    decreases 64 - k
  {
    if k < 64 && !b.Contains(k) {
      TrailingZerosFindsLowest(b, k + 1);
    }
  }

  /** A non-empty set has a lowest member, and `TrailingZeros` finds it. */
  lemma LowestMemberExists(b: BitSet)
    requires |Elements(b)| > 0
    ensures TrailingZeros(b, 0) < 64 && b.Contains(TrailingZeros(b, 0))
  {
    TrailingZerosFindsLowest(b, 0);
    var j :| j in Elements(b);
  }

  lemma SingletonOfCardinalityOne(s: set<Index>, r: Index)
    requires |s| == 1
    requires r in s
    ensures s == {r}
  {
    assert |s - {r}| == 0;
  }

  /** `is_empty` holds exactly when the set has no member. */
  lemma IsEmptyIffNoMember(b: BitSet)
    ensures b.IsEmpty() <==> forall j: Index :: !b.Contains(j)
  {
    if b.IsEmpty() {
      assert Elements(b) == {};
    } else {
      var j :| j in Elements(b);
    }
  }

  /** `reduce_sum` of a one-element set is that element's index. */
  lemma ReduceSumOfSingleton(b: BitSet, i: Index)
    requires Elements(b) == {i}
    ensures b.Len() == 1 && b.ReduceSum() == i
  {
  }

  /** The set `from_iter` builds from a sequence of indices. */
  function FromSeq(s: seq<Index>): (b: BitSet)
    ensures Elements(b) == set j | j in s
  {
    if s == [] then
      assert Elements(Empty) == {};
      Empty
    else
      var prefix := FromSeq(s[..|s| - 1]);
      var r := prefix.Insert(s[|s| - 1]);
      assert Elements(r) == Elements(prefix) + {s[|s| - 1]};
      assert s == s[..|s| - 1] + [s[|s| - 1]];
      r
  }

  /** `from_iter`: OR each index into a word that starts at zero. */
  method FromIter(s: seq<Index>) returns (b: BitSet)
    ensures b == FromSeq(s)
    ensures forall j: Index :: b.Contains(j) <==> j in s
  {
    b := Empty;
    for k := 0 to |s|
      invariant b == FromSeq(s[..k])
    {
      assert s[..k + 1][..k] == s[..k];
      b := b.Insert(s[k]);
    }
    assert s[..|s|] == s;
    forall j: Index ensures b.Contains(j) <==> j in s {
      assert b.Contains(j) <==> j in Elements(b);
    }
  }
}
