/**
 * Day 3 (src/days/day3.rs): rucksack items are letters with priorities
 * 1..52; each line's two halves (part 1) or each group of three lines
 * (part 2) share exactly one item, whose priority is summed.
 */
module Day03 {
  import opened Wrappers
  import opened BitSets
  import Text

  /** `char_to_priority`: a..z are 1..26, A..Z are 27..52; any other character panics. */
  function Priority(c: char): (r: Option<Index>)
    ensures r.Some? <==> 'a' <= c <= 'z' || 'A' <= c <= 'Z'
    ensures r.Some? ==> 1 <= r.value <= 52
    ensures 'a' <= c <= 'z' ==> r == Some(1 + (c as int - 'a' as int))
    ensures 'A' <= c <= 'Z' ==> r == Some(27 + (c as int - 'A' as int))
  {
    if 'a' <= c <= 'z' then Some(1 + (c as int - 'a' as int))
    else if 'A' <= c <= 'Z' then Some(27 + (c as int - 'A' as int))
    else None
  }

  /** The letter of a priority, the inverse of `Priority`. */
  function ItemOf(p: Index): (c: char)
    requires 1 <= p <= 52
  {
    if p <= 26 then ('a' as int + p - 1) as char else ('A' as int + p - 27) as char
  }

  /** Priorities identify letters: `ItemOf` undoes `Priority` and vice versa. */
  lemma PriorityRoundTrip(c: char, p: Index)
    ensures Priority(c).Some? ==> ItemOf(Priority(c).value) == c
    ensures 1 <= p <= 52 ==> Priority(ItemOf(p)) == Some(p)
  {
  }

  /** Distinct letters have distinct priorities. */
  lemma PriorityInjective(c: char, d: char)
    requires Priority(c).Some? && Priority(d).Some? && c != d
    ensures Priority(c) != Priority(d)
  {
    PriorityRoundTrip(c, 0);
    PriorityRoundTrip(d, 0);
  }

  /** The priorities of a string of items, or `None` if one is not a letter. */
  function Priorities(s: string): (r: Option<seq<Index>>)
    ensures r.Some? <==> forall k :: 0 <= k < |s| ==> Priority(s[k]).Some?
    ensures r.Some? ==> |r.value| == |s| && forall k :: 0 <= k < |s| ==> Some(r.value[k]) == Priority(s[k])
  {
    if s == [] then Some([])
    else
      var init, last := Priorities(s[..|s| - 1]), Priority(s[|s| - 1]);
      if init.Some? && last.Some? then Some(init.value + [last.value]) else None
  }

  /** Some item of `s` has priority `p`. */
  predicate HasItem(s: string, p: Index)
  {
    exists k :: 0 <= k < |s| && Priority(s[k]) == Some(p)
  }

  /** The set of a string's items, as `chars().map(char_to_priority).collect::<BitSet>()`. */
  function ItemSet(s: string): (r: Option<BitSet>)
    ensures r.Some? <==> Priorities(s).Some?
    ensures r.Some? ==> forall p: Index :: r.value.Contains(p) <==> HasItem(s, p)
  {
    var ps := Priorities(s);
    if ps.None? then None
    else
      var b := FromSeq(ps.value);
      assert forall p: Index :: b.Contains(p) <==> p in ps.value by {
        forall p: Index ensures b.Contains(p) <==> p in ps.value {
          assert b.Contains(p) <==> p in Elements(b);
        }
      }
      Some(b)
  }

  /** `p` is in every set. */
  predicate InAll(sets: seq<BitSet>, p: Index)
  {
    forall i :: 0 <= i < |sets| ==> sets[i].Contains(p)
  }

  /**
   * The one priority common to all the sets: `reduce_sum` of their
   * intersection, whose debug assertion panics unless exactly one remains.
   */
  function Common(sets: seq<BitSet>): (r: Option<Index>)
    requires |sets| > 0
    ensures r.Some? ==> InAll(sets, r.value) && forall p: Index :: InAll(sets, p) ==> p == r.value
    ensures r.None? ==> !exists p: Index :: InAll(sets, p) && forall q: Index :: InAll(sets, q) ==> q == p
  {
    var both := Intersection(sets);
    if both.Len() == 1 then
      var r := both.ReduceSum();
      OnlyMember(both);
      Some(r)
    else
      SoleCommonCounts(sets);
      None
  }

  /** The member `reduce_sum` finds in a one-element set is the only one. */
  lemma OnlyMember(b: BitSet)
    requires b.Len() == 1
    ensures forall p: Index :: b.Contains(p) ==> p == b.ReduceSum()
  {
    forall p: Index | b.Contains(p) ensures p == b.ReduceSum() {
      assert p in Elements(b);
    }
  }

  /** A priority that is the only one common to all the sets leaves one member in their intersection. */
  lemma SoleCommonCounts(sets: seq<BitSet>)
    requires |sets| > 0
    ensures (exists p: Index :: InAll(sets, p) && forall q: Index :: InAll(sets, q) ==> q == p) ==> Intersection(sets).Len() == 1
  {
    if p: Index :| InAll(sets, p) && forall q: Index :: InAll(sets, q) ==> q == p {
      assert Elements(Intersection(sets)) == {p};
    }
  }

  /** `s1 & s2 & ...`. */
  function Intersection(sets: seq<BitSet>): (r: BitSet)
    requires |sets| > 0
    ensures forall p: Index :: r.Contains(p) <==> InAll(sets, p)
  {
    if |sets| == 1 then sets[0]
    else
      var init := Intersection(sets[..|sets| - 1]);
      var r := init.And(sets[|sets| - 1]);
      assert forall p: Index :: r.Contains(p) <==> InAll(sets, p) by {
        forall p: Index ensures r.Contains(p) <==> InAll(sets, p) {
          assert forall i :: 0 <= i < |sets| - 1 ==> sets[..|sets| - 1][i] == sets[i];
        }
      }
      r
  }

  /** Every string of the group holds an item of priority `p`. */
  predicate SharedBy(group: seq<string>, p: Index)
  {
    forall i :: 0 <= i < |group| ==> HasItem(group[i], p)
  }

  /** The priority of the item a group of strings has in common, if there is exactly one. */
  function GroupPriority(group: seq<string>): (r: Option<Index>)
    requires |group| > 0
    ensures r.Some? ==> SharedBy(group, r.value) && forall q: Index :: SharedBy(group, q) ==> q == r.value
    ensures r.None? ==> (exists i :: 0 <= i < |group| && Priorities(group[i]).None?) ||
                        !exists p: Index :: SharedBy(group, p) && forall q: Index :: SharedBy(group, q) ==> q == p
  {
    var sets := seq(|group|, i requires 0 <= i < |group| => ItemSet(group[i]));
    if exists i :: 0 <= i < |group| && sets[i].None? then None
    else
      var bits := seq(|group|, i requires 0 <= i < |group| => sets[i].value);
      forall q: Index ensures SharedBy(group, q) <==> InAll(bits, q) {
        forall i | 0 <= i < |group| ensures bits[i].Contains(q) <==> HasItem(group[i], q) {
          assert Some(bits[i]) == ItemSet(group[i]);
        }
      }
      Common(bits)
  }

  /** `line.split_at(line.len() / 2)`: the two compartments of a rucksack. */
  function Halves(line: string): seq<string>
  {
    [line[..|line| / 2], line[|line| / 2..]]
  }

  /** The sum of the priorities, `None` when a line has none (the source panics). */
  function SumAll(ps: seq<Option<Index>>): (r: Option<nat>)
    ensures r.Some? <==> forall i :: 0 <= i < |ps| ==> ps[i].Some?
  {
    if ps == [] then Some(0)
    else
      var init := SumAll(ps[..|ps| - 1]);
      if init.Some? && ps[|ps| - 1].Some? then Some(init.value + ps[|ps| - 1].value) else None
  }

  /** The priority each rucksack's two halves share. */
  function LinePriorities(lines: seq<string>): (r: seq<Option<Index>>)
    ensures |r| == |lines|
    ensures forall i :: 0 <= i < |lines| ==> r[i] == GroupPriority(Halves(lines[i]))
  {
    seq(|lines|, i requires 0 <= i < |lines| => GroupPriority(Halves(lines[i])))
  }

  /** `part1`: the sum over lines of the priority of the item both halves share. */
  function Part1(input: string): (r: Option<nat>)
    ensures var lines := Text.Lines(input);
      r.Some? <==> forall i :: 0 <= i < |lines| ==> GroupPriority(Halves(lines[i])).Some?
  {
    SumAll(LinePriorities(Text.Lines(input)))
  }

  /** The lines in groups of three; a short last group makes `lines[1]` or `lines[2]` panic. */
  function Groups(lines: seq<string>): (r: Option<seq<seq<string>>>)
    ensures r.Some? <==> |lines| % 3 == 0
    ensures r.Some? ==>
              && |r.value| == |lines| / 3
              && (forall g :: 0 <= g < |r.value| ==> |r.value[g]| == 3)
              && forall g :: 0 <= g < |r.value| ==> r.value[g] == lines[3 * g..3 * g + 3]
  {
    if |lines| % 3 != 0 then None
    else Some(seq(|lines| / 3, g requires 0 <= g < |lines| / 3 => lines[3 * g..3 * g + 3]))
  }

  /** Every group of three consecutive lines has exactly one item in common. */
  predicate GroupsShare(lines: seq<string>)
    requires |lines| % 3 == 0
  {
    forall g :: 0 <= g < |lines| / 3 ==> GroupPriority(lines[3 * g..3 * g + 3]).Some?
  }

  /** The priority each group shares. */
  function GroupPriorities(gs: seq<seq<string>>): (r: seq<Option<Index>>)
    requires forall g :: 0 <= g < |gs| ==> |gs[g]| > 0
    ensures |r| == |gs|
    ensures forall g :: 0 <= g < |gs| ==> r[g] == GroupPriority(gs[g])
  {
    seq(|gs|, g requires 0 <= g < |gs| => GroupPriority(gs[g]))
  }

  /** `part2`: the sum over groups of three lines of the priority of their common item. */
  function Part2(input: string): (r: Option<nat>)
    ensures var groups := Groups(Text.Lines(input));
      r.Some? <==> groups.Some? && forall g :: 0 <= g < |groups.value| ==> GroupPriority(groups.value[g]).Some?
  {
    var groups := Groups(Text.Lines(input));
    if groups.None? then None
    else SumAll(GroupPriorities(groups.value))
  }
}
