/**
 * Day 13 (src/days/day13.rs): packets are numbers or lists of packets,
 * compared lexicographically, where a number met by a list stands for the
 * one-element list holding it.
 *
 * `Compare` is the comparison as a function and `ComparePair` the source's
 * loop proved equal to it; the order lemmas show that the `Ord` built on it
 * is a total preorder, which is what `sort_unstable` in part 2 relies on.
 * `Scan` is the bracket parser as a function and `ParseItems` its loop;
 * `ParseShow` shows that it reads back every printed list.
 */
module Day13 {
  import opened Wrappers
  import Text
  import Sorting

  datatype Item = Number(n: int) | List(items: seq<Item>)

  /** `into_list`: a number becomes the one-element list holding it. */
  function IntoList(i: Item): (r: Item)
    ensures r.List?
  {
    match i
    case List(_) => i
    case Number(_) => List([i])
  }

  /** A weight that makes every comparison step smaller, even when a number is wrapped into a list. */
  function Size(i: Item): nat
    decreases i
  {
    match i
    case Number(_) => 1
    case List(s) => 3 + SizeSeq(s)
  }

  function SizeSeq(s: seq<Item>): nat
    decreases s
  {
    if s == [] then 0 else Size(s[0]) + SizeSeq(s[1..])
  }

  lemma {:induction false} SizeAt(s: seq<Item>, i: nat)
    requires i < |s|
    ensures Size(s[i]) <= SizeSeq(s)
  {
    if i > 0 {
      SizeAt(s[1..], i - 1);
    }
  }

  lemma SizeSingleton(i: Item)
    ensures SizeSeq([i]) == Size(i)
  {
    assert [i][1..] == [];
  }

  /** The measure of a comparison: a number against a list costs more than the two lists. */
  function Weight(a: Item, b: Item): nat
  {
    Size(a) + Size(b) + (if a.Number? == b.Number? then 0 else 4)
  }

  // ---- Comparison ----

  /**
   * `compare_pair`: `Some(true)` when `a` comes first, `Some(false)` when
   * `b` does, `None` when neither decides.
   */
  function Compare(a: Item, b: Item): Option<bool>
    decreases Weight(a, b), 1
  {
    match (a, b)
    case (Number(x), Number(y)) => if x != y then Some(x < y) else None
    case (List(s), List(t)) => CompareSeq(s, t)
    case (Number(_), List(_)) =>
      SizeSingleton(a);
      Compare(IntoList(a), b)
    case (List(_), Number(_)) =>
      SizeSingleton(b);
      Compare(a, IntoList(b))
  }

  /**
   * The index loop of `compare_pair` over two lists: the first pair of
   * elements that decides, decides; otherwise the list that runs out first
   * comes first.
   */
  function CompareSeq(s: seq<Item>, t: seq<Item>): Option<bool>
    decreases SizeSeq(s) + SizeSeq(t) + 4, 2
  {
    if s == [] && t == [] then None
    else if s == [] then Some(true)
    else if t == [] then Some(false)
    else
      var first := Compare(s[0], t[0]);
      if first.Some? then first else CompareSeq(s[1..], t[1..])
  }

  /** `compare_pair` as written, with its loop over the index `i`. */
  method ComparePair(a: Item, b: Item) returns (r: Option<bool>)
    ensures r == Compare(a, b)
    decreases Weight(a, b)
  {
    match (a, b) {
      case (Number(x), Number(y)) =>
        r := if x != y then Some(x < y) else None;
      case (List(v1), List(v2)) =>
        var i := 0;
        while true
          invariant i <= |v1| && i <= |v2|
          invariant CompareSeq(v1[i..], v2[i..]) == Compare(a, b)
          decreases |v1| - i
        {
          assert v1[i..] == [] <==> i == |v1|;
          assert v2[i..] == [] <==> i == |v2|;
          if i == |v1| && i < |v2| {
            return Some(true);
          } else if i < |v1| && i == |v2| {
            return Some(false);
          } else if i == |v1| && i == |v2| {
            return None;
          }
          assert v1[i..][0] == v1[i] && v2[i..][0] == v2[i];
          assert v1[i..][1..] == v1[i + 1..] && v2[i..][1..] == v2[i + 1..];
          SizeAt(v1, i);
          SizeAt(v2, i);
          var decision := ComparePair(v1[i], v2[i]);
          if decision.Some? {
            return decision;
          }
          i := i + 1;
        }
      case (Number(_), List(_)) =>
        SizeSingleton(a);
        r := ComparePair(IntoList(a), b);
      case (List(_), Number(_)) =>
        SizeSingleton(b);
        r := ComparePair(a, IntoList(b));
    }
  }

  /** The answer of the comparison with the two sides exchanged. */
  function Flip(o: Option<bool>): Option<bool>
  {
    if o.Some? then Some(!o.value) else None
  }

  /** Nothing decides between an item and itself. */
  lemma {:induction false} CompareSelf(a: Item)
    ensures Compare(a, a) == None
    decreases Size(a), 1
  {
    match a
    case Number(_) =>
    case List(s) => CompareSeqSelf(s);
  }

  lemma {:induction false} CompareSeqSelf(s: seq<Item>)
    ensures CompareSeq(s, s) == None
    decreases SizeSeq(s), 2
  {
    if s != [] {
      CompareSelf(s[0]);
      CompareSeqSelf(s[1..]);
    }
  }

  /** Exchanging the sides exchanges the answer: `Some(x)` one way is `Some(!x)` the other. */
  lemma {:induction false} CompareFlip(a: Item, b: Item)
    ensures Compare(b, a) == Flip(Compare(a, b))
    decreases Weight(a, b), 1
  {
    match (a, b)
    case (Number(_), Number(_)) =>
    case (List(s), List(t)) => CompareSeqFlip(s, t);
    case (Number(_), List(_)) =>
      SizeSingleton(a);
      CompareFlip(IntoList(a), b);
    case (List(_), Number(_)) =>
      SizeSingleton(b);
      CompareFlip(a, IntoList(b));
  }

  lemma {:induction false} CompareSeqFlip(s: seq<Item>, t: seq<Item>)
    ensures CompareSeq(t, s) == Flip(CompareSeq(s, t))
    decreases SizeSeq(s) + SizeSeq(t) + 4, 2
  {
    if s != [] && t != [] {
      CompareFlip(s[0], t[0]);
      CompareSeqFlip(s[1..], t[1..]);
    }
  }

  /** A number compares exactly as the one-element list holding it, on either side. */
  lemma NumberAsList(x: int, b: Item)
    ensures Compare(Number(x), b) == Compare(List([Number(x)]), b)
    ensures Compare(b, Number(x)) == Compare(b, List([Number(x)]))
  {
    var one := [Number(x)];
    assert one[1..] == [];
    if b.Number? {
      var other := [b];
      assert other[1..] == [];
      assert CompareSeq(one, other) == Compare(Number(x), b);
      assert CompareSeq(other, one) == Compare(b, Number(x));
    }
  }

  /** Every comparison is one of the two lists that the items stand for. */
  lemma AsLists(a: Item, b: Item)
    ensures Compare(a, b) == CompareSeq(IntoList(a).items, IntoList(b).items)
  {
    if a.Number? {
      NumberAsList(a.n, b);
      if b.Number? {
        NumberAsList(b.n, IntoList(a));
      }
    } else if b.Number? {
      NumberAsList(b.n, a);
    }
  }

  /** A list compares before every longer list it is a prefix of, and equal to itself. */
  lemma {:induction false} PrefixComesFirst(s: seq<Item>, t: seq<Item>)
    ensures CompareSeq(s, s + t) == (if t == [] then None else Some(true))
    ensures CompareSeq(s + t, s) == (if t == [] then None else Some(false))
  {
    if s == [] {
      assert s + t == t;
    } else {
      CompareSelf(s[0]);
      PrefixComesFirst(s[1..], t);
      assert (s + t)[0] == s[0] && (s + t)[1..] == s[1..] + t;
    }
  }

  /** The answer of two comparisons in a row, when neither puts its right side first. */
  function Chain(x: Option<bool>, y: Option<bool>): Option<bool>
  {
    if x == None && y == None then None else Some(true)
  }

  /**
   * The ordering is transitive, and strictly so: if `a` is not after `b`
   * and `b` not after `c`, then `a` is not after `c`, and it comes first
   * unless both steps were undecided.
   */
  lemma {:induction false} CompareTrans(a: Item, b: Item, c: Item)
    requires Compare(a, b) != Some(false) && Compare(b, c) != Some(false)
    ensures Compare(a, c) == Chain(Compare(a, b), Compare(b, c))
    decreases Size(a) + Size(b) + Size(c), 1
  {
    if !(a.Number? && b.Number? && c.Number?) {
      AsLists(a, b);
      AsLists(b, c);
      AsLists(a, c);
      SizeSingleton(a);
      SizeSingleton(b);
      SizeSingleton(c);
      CompareSeqTrans(IntoList(a).items, IntoList(b).items, IntoList(c).items);
    }
  }

  lemma {:induction false} CompareSeqTrans(s: seq<Item>, t: seq<Item>, u: seq<Item>)
    requires CompareSeq(s, t) != Some(false) && CompareSeq(t, u) != Some(false)
    ensures CompareSeq(s, u) == Chain(CompareSeq(s, t), CompareSeq(t, u))
    decreases SizeSeq(s) + SizeSeq(t) + SizeSeq(u) + 1, 2
  {
    if s != [] && t != [] && u != [] {
      CompareTrans(s[0], t[0], u[0]);
      if Compare(s[0], t[0]) == None && Compare(t[0], u[0]) == None {
        CompareSeqTrans(s[1..], t[1..], u[1..]);
      }
    }
  }

  // ---- Ord ----

  datatype Ordering = Less | Equal | Greater

  /** `Ord::cmp` through `partial_cmp`: an undecided comparison counts as equal. */
  function Cmp(a: Item, b: Item): Ordering
  {
    match Compare(a, b)
    case Some(true) => Less
    case Some(false) => Greater
    case None => Equal
  }

  /** `PartialEq`: `cmp` says `Equal`. */
  predicate Eq(a: Item, b: Item)
  {
    Cmp(a, b) == Equal
  }

  /** `Ord` is antisymmetric, and `Eq` is reflexive and symmetric. */
  lemma CmpAntisymmetric(a: Item, b: Item)
    ensures Cmp(a, b) == Less <==> Cmp(b, a) == Greater
    ensures Eq(a, a)
    ensures Eq(a, b) <==> Eq(b, a)
  {
    CompareFlip(a, b);
    CompareSelf(a);
  }

  /** The order `sort_unstable` puts the packets in: `cmp` is not `Greater`. */
  function Le(a: Item, b: Item): bool
  {
    Cmp(a, b) != Greater
  }

  lemma LeTotalPreorder()
    ensures Sorting.TotalPreorder(Le)
  {
    forall a, b ensures Le(a, b) || Le(b, a) {
      CompareFlip(a, b);
    }
    forall a, b, c | Le(a, b) && Le(b, c) ensures Le(a, c) {
      CompareTrans(a, b, c);
    }
  }

  // ---- Parsing ----

  /**
   * `parse_items` from position `pos` of `line`, with `num` the characters
   * of a number read so far and `acc` the items the level holds so far: the
   * items of the level and the position after its closing `]`, or after the
   * end of the line, where a number still being read is dropped. `None` is
   * the panic of `unwrap` on a number that does not parse.
   */
  function Scan(line: string, pos: nat, num: string, acc: seq<Item>): (r: Option<(seq<Item>, nat)>)
    requires pos <= |line|
    ensures r.Some? ==> pos <= r.value.1 <= |line|
    decreases |line| - pos
  {
    if pos == |line| then Some((acc, pos))
    else
      var c := line[pos];
      if c == '[' then
        match Scan(line, pos + 1, "", [])
        case None => None
        case Some((inner, after)) => Scan(line, after, num, acc + [List(inner)])
      else if c == ',' || c == ']' then
        if num != [] && Text.ParseI32(num).None? then None
        else
          var acc' := if num == [] then acc else acc + [Number(Text.ParseI32(num).value)];
          if c == ']' then Some((acc', pos + 1)) else Scan(line, pos + 1, "", acc')
      else Scan(line, pos + 1, num + [c], acc)
  }

  /** `parse_items` as written: it reads one character at a time and recurses on `[`. */
  method ParseItems(line: string, pos: nat) returns (r: Option<(seq<Item>, nat)>)
    requires pos <= |line|
    ensures r == Scan(line, pos, "", [])
    decreases |line| - pos
  {
    var p := pos;
    var num: string := "";
    var levelList: seq<Item> := [];
    while p < |line|
      invariant pos <= p <= |line|
      invariant Scan(line, p, num, levelList) == Scan(line, pos, "", [])
      decreases |line| - p
    {
      var c := line[p];
      p := p + 1;
      if c == '[' {
        var inner := ParseItems(line, p);
        if inner.None? {
          return None;
        }
        var (newList, after) := inner.value;
        levelList := levelList + [List(newList)];
        p := after;
      } else if c == ',' || c == ']' {
        if num != [] {
          var v := Text.ParseI32(num);
          if v.None? {
            return None;
          }
          levelList := levelList + [Number(v.value)];
        }
        num := "";
        if c == ']' {
          return Some((levelList, p));
        }
      } else {
        num := num + [c];
      }
    }
    return Some((levelList, p));
  }

  /** One line of the input: the first item `parse_items` finds; `None` where `list[0]` panics. */
  function ParseLine(line: string): Option<Item>
  {
    match Scan(line, 0, "", [])
    case None => None
    case Some((items, _)) => if items == [] then None else Some(items[0])
  }

  /** One group of the input: its first two lines, the only ones the lazy `map` parses. */
  function ParsePair(group: string): Option<(Item, Item)>
  {
    var lines := Text.Lines(group);
    if |lines| < 2 then None
    else
      match (ParseLine(lines[0]), ParseLine(lines[1]))
      case (Some(first), Some(second)) => Some((first, second))
      case _ => None
  }

  function ParsePairs(groups: seq<string>): (r: Option<seq<(Item, Item)>>)
    ensures r.Some? ==> |r.value| == |groups|
    ensures r.Some? ==> forall i :: 0 <= i < |groups| ==> ParsePair(groups[i]) == Some(r.value[i])
  {
    if groups == [] then Some([])
    else
      match (ParsePair(groups[0]), ParsePairs(groups[1..]))
      case (Some(p), Some(rest)) =>
        assert forall i :: 1 <= i < |groups| ==> groups[i] == groups[1..][i - 1] && ([p] + rest)[i] == rest[i - 1];
        Some([p] + rest)
      case _ => None
  }

  /** `parse`: the groups between blank lines, each a pair of packets. */
  function Parse(input: string): Option<seq<(Item, Item)>>
  {
    ParsePairs(Text.Split(input, "\n\n"))
  }

  // ---- Printing, and reading back ----

  function ShowInt(n: int): string
  {
    if n >= 0 then Text.ShowNat(n) else "-" + Text.ShowNat(-n)
  }

  /** The bracket notation of the puzzle input. */
  function Show(x: Item): string
    decreases x
  {
    match x
    case Number(n) => ShowInt(n)
    case List(s) => "[" + ShowElems(s) + "]"
  }

  function ShowElems(s: seq<Item>): string
    decreases s
  {
    if s == [] then ""
    else if |s| == 1 then Show(s[0])
    else Show(s[0]) + "," + ShowElems(s[1..])
  }

  /** Every number fits an `i32`. */
  predicate InRange(x: Item)
    decreases x
  {
    match x
    case Number(n) => Text.I32Min <= n <= Text.I32Max
    case List(s) => AllInRange(s)
  }

  predicate AllInRange(s: seq<Item>)
    decreases s
  {
    forall i :: 0 <= i < |s| ==> InRange(s[i])
  }

  predicate IsDelimiter(c: char)
  {
    c == '[' || c == ',' || c == ']'
  }

  lemma ShowIntChars(n: int)
    ensures |ShowInt(n)| > 0
    ensures forall k :: 0 <= k < |ShowInt(n)| ==> !IsDelimiter(ShowInt(n)[k])
  {
    if n < 0 {
      assert forall k :: 1 <= k < |ShowInt(n)| ==> ShowInt(n)[k] == Text.ShowNat(-n)[k - 1];
    }
  }

  /** Characters other than brackets and commas only extend the number being read. */
  lemma {:induction false} ScanChars(line: string, p: nat, k: nat, num: string, acc: seq<Item>)
    requires p + k <= |line|
    requires forall j :: p <= j < p + k ==> !IsDelimiter(line[j])
    ensures Scan(line, p, num, acc) == Scan(line, p + k, num + line[p..p + k], acc)
    decreases k
  {
    if k > 0 {
      ScanChars(line, p + 1, k - 1, num + [line[p]], acc);
      assert num + [line[p]] + line[p + 1..p + k] == num + line[p..p + k];
    } else {
      assert num + line[p..p] == num;
    }
  }

  /** `line` holds `w` at position `p`. */
  predicate HoldsAt(line: string, p: nat, w: string)
  {
    p + |w| <= |line| && forall k :: 0 <= k < |w| ==> line[p + k] == w[k]
  }

  lemma HoldsAtSplit(line: string, p: nat, u: string, v: string)
    requires HoldsAt(line, p, u + v)
    ensures HoldsAt(line, p, u) && HoldsAt(line, p + |u|, v)
  {
    forall k | 0 <= k < |u| ensures line[p + k] == u[k] {
      assert (u + v)[k] == u[k];
    }
    forall k | 0 <= k < |v| ensures line[p + |u| + k] == v[k] {
      assert (u + v)[|u| + k] == v[k];
    }
  }

  /** Where `Scan` goes on after a comma or a closing bracket at `q`. */
  function Resume(line: string, q: nat, acc: seq<Item>): Option<(seq<Item>, nat)>
    requires q < |line|
  {
    if line[q] == ',' then Scan(line, q + 1, "", acc) else Some((acc, q + 1))
  }

  predicate EndsItem(line: string, q: nat)
  {
    q < |line| && (line[q] == ',' || line[q] == ']')
  }

  lemma ScanClose(line: string, q: nat, acc: seq<Item>)
    requires EndsItem(line, q)
    ensures Scan(line, q, "", acc) == Resume(line, q, acc)
  {
  }

  lemma ScanCloseNumber(line: string, q: nat, num: string, acc: seq<Item>, n: int)
    requires EndsItem(line, q) && num != [] && Text.ParseI32(num) == Some(n)
    ensures Scan(line, q, num, acc) == Resume(line, q, acc + [Number(n)])
  {
  }

  lemma ScanOpen(line: string, p: nat, acc: seq<Item>, s: seq<Item>, q: nat)
    requires p < |line| && line[p] == '[' && q <= |line|
    requires Scan(line, p + 1, "", []) == Some((s, q))
    ensures Scan(line, p, "", acc) == Scan(line, q, "", acc + [List(s)])
  {
  }

  lemma ShowListLength(s: seq<Item>)
    ensures |Show(List(s))| == |ShowElems(s)| + 2
    ensures Show(List(s)) == "[" + (ShowElems(s) + "]")
  {
  }

  /**
   * Reading a printed item that is followed by a comma or a closing bracket
   * adds it to the level, then goes on after the comma or closes the level.
   */
  lemma {:induction false} ScanItem(line: string, p: nat, x: Item, acc: seq<Item>)
    requires InRange(x) && HoldsAt(line, p, Show(x))
    requires EndsItem(line, p + |Show(x)|)
    ensures Scan(line, p, "", acc) == Resume(line, p + |Show(x)|, acc + [x])
    decreases Size(x), 0
  {
    var q := p + |Show(x)|;
    match x
    case Number(n) =>
      ShowIntChars(n);
      forall j | p <= j < q ensures !IsDelimiter(line[j]) {
        assert line[p + (j - p)] == Show(x)[j - p];
      }
      ScanChars(line, p, |Show(x)|, "", acc);
      assert "" + line[p..q] == ShowInt(n);
      Text.ParseShow(n);
      ScanCloseNumber(line, q, ShowInt(n), acc, n);
    case List(s) =>
      ShowListLength(s);
      HoldsAtSplit(line, p, "[", ShowElems(s) + "]");
      assert line[p + 0] == "["[0];
      ScanElems(line, p + 1, s, []);
      assert [] + s == s;
      ScanOpen(line, p, acc, s, q);
      ScanClose(line, q, acc + [x]);
  }

  /** The printed elements of a list of two or more: the first, a comma, then the rest. */
  lemma ElemsSplit(line: string, p: nat, s: seq<Item>)
    requires |s| >= 2 && HoldsAt(line, p, ShowElems(s) + "]")
    ensures HoldsAt(line, p, Show(s[0])) && line[p + |Show(s[0])|] == ','
    ensures HoldsAt(line, p + |Show(s[0])| + 1, ShowElems(s[1..]) + "]")
  {
    var head := Show(s[0]);
    assert ShowElems(s) + "]" == head + ("," + (ShowElems(s[1..]) + "]"));
    HoldsAtSplit(line, p, head, "," + (ShowElems(s[1..]) + "]"));
    HoldsAtSplit(line, p + |head|, ",", ShowElems(s[1..]) + "]");
    assert line[p + |head| + 0] == ","[0];
  }

  /** The printed elements of a one-element list: the element, then the closing bracket. */
  lemma ElemsLast(line: string, p: nat, s: seq<Item>)
    requires |s| == 1 && HoldsAt(line, p, ShowElems(s) + "]")
    ensures HoldsAt(line, p, Show(s[0])) && line[p + |Show(s[0])|] == ']'
    ensures |ShowElems(s)| == |Show(s[0])|
  {
    assert ShowElems(s) + "]" == Show(s[0]) + "]";
    HoldsAtSplit(line, p, Show(s[0]), "]");
    assert line[p + |Show(s[0])| + 0] == "]"[0];
  }

  lemma AllInRangeSplit(s: seq<Item>)
    requires |s| > 0 && AllInRange(s)
    ensures InRange(s[0]) && AllInRange(s[1..])
  {
    assert forall i :: 0 <= i < |s[1..]| ==> s[1..][i] == s[i + 1];
  }

  /** Reading the printed elements of a list and its `]` yields the elements and the position after the `]`. */
  lemma {:induction false} ScanElems(line: string, p: nat, s: seq<Item>, acc: seq<Item>)
    requires AllInRange(s) && HoldsAt(line, p, ShowElems(s) + "]")
    ensures Scan(line, p, "", acc) == Some((acc + s, p + |ShowElems(s)| + 1))
    decreases SizeSeq(s), 1
  {
    if s == [] {
      assert line[p + 0] == (ShowElems(s) + "]")[0];
      ScanClose(line, p, acc);
      assert acc + s == acc;
    } else {
      AllInRangeSplit(s);
      if |s| == 1 {
        ElemsLast(line, p, s);
        ScanItem(line, p, s[0], acc);
        assert acc + s == acc + [s[0]];
      } else {
        ElemsSplit(line, p, s);
        ScanItem(line, p, s[0], acc);
        ElemsLength(s);
        ScanElems(line, p + |Show(s[0])| + 1, s[1..], acc + [s[0]]);
        assert acc + [s[0]] + s[1..] == acc + s;
      }
    }
  }

  lemma ElemsLength(s: seq<Item>)
    requires |s| >= 2
    ensures |ShowElems(s)| == |Show(s[0])| + 1 + |ShowElems(s[1..])|
  {
  }

  lemma ShowListHolds(s: seq<Item>)
    ensures var line := Show(List(s));
      |line| == |ShowElems(s)| + 2 && line[0] == '[' && HoldsAt(line, 1, ShowElems(s) + "]")
  {
    var line := Show(List(s));
    ShowListLength(s);
    HoldsAtSplit(line, 0, "[", ShowElems(s) + "]");
    assert line[0 + 0] == "["[0];
  }

  /** Parsing reads back every printed list; in particular `[]` is the empty list. */
  lemma ParseShow(s: seq<Item>)
    requires AllInRange(s)
    ensures ParseLine(Show(List(s))) == Some(List(s))
  {
    var line := Show(List(s));
    ShowListHolds(s);
    ScanElems(line, 1, s, []);
    assert [] + s == s;
    ScanOpen(line, 0, [], s, |line|);
    assert [] + [List(s)] == [List(s)];
    assert Scan(line, |line|, "", [List(s)]) == Some(([List(s)], |line|));
  }

  /** A line holding a bare number yields no item: the number is never flushed, and `list[0]` panics. */
  lemma BareNumberFails(n: int)
    ensures ParseLine(ShowInt(n)) == None
  {
    var line := ShowInt(n);
    ShowIntChars(n);
    ScanChars(line, 0, |line|, "", []);
  }

  // ---- Part 1 ----

  /**
   * `part1`: the sum of the 1-based indices of the pairs in the right order;
   * `None` where `unwrap` panics on a pair that nothing decides.
   */
  function Part1(pairs: seq<(Item, Item)>): (r: Option<nat>)
    ensures r.Some? <==> forall i :: 0 <= i < |pairs| ==> Compare(pairs[i].0, pairs[i].1).Some?
  {
    if pairs == [] then Some(0)
    else
      var n := |pairs|;
      var rest := Part1(pairs[..n - 1]);
      var c := Compare(pairs[n - 1].0, pairs[n - 1].1);
      if rest.None? || c.None? then
        assert rest.None? ==> exists i :: 0 <= i < n - 1 && Compare(pairs[i].0, pairs[i].1).None? by {
          if rest.None? {
            var i :| 0 <= i < n - 1 && Compare(pairs[..n - 1][i].0, pairs[..n - 1][i].1).None?;
            assert pairs[..n - 1][i] == pairs[i];
          }
        }
        None
      else
        assert forall i :: 0 <= i < n - 1 ==> pairs[..n - 1][i] == pairs[i];
        Some(rest.value + if c.value then n else 0)
  }

  function Swapped(pairs: seq<(Item, Item)>): (r: seq<(Item, Item)>)
    ensures |r| == |pairs| && forall i :: 0 <= i < |pairs| ==> r[i] == (pairs[i].1, pairs[i].0)
  {
    seq(|pairs|, i requires 0 <= i < |pairs| => (pairs[i].1, pairs[i].0))
  }

  /**
   * Exchanging the two packets of every pair moves exactly the pairs out of
   * order into order: the two sums add up to `1 + 2 + ... + n`.
   */
  lemma {:induction false} Part1Swapped(pairs: seq<(Item, Item)>)
    requires Part1(pairs).Some?
    ensures Part1(Swapped(pairs)).Some?
    ensures Part1(pairs).value + Part1(Swapped(pairs)).value == |pairs| * (|pairs| + 1) / 2
  {
    var n := |pairs|;
    forall i | 0 <= i < n ensures Compare(Swapped(pairs)[i].0, Swapped(pairs)[i].1).Some? {
      CompareFlip(pairs[i].0, pairs[i].1);
    }
    if n > 0 {
      var init := pairs[..n - 1];
      assert Swapped(pairs)[..n - 1] == Swapped(init);
      Part1Swapped(init);
      CompareFlip(pairs[n - 1].0, pairs[n - 1].1);
      var c := Compare(pairs[n - 1].0, pairs[n - 1].1).value;
      assert Part1(pairs).value == Part1(init).value + (if c then n else 0);
      assert Part1(Swapped(pairs)).value == Part1(Swapped(init)).value + (if c then 0 else n);
      TriangleStep(n);
    }
  }

  lemma TriangleStep(n: nat)
    requires n > 0
    ensures (n - 1) * n / 2 + n == n * (n + 1) / 2
  {
    assert n * (n + 1) == (n - 1) * n + 2 * n;
  }

  // ---- Part 2 ----

  const DividerA: Item := List([List([Number(2)])])
  const DividerB: Item := List([List([Number(6)])])

  /** The packets of the pairs, in order: the `flat_map` of part 2. */
  function Flatten(pairs: seq<(Item, Item)>): (r: seq<Item>)
    ensures |r| == 2 * |pairs|
  {
    if pairs == [] then [] else [pairs[0].0, pairs[0].1] + Flatten(pairs[1..])
  }

  /** `position(|i| i == x)`: the first index of an item equal to `x`. */
  function Position(s: seq<Item>, x: Item): (r: Option<nat>)
    ensures r.Some? ==> r.value < |s| && Eq(s[r.value], x) && forall j :: 0 <= j < r.value ==> !Eq(s[j], x)
    ensures r.None? ==> forall j :: 0 <= j < |s| ==> !Eq(s[j], x)
  {
    if s == [] then None
    else if Eq(s[0], x) then Some(0)
    else
      match Position(s[1..], x)
      case None =>
        assert forall j :: 1 <= j < |s| ==> s[j] == s[1..][j - 1];
        None
      case Some(i) =>
        assert forall j :: 1 <= j <= i + 1 ==> s[j] == s[1..][j - 1];
        Some(i + 1)
  }

  /** The number of items of `s` that come before `x`. */
  function CountLess(s: seq<Item>, x: Item): nat
  {
    if s == [] then 0 else (if Cmp(s[0], x) == Less then 1 else 0) + CountLess(s[1..], x)
  }

  lemma {:induction false} CountLessConcat(a: seq<Item>, b: seq<Item>, x: Item)
    ensures CountLess(a + b, x) == CountLess(a, x) + CountLess(b, x)
  {
    if a == [] {
      assert a + b == b;
    } else {
      CountLessConcat(a[1..], b, x);
      assert (a + b)[1..] == a[1..] + b;
    }
  }

  /** The count is a property of the multiset of items. */
  lemma {:induction false} CountLessPermutation(s: seq<Item>, t: seq<Item>, x: Item)
    requires multiset(s) == multiset(t)
    ensures CountLess(s, x) == CountLess(t, x)
    decreases |s|
  {
    if s != [] {
      assert s[0] in multiset(t);
      var k :| 0 <= k < |t| && t[k] == s[0];
      var rest := t[..k] + t[k + 1..];
      RemoveOne(s, t, k);
      CountLessPermutation(s[1..], rest, x);
      CountLessSplit(t, k, x);
      CountLessConcat(t[..k], t[k + 1..], x);
    } else {
      assert |t| == |multiset(t)|;
    }
  }

  lemma RemoveOne(s: seq<Item>, t: seq<Item>, k: nat)
    requires s != [] && multiset(s) == multiset(t) && k < |t| && t[k] == s[0]
    ensures multiset(s[1..]) == multiset(t[..k] + t[k + 1..])
  {
    assert t == t[..k] + [t[k]] + t[k + 1..];
    assert s == [s[0]] + s[1..];
    assert multiset(t) == multiset(t[..k]) + multiset([t[k]]) + multiset(t[k + 1..]);
    assert multiset(s) == multiset([s[0]]) + multiset(s[1..]);
    assert multiset(t[..k] + t[k + 1..]) == multiset(t[..k]) + multiset(t[k + 1..]);
    forall e ensures multiset(s[1..])[e] == multiset(t[..k] + t[k + 1..])[e] {
      assert multiset(s)[e] == multiset(t)[e];
    }
  }

  lemma CountLessSplit(t: seq<Item>, k: nat, x: Item)
    requires k < |t|
    ensures CountLess(t, x) == CountLess(t[..k], x) + (if Cmp(t[k], x) == Less then 1 else 0) + CountLess(t[k + 1..], x)
  {
    assert t == t[..k] + ([t[k]] + t[k + 1..]);
    CountLessConcat(t[..k], [t[k]] + t[k + 1..], x);
    assert ([t[k]] + t[k + 1..])[1..] == t[k + 1..];
  }

  lemma {:induction false} CountLessNone(s: seq<Item>, x: Item)
    requires forall j :: 0 <= j < |s| ==> Cmp(s[j], x) != Less
    ensures CountLess(s, x) == 0
  {
    if s != [] {
      assert forall j :: 0 <= j < |s| - 1 ==> s[1..][j] == s[j + 1];
      CountLessNone(s[1..], x);
    }
  }

  /**
   * In sorted packets, the first one equal to `x` sits right after all the
   * packets that come before `x`.
   */
  lemma {:induction false} PositionIsCountLess(s: seq<Item>, x: Item)
    requires Sorting.Sorted(s, Le)
    requires exists i :: 0 <= i < |s| && Eq(s[i], x)
    ensures Position(s, x) == Some(CountLess(s, x))
  {
    var i :| 0 <= i < |s| && Eq(s[i], x);
    if Eq(s[0], x) {
      forall j | 0 <= j < |s| ensures Cmp(s[j], x) != Less {
        if j > 0 {
          assert Le(s[0], s[j]);
          CompareFlip(s[0], x);
          CompareTrans(x, s[0], s[j]);
          CompareFlip(x, s[j]);
        }
      }
      CountLessNone(s, x);
    } else {
      assert i > 0 && Le(s[0], s[i]);
      CompareTrans(s[0], s[i], x);
      assert Sorting.Sorted(s[1..], Le) by {
        forall a, b | 0 <= a < b < |s[1..]| ensures Le(s[1..][a], s[1..][b]) {
          assert s[1..][a] == s[a + 1] && s[1..][b] == s[b + 1];
        }
      }
      assert Eq(s[1..][i - 1], x);
      PositionIsCountLess(s[1..], x);
    }
  }

  /**
   * `part2`: add the two dividers, sort, and multiply their 1-based
   * positions. The first divider follows the packets that come before it;
   * the second follows the packets that come before it, and the first divider.
   */
  method Part2(pairs: seq<(Item, Item)>) returns (r: nat)
    ensures r == Key(CountLess(Flatten(pairs), DividerA), CountLess(Flatten(pairs), DividerB) + 1)
  {
    DividersInOrder();
    r := DecoderKey(Flatten(pairs), DividerA, DividerB);
  }

  /** Sort the packets with `a` and `b` added, and multiply the positions of `a` and `b`. */
  method DecoderKey(packets: seq<Item>, a: Item, b: Item) returns (r: nat)
    requires Cmp(a, b) == Less
    ensures r == Key(CountLess(packets, a), CountLess(packets, b) + 1)
  {
    var sorted := SortPackets(packets + [a, b]);
    Ranks(packets, sorted, a, b);
    var posA := Position(sorted, a).value;
    var posB := Position(sorted, b).value;
    r := Key(posA, posB);
  }

  /** `sort_unstable` on a vector of packets, by their `Ord`. */
  method SortPackets(items: seq<Item>) returns (sorted: seq<Item>)
    ensures Sorting.Sorted(sorted, Le) && multiset(sorted) == multiset(items)
  {
    var a := new Item[|items|](i requires 0 <= i < |items| => items[i]);
    assert a[..] == items;
    LeTotalPreorder();
    Sorting.SortUnstable(a, Le);
    sorted := a[..];
  }

  /** The decoder key: the product of two 0-based positions taken as 1-based. */
  function Key(i: nat, j: nat): (r: nat)
    ensures r >= i + 1 && r >= j + 1
  {
    KeyBound(i, j);
    (i + 1) * (j + 1)
  }

  lemma KeyBound(i: nat, j: nat)
    ensures (i + 1) * (j + 1) >= i + 1 && (i + 1) * (j + 1) >= j + 1
  {
    assert (i + 1) * (j + 1) == i * j + i + j + 1;
    assert i * j >= 0;
  }

  /** In sorted packets, the first packet equal to `x` sits right after the packets that come before `x`. */
  lemma Rank(sorted: seq<Item>, items: seq<Item>, x: Item)
    requires Sorting.Sorted(sorted, Le) && multiset(sorted) == multiset(items) && x in items
    ensures Position(sorted, x) == Some(CountLess(items, x))
  {
    assert x in multiset(sorted);
    var i :| 0 <= i < |sorted| && sorted[i] == x;
    CompareSelf(x);
    assert Eq(sorted[i], x);
    PositionIsCountLess(sorted, x);
    CountLessPermutation(sorted, items, x);
  }

  /**
   * With two extra packets `a` before `b` among the sorted packets, `a` sits
   * after the packets before it, and `b` after the packets before it and `a`.
   */
  lemma Ranks(packets: seq<Item>, sorted: seq<Item>, a: Item, b: Item)
    requires Sorting.Sorted(sorted, Le) && multiset(sorted) == multiset(packets + [a, b])
    requires Cmp(a, b) == Less
    ensures Position(sorted, a) == Some(CountLess(packets, a))
    ensures Position(sorted, b) == Some(CountLess(packets, b) + 1)
  {
    CountLessPair(a, b);
    RankAdded(packets, sorted, a, b, a);
    RankAdded(packets, sorted, a, b, b);
  }

  lemma RankAdded(packets: seq<Item>, sorted: seq<Item>, a: Item, b: Item, x: Item)
    requires Sorting.Sorted(sorted, Le) && multiset(sorted) == multiset(packets + [a, b])
    requires x == a || x == b
    ensures Position(sorted, x) == Some(CountLess(packets, x) + CountLess([a, b], x))
  {
    var items := packets + [a, b];
    assert items[|items| - 2] == a && items[|items| - 1] == b;
    Rank(sorted, items, x);
    CountLessConcat(packets, [a, b], x);
  }

  lemma CountLessPair(a: Item, b: Item)
    requires Cmp(a, b) == Less
    ensures CountLess([a, b], a) == 0 && CountLess([a, b], b) == 1
  {
    CompareSelf(a);
    CompareSelf(b);
    CompareFlip(a, b);
    assert [a, b][1..] == [b] && [b][1..] == [];
    assert CountLess([b], a) == 0 && CountLess([b], b) == 0;
  }

  /** `[[2]]` comes before `[[6]]`. */
  lemma DividersInOrder()
    ensures Cmp(DividerA, DividerB) == Less
  {
    var two, six := [Number(2)], [Number(6)];
    assert Compare(two[0], six[0]) == Some(true);
    assert CompareSeq(two, six) == Some(true);
    assert Compare(List(two), List(six)) == Some(true);
    var a, b := [List(two)], [List(six)];
    assert CompareSeq(a, b) == Some(true);
  }
}
