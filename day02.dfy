/**
 * Day 2 (src/days/day2.rs): rock-paper-scissors rounds. The source orders
 * moves cyclically through `Not` ("the move that beats this one") and a
 * `PartialOrd` built on it.
 */
module Day02 {
  import opened Wrappers
  import Text

  datatype Move = Rock | Paper | Scissors

  /** The opponent's move and one's own (`Turn(Move, Move)`). */
  datatype Turn = Turn(opp: Move, slf: Move)

  datatype Ordering = Less | Equal | Greater

  /** `score`: the discriminant plus one. */
  function Score(m: Move): (r: int)
    ensures 1 <= r <= 3
    ensures m == Rock ==> r == 1
    ensures m == Paper ==> r == 2
    ensures m == Scissors ==> r == 3
  {
    match m
    case Rock => 1
    case Paper => 2
    case Scissors => 3
  }

  /** `impl Not`: the move that beats `m`. */
  function Not(m: Move): (r: Move)
    ensures r != m
  {
    match m
    case Rock => Paper
    case Paper => Scissors
    case Scissors => Rock
  }

  /** The rules of the game, written out independently of `Not`. */
  predicate Beats(a: Move, b: Move)
  {
    (a == Paper && b == Rock) || (a == Scissors && b == Paper) || (a == Rock && b == Scissors)
  }

  /** `partial_cmp`: greater when `a` is `!b`, less when `b` is `!a`, equal otherwise. */
  function Compare(a: Move, b: Move): Ordering
  {
    if a == Not(b) then Greater
    else if b == Not(a) then Less
    else Equal
  }

  /** `Not` is a 3-cycle. */
  lemma NotCycle(m: Move)
    ensures Not(Not(Not(m))) == m
    ensures Not(Not(m)) != m
  {
  }

  /** `Not(m)` is the move that beats `m`, and `Not(Not(m))` the one `m` beats. */
  lemma NotBeats(m: Move)
    ensures Beats(Not(m), m)
    ensures Beats(m, Not(Not(m)))
  {
  }

  /** The comparison agrees with the rules: greater iff `a` wins, less iff `b` wins, equal iff the same move. */
  lemma CompareIsGame(a: Move, b: Move)
    ensures Compare(a, b) == Greater <==> Beats(a, b)
    ensures Compare(a, b) == Less <==> Beats(b, a)
    ensures Compare(a, b) == Equal <==> a == b
  {
  }

  /** The comparison is antisymmetric. */
  lemma CompareAntisymmetric(a: Move, b: Move)
    ensures Compare(a, b) == Greater <==> Compare(b, a) == Less
    ensures Compare(a, b) == Equal <==> Compare(b, a) == Equal
  {
  }

  /** The points for the outcome of a round: 0 for a loss, 3 for a draw, 6 for a win. */
  function OutcomePoints(o: Ordering): int
  {
    match o
    case Less => 0
    case Equal => 3
    case Greater => 6
  }

  /** One round of part 1: the shape's score plus the outcome's. */
  function RoundScore(t: Turn): (r: int)
    ensures Beats(t.slf, t.opp) ==> r == Score(t.slf) + 6
    ensures t.slf == t.opp ==> r == Score(t.slf) + 3
    ensures Beats(t.opp, t.slf) ==> r == Score(t.slf)
  {
    Score(t.slf) + OutcomePoints(Compare(t.slf, t.opp))
  }

  /** `part1`: the sum of the round scores. */
  function Part1(turns: seq<Turn>): (r: int)
    ensures |turns| <= r <= 9 * |turns|
  {
    if turns == [] then 0 else Part1(turns[..|turns| - 1]) + RoundScore(turns[|turns| - 1])
  }

  /**
   * Part 2 reads the second column as the outcome to reach: Rock (X) means
   * lose, Paper (Y) draw, Scissors (Z) win; the shape to play and the points.
   */
  datatype Choice = Choice(played: Move, points: int)

  function Strategy(t: Turn): Choice
  {
    match t.slf
    case Rock => Choice(Not(Not(t.opp)), 0)
    case Scissors => Choice(Not(t.opp), 6)
    case Paper => Choice(t.opp, 3)
  }

  /** The chosen shape has the intended outcome, and the points are the outcome's. */
  lemma StrategyAchievesOutcome(t: Turn)
    ensures var Choice(played, points) := Strategy(t);
      && (t.slf == Rock ==> Beats(t.opp, played))
      && (t.slf == Paper ==> played == t.opp)
      && (t.slf == Scissors ==> Beats(played, t.opp))
      && points == OutcomePoints(Compare(played, t.opp))
  {
  }

  /** `part2`: the sum over rounds of the played shape's score and the outcome's points. */
  function Part2(turns: seq<Turn>): (r: int)
    ensures |turns| <= r <= 9 * |turns|
  {
    if turns == [] then 0
    else
      var c := Strategy(turns[|turns| - 1]);
      Part2(turns[..|turns| - 1]) + Score(c.played) + c.points
  }

  /** Part 2 scores exactly what part 1 would for the rounds rewritten with the chosen shapes. */
  lemma {:induction false} Part2IsPart1OfChosen(turns: seq<Turn>)
    ensures Part2(turns) == Part1(seq(|turns|, i requires 0 <= i < |turns| => Turn(turns[i].opp, Strategy(turns[i]).played)))
  {
    var chosen := seq(|turns|, i requires 0 <= i < |turns| => Turn(turns[i].opp, Strategy(turns[i]).played));
    if turns != [] {
      var n := |turns| - 1;
      Part2IsPart1OfChosen(turns[..n]);
      assert chosen[..n] == seq(n, i requires 0 <= i < n => Turn(turns[..n][i].opp, Strategy(turns[..n][i]).played));
      StrategyAchievesOutcome(turns[n]);
    }
  }

  /** `Move::from_str`: A/X is Rock, B/Y Paper, C/Z Scissors; anything else panics. */
  function ParseMove(s: string): (r: Option<Move>)
    ensures r == Some(Rock) <==> s == "A" || s == "X"
    ensures r == Some(Paper) <==> s == "B" || s == "Y"
    ensures r == Some(Scissors) <==> s == "C" || s == "Z"
  {
    if s == "A" || s == "X" then Some(Rock)
    else if s == "B" || s == "Y" then Some(Paper)
    else if s == "C" || s == "Z" then Some(Scissors)
    else None
  }

  /**
   * `parse` on the words of the input taken two at a time; an odd word count
   * makes `ms[1]` panic, as does a word that is not a move.
   */
  function ParseWords(words: seq<string>): (r: Option<seq<Turn>>)
    ensures r.Some? <==> |words| % 2 == 0 && forall k :: 0 <= k < |words| ==> ParseMove(words[k]).Some?
    ensures r.Some? ==> 2 * |r.value| == |words|
    ensures r.Some? ==> forall i :: 0 <= i < |r.value| ==>
        Some(r.value[i].opp) == ParseMove(words[2 * i]) && Some(r.value[i].slf) == ParseMove(words[2 * i + 1])
    decreases |words|
  {
    if words == [] then Some([])
    else if |words| == 1 then None
    else
      var a, b, rest := ParseMove(words[0]), ParseMove(words[1]), ParseWords(words[2..]);
      assert forall k :: 2 <= k < |words| ==> words[k] == words[2..][k - 2];
      if a.Some? && b.Some? && rest.Some? then
        var r := [Turn(a.value, b.value)] + rest.value;
        Some(r)
      else None
  }

  function Parse(input: string): Option<seq<Turn>>
  {
    ParseWords(Text.Words(input))
  }

  /** The example rounds (src/days/day2.rs:107-120): part 1 scores 15, part 2 scores 12. */
  lemma Examples()
    ensures Part1([Turn(Rock, Paper), Turn(Paper, Rock), Turn(Scissors, Scissors)]) == 15
    ensures Part2([Turn(Rock, Paper), Turn(Paper, Rock), Turn(Scissors, Scissors)]) == 12
  {
    var t := [Turn(Rock, Paper), Turn(Paper, Rock), Turn(Scissors, Scissors)];
    assert t[..2][..1] == [Turn(Rock, Paper)];
    assert t[..2] == [Turn(Rock, Paper), Turn(Paper, Rock)];
  }

  lemma ParseExample()
    ensures ParseWords(["A", "Y", "B", "X", "C", "Z"]) == Some([Turn(Rock, Paper), Turn(Paper, Rock), Turn(Scissors, Scissors)])
  {
    var w := ["A", "Y", "B", "X", "C", "Z"];
    var w1 := w[2..];
    var w2 := w1[2..];
    assert w2[2..] == [];
    assert ParseMove(w2[0]) == Some(Scissors) && ParseMove(w2[1]) == Some(Scissors);
    assert ParseWords(w2) == Some([Turn(Scissors, Scissors)] + []);
    assert ParseMove(w1[0]) == Some(Paper) && ParseMove(w1[1]) == Some(Rock);
    assert ParseWords(w1).value[1..] == [Turn(Scissors, Scissors)];
    assert ParseWords(w1).value == [Turn(Paper, Rock), Turn(Scissors, Scissors)];
    assert ParseMove(w[0]) == Some(Rock) && ParseMove(w[1]) == Some(Paper);
    assert ParseWords(w).Some? && ParseWords(w).value[0] == Turn(Rock, Paper);
    assert ParseWords(w).value[1..] == [Turn(Paper, Rock), Turn(Scissors, Scissors)];
    assert ParseWords(w).value == [Turn(Rock, Paper), Turn(Paper, Rock), Turn(Scissors, Scissors)];
  }
}
