/**
 * Day 25 (src/days/day25.rs): SNAFU numerals, written in balanced base 5
 * with the digits `=`, `-`, `0`, `1`, `2` worth -2 to 2, the most
 * significant first.
 *
 * Decoding is a fold over the characters from the last. Encoding takes the
 * ordinary base-5 digits from the highest power of 5 down, then a carry
 * pass from the least significant digit replaces every digit above 2 by
 * itself minus 5 and adds one to the digit before it. That pass writes the
 * digit before the first one when the first one ends up above 2, which
 * panics: `EncodeAsWritten` models the code as it stands, `Encode` the
 * corrected encoder that starts the carry pass with a leading zero digit.
 */
module Day25 {
  import opened Wrappers
  import RustInt

  function Pow5(k: nat): (r: int)
    ensures r >= 1
  {
    if k == 0 then 1 else 5 * Pow5(k - 1)
  }

  // ---- Digits ----

  /** The value of a digit character, or `None` for a character the decoder panics on. */
  function DigitValue(c: char): (r: Option<int>)
    ensures r.Some? ==> -2 <= r.value <= 2
  {
    match c
    case '0' => Some(0)
    case '1' => Some(1)
    case '2' => Some(2)
    case '-' => Some(-1)
    case '=' => Some(-2)
    case _ => None
  }

  /** The character of a digit, or `None` for a value the encoder panics on. */
  function DigitChar(d: int): (r: Option<char>)
    ensures r.Some? <==> -2 <= d <= 2
  {
    if d == 0 then Some('0')
    else if d == 1 then Some('1')
    else if d == 2 then Some('2')
    else if d == -1 then Some('-')
    else if d == -2 then Some('=')
    else None
  }

  /** The two tables are inverse to each other. */
  lemma DigitRoundTrip(d: int, c: char)
    ensures DigitChar(d) == Some(c) <==> DigitValue(c) == Some(d)
  {
  }

  /** The value of digits, the most significant first. */
  function Value(ds: seq<int>): int
  {
    if ds == [] then 0 else 5 * Value(ds[..|ds| - 1]) + ds[|ds| - 1]
  }

  /** Every digit is a SNAFU digit. */
  ghost predicate Balanced(ds: seq<int>)
  {
    forall i :: 0 <= i < |ds| ==> -2 <= ds[i] <= 2
  }

  /** The largest value of `len` SNAFU digits, every one of them `2`. */
  function MaxBalanced(len: nat): (r: int)
    ensures r >= 0 && 2 * r + 1 == Pow5(len)
  {
    if len == 0 then 0 else 5 * MaxBalanced(len - 1) + 2
  }

  /** Concatenated digits: the first part is worth `5^|b|` times its value. */
  lemma {:induction false} ValueConcat(a: seq<int>, b: seq<int>)
    ensures Value(a + b) == Value(a) * Pow5(|b|) + Value(b)
    decreases |b|
  {
    if b == [] {
      assert a + b == a;
    } else {
      var m := |b| - 1;
      assert (a + b)[..|a + b| - 1] == a + b[..m];
      ValueConcat(a, b[..m]);
      assert Value(a) * Pow5(|b|) == 5 * (Value(a) * Pow5(m));
    }
  }

  /** `len` SNAFU digits lie between `-MaxBalanced(len)` and `MaxBalanced(len)`. */
  lemma {:induction false} BalancedBounds(ds: seq<int>)
    requires Balanced(ds)
    ensures -MaxBalanced(|ds|) <= Value(ds) <= MaxBalanced(|ds|)
    decreases |ds|
  {
    if ds != [] {
      BalancedBounds(ds[..|ds| - 1]);
    }
  }

  /** A digit times a power of 5: at least the power when the digit is positive, at most its negation when negative. */
  lemma ScaledDigit(d: int, p: int)
    requires p >= 1
    ensures d >= 1 ==> d * p >= p
    ensures d >= 3 ==> d * p >= 3 * p
    ensures d <= -1 ==> d * p <= -p
  {
    if d >= 1 {
      RustInt.MulGrows(d, p);
    }
    if d >= 3 {
      RustInt.MulGrows(d - 2, p);
      assert d * p == (d - 2) * p + 2 * p;
    }
    if d <= -1 {
      RustInt.MulGrows(-d, p);
      assert d * p == -((-d) * p);
    }
  }

  /** SNAFU digits whose first digit is not zero are not worth zero. */
  lemma LeadingDigit(ds: seq<int>)
    requires Balanced(ds) && ds != [] && ds[0] != 0
    ensures Value(ds) != 0
  {
    var rest := ds[1..];
    assert ds == [ds[0]] + rest;
    ValueConcat([ds[0]], rest);
    assert Value([ds[0]]) == ds[0];
    assert Balanced(rest) by {
      assert forall k :: 0 <= k < |rest| ==> rest[k] == ds[k + 1];
    }
    BalancedBounds(rest);
    ScaledDigit(ds[0], Pow5(|rest|));
  }

  // ---- Decoding ----

  /** Every character is a SNAFU digit. */
  ghost predicate IsNumeral(s: string)
  {
    forall i :: 0 <= i < |s| ==> DigitValue(s[i]).Some?
  }

  /** The digits of a numeral. */
  function DigitsOf(s: string): (r: seq<int>)
    requires IsNumeral(s)
    ensures |r| == |s| && forall i :: 0 <= i < |s| ==> DigitValue(s[i]) == Some(r[i])
  {
    seq(|s|, i requires 0 <= i < |s| => DigitValue(s[i]).value)
  }

  /**
   * The fold of `from_str` over the characters of `s`, the last one first:
   * each digit is multiplied by the current power `pow` of 5 and added to
   * `sum`. `None` where the digit table panics.
   */
  function DecodeFold(s: string, sum: int, pow: int): Option<int>
  {
    if s == [] then Some(sum)
    else match DigitValue(s[|s| - 1])
      case None => None
      case Some(d) => DecodeFold(s[..|s| - 1], sum + d * pow, pow * 5)
  }

  /** `from_str`: the fold starts from the sum 0 and the power 1. */
  function Decode(s: string): Option<int>
  {
    DecodeFold(s, 0, 1)
  }

  lemma {:induction false} DecodeFoldValue(s: string, sum: int, pow: int)
    ensures IsNumeral(s) ==> DecodeFold(s, sum, pow) == Some(sum + pow * Value(DigitsOf(s)))
    ensures !IsNumeral(s) ==> DecodeFold(s, sum, pow) == None
    decreases |s|
  {
    if s != [] {
      var m := |s| - 1;
      var init := s[..m];
      match DigitValue(s[m])
      case None =>
        DecodeFoldValue(init, sum, pow);
      case Some(d) =>
        DecodeFoldValue(init, sum + d * pow, pow * 5);
        assert IsNumeral(s) <==> IsNumeral(init) by {
          assert forall i :: 0 <= i < m ==> s[i] == init[i];
        }
        if IsNumeral(s) {
          var v := Value(DigitsOf(init));
          assert DigitsOf(s)[..m] == DigitsOf(init);
          assert Value(DigitsOf(s)) == 5 * v + d;
          FoldStep(sum, d, pow, v);
        }
    }
  }

  lemma FoldStep(sum: int, d: int, pow: int, v: int)
    ensures sum + d * pow + pow * 5 * v == sum + pow * (5 * v + d)
  {
  }

  /** A string decodes exactly when every character is a digit, to the value of its digits. */
  lemma DecodeMeaning(s: string)
    ensures Decode(s).Some? <==> IsNumeral(s)
    ensures IsNumeral(s) ==> Decode(s) == Some(Value(DigitsOf(s)))
  {
    DecodeFoldValue(s, 0, 1);
  }

  // ---- Encoding ----

  /**
   * The exponent of the highest power of 5 that `fmt` starts from: the
   * floor of the base-5 logarithm of `n`. For 0 or a negative number the
   * logarithm is minus infinity or not a number, and both become 0 when
   * cast to an unsigned integer.
   */
  function HighestPow(n: int): (k: nat)
    ensures n >= 1 ==> Pow5(k) <= n < Pow5(k + 1)
    ensures n <= 4 ==> k == 0
  {
    if n < 5 then 0 else 1 + HighestPow(n / 5)
  }

  /**
   * The `while` loop of `fmt`: the quotients of `n` by the powers of 5 from
   * `5^HighestPow(n)` down to 1, each remainder carried on. For `n >= 0`
   * these are the ordinary base-5 digits of `n`, the first one not zero
   * when `n >= 1`; a negative `n` is divided by 1 only and is its own digit.
   */
  method Extract(n: int) returns (digits: seq<int>)
    ensures |digits| == HighestPow(n) + 1
    ensures n >= 0 ==> Value(digits) == n && Base5(digits)
    ensures n >= 1 ==> digits[0] >= 1
    ensures n < 0 ==> digits == [n]
  {
    var k := HighestPow(n);
    var pow := Pow5(k);
    var m := n;
    digits := [];
    ghost var j: int := k;
    while pow >= 1
      invariant Extracting(n, k, digits, m, pow, j)
      decreases j + 1
    {
      var q := RustInt.Quot(m, pow);
      ExtractingStep(n, k, digits, m, pow, j);
      digits := digits + [q];
      m := RustInt.Rem(m, pow);
      pow := pow / 5;
      j := j - 1;
    }
    ExtractingDone(n, k, digits, m, pow, j);
  }

  /**
   * What the loop of `Extract` keeps: `pow` is `5^j` (0 once `j` is -1),
   * one digit per power above it has been taken, and for `n >= 0` these
   * base-5 digits followed by the remainder `m` make up `n`.
   */
  ghost predicate Extracting(n: int, k: nat, digits: seq<int>, m: int, pow: int, j: int)
  {
    && -1 <= j <= k && |digits| == k - j
    && pow == (if j >= 0 then Pow5(j) else 0)
    && (n >= 0 ==> 0 <= m < Pow5(j + 1) && Value(digits) * Pow5(j + 1) + m == n && Base5(digits))
    && (n >= 1 && digits != [] ==> digits[0] >= 1)
    && (n >= 1 && digits == [] ==> Pow5(k) <= n)
    && (n < 0 ==> k == 0 && ((j == 0 && digits == [] && m == n) || (j == -1 && digits == [n])))
  }

  lemma ExtractingStep(n: int, k: nat, digits: seq<int>, m: int, pow: int, j: int)
    requires Extracting(n, k, digits, m, pow, j) && pow >= 1
    ensures Extracting(n, k, digits + [RustInt.Quot(m, pow)], RustInt.Rem(m, pow), pow / 5, j - 1)
  {
    PowDown(j);
    var q := RustInt.Quot(m, pow);
    assert (digits + [q])[..|digits|] == digits;
    if n >= 0 {
      ExtractStep(Value(digits), m, pow, q);
      assert Base5(digits + [q]) by {
        assert forall i :: 0 <= i < |digits| ==> (digits + [q])[i] == digits[i];
      }
    }
  }

  lemma ExtractingDone(n: int, k: nat, digits: seq<int>, m: int, pow: int, j: int)
    requires Extracting(n, k, digits, m, pow, j) && pow < 1
    ensures |digits| == k + 1
    ensures n >= 0 ==> Value(digits) == n && Base5(digits)
    ensures n >= 1 ==> digits[0] >= 1
    ensures n < 0 ==> digits == [n]
  {
  }

  lemma PowDown(j: nat)
    ensures Pow5(j + 1) == 5 * Pow5(j)
    ensures Pow5(j) / 5 == if j >= 1 then Pow5(j - 1) else 0
  {
  }

  /** One pass of `Extract` from non-negative `m < 5 * pow`: the quotient is a base-5 digit and the value is kept. */
  lemma ExtractStep(v: int, m: int, pow: nat, q: int)
    requires pow >= 1 && 0 <= m < 5 * pow && q == m / pow
    ensures 0 <= q <= 4 && 0 <= m % pow < pow
    ensures m >= pow ==> q >= 1
    ensures (5 * v + q) * pow + m % pow == v * (5 * pow) + m
  {
    var r := m % pow;
    assert m == q * pow + r;
    ScaledDigit(q - 4, pow);
    ScaledDigit(q + 1, pow);
  }

  /**
   * The carry pass of `fmt`, from the last digit to the first: a digit
   * above 2 loses 5 and the digit before it gains 1. `None` where the
   * first digit is above 2, whose carry would go before the first digit.
   */
  method CarryAsWritten(digits: seq<int>) returns (r: Option<seq<int>>)
    ensures r.Some? ==> |r.value| == |digits| && Value(r.value) == Value(digits)
    ensures (forall i :: 0 <= i < |digits| ==> digits[i] <= 2) ==> r == Some(digits)
    ensures Base5(digits) ==> (r.Some? ==> Balanced(r.value))
    ensures Base5(digits) && digits != [] ==> (r.None? <==> Value(digits) > MaxBalanced(|digits|))
  {
    var ds := digits;
    var i := |ds|;
    while i > 0
      invariant 0 <= i <= |ds| == |digits| && Value(ds) == Value(digits)
      invariant Carrying(digits, ds, i)
      invariant (forall k :: 0 <= k < |digits| ==> digits[k] <= 2) ==> ds == digits
    {
      i := i - 1;
      if ds[i] > 2 {
        if i == 0 {
          if Base5(digits) {
            CarryOverflow(digits, ds);
          }
          return None;
        }
        CarryKeepsValue(ds, i);
        ds := ds[i := ds[i] - 5][i - 1 := ds[i - 1] + 1];
      }
    }
    if Base5(digits) && digits != [] {
      BalancedBounds(ds);
    }
    r := Some(ds);
  }

  /** All digits are ordinary base-5 digits. */
  ghost predicate Base5(ds: seq<int>)
  {
    forall i :: 0 <= i < |ds| ==> 0 <= ds[i] <= 4
  }

  /**
   * What the carry pass keeps for base-5 input, with the digits from `i` on
   * done: those are SNAFU digits, the digit before them has gained at most
   * one, and the earlier ones are untouched.
   */
  ghost predicate Carrying(digits: seq<int>, ds: seq<int>, i: nat)
    requires |ds| == |digits| && i <= |ds|
  {
    Base5(digits) ==>
      && (forall k :: i <= k < |ds| ==> -2 <= ds[k] <= 2)
      && (forall k :: 0 <= k < i - 1 ==> ds[k] == digits[k])
      && (i > 0 ==> digits[i - 1] <= ds[i - 1] <= digits[i - 1] + 1)
  }

  /** Moving 5 from a digit to one on the digit before it keeps the value. */
  lemma CarryKeepsValue(ds: seq<int>, i: nat)
    requires 0 < i < |ds|
    ensures Value(ds[i := ds[i] - 5][i - 1 := ds[i - 1] + 1]) == Value(ds)
  {
    var ds' := ds[i := ds[i] - 5][i - 1 := ds[i - 1] + 1];
    var pre, post := ds[..i - 1], ds[i + 1..];
    assert ds == pre + [ds[i - 1], ds[i]] + post;
    assert ds' == pre + [ds[i - 1] + 1, ds[i] - 5] + post;
    ValueConcat(pre + [ds[i - 1], ds[i]], post);
    ValueConcat(pre + [ds[i - 1] + 1, ds[i] - 5], post);
    ValueConcat(pre, [ds[i - 1], ds[i]]);
    ValueConcat(pre, [ds[i - 1] + 1, ds[i] - 5]);
    assert [ds[i - 1], ds[i]][..1] == [ds[i - 1]];
    assert [ds[i - 1] + 1, ds[i] - 5][..1] == [ds[i - 1] + 1];
  }

  /** When the first digit is still above 2 with the rest done, the value is beyond any SNAFU numeral of that length. */
  lemma CarryOverflow(digits: seq<int>, ds: seq<int>)
    requires Base5(digits) && |ds| == |digits| > 0 && Value(ds) == Value(digits)
    requires Carrying(digits, ds, 1) && ds[0] > 2
    ensures Value(digits) > MaxBalanced(|digits|)
  {
    var rest := ds[1..];
    assert ds == [ds[0]] + rest;
    ValueConcat([ds[0]], rest);
    assert Value([ds[0]]) == ds[0];
    assert Balanced(rest) by {
      assert forall k :: 0 <= k < |rest| ==> rest[k] == ds[k + 1];
    }
    BalancedBounds(rest);
    ScaledDigit(ds[0], Pow5(|rest|));
  }

  /** The digits of a numeral rendered as characters, or `None` where a digit has none. */
  function Render(ds: seq<int>): (r: Option<string>)
    ensures r.Some? <==> Balanced(ds)
    ensures r.Some? ==> |r.value| == |ds| && forall i :: 0 <= i < |ds| ==> DigitChar(ds[i]) == Some(r.value[i])
  {
    if ds == [] then Some([])
    else
      match (Render(ds[..|ds| - 1]), DigitChar(ds[|ds| - 1]))
      case (Some(s), Some(c)) => Some(s + [c])
      case _ => None
  }

  /** Rendered digits decode to their value. */
  lemma RenderDecodes(ds: seq<int>)
    requires Balanced(ds)
    ensures IsNumeral(Render(ds).value) && DigitsOf(Render(ds).value) == ds
    ensures Decode(Render(ds).value) == Some(Value(ds))
  {
    var s := Render(ds).value;
    forall i | 0 <= i < |s| ensures DigitValue(s[i]) == Some(ds[i]) {
      DigitRoundTrip(ds[i], s[i]);
    }
    DecodeMeaning(s);
  }

  /**
   * `fmt` as written: the base-5 digits, the carry pass and the characters
   * of the digits (`reverse` followed by iterating in reverse leaves them in
   * their order). `None` where it panics: in the carry pass when `n` is
   * beyond the SNAFU numerals as long as its base-5 digits, and at a digit
   * without a character when `n < -2`.
   */
  method EncodeAsWritten(n: int) returns (r: Option<string>)
    ensures r.Some? <==> -2 <= n <= MaxBalanced(HighestPow(n) + 1)
    ensures r.Some? ==> Decode(r.value) == Some(n)
  {
    var digits := Extract(n);
    var carried := CarryAsWritten(digits);
    if carried.None? {
      return None;
    }
    assert Value(carried.value) == n by {
      if n < 0 {
        assert Value([n]) == n;
      }
    }
    r := Render(carried.value);
    if r.Some? {
      RenderDecodes(carried.value);
    }
  }

  /** 3 is `1=`, but its one base-5 digit 3 is above 2 and has no digit before it to carry into. */
  lemma ThreeHasNoEncoding()
    ensures Decode("1=") == Some(3)
    ensures !(3 <= MaxBalanced(HighestPow(3) + 1))
  {
    assert "1="[..1] == "1" && "1"[..0] == "";
  }

  /**
   * 13 is `1==`, but its base-5 digits `23` carry into a third digit that
   * the carry pass never makes: the first digit need not be above 2.
   */
  lemma ThirteenHasNoEncoding()
    ensures Decode("1==") == Some(13)
    ensures !(13 <= MaxBalanced(HighestPow(13) + 1))
  {
    assert "1=="[..2] == "1=" && "1="[..1] == "1" && "1"[..0] == "";
    assert DecodeFold("1==", 0, 1) == DecodeFold("1=", -2, 5);
    assert DecodeFold("1=", -2, 5) == DecodeFold("1", -12, 25);
  }

  /** A numeral has no leading `0` unless it is `0`. */
  ghost predicate Canonical(s: string)
  {
    s != [] && (s[0] == '0' ==> |s| == 1)
  }

  /**
   * The carry pass started from a leading zero digit, which takes the
   * carry out of the first digit; the leading zero is dropped again when it
   * is left.
   */
  method CarryFixed(digits: seq<int>) returns (ds: seq<int>)
    requires Base5(digits) && digits != []
    requires |digits| > 1 ==> digits[0] != 0
    ensures Value(ds) == Value(digits) && Balanced(ds)
    ensures ds != [] && (ds[0] == 0 ==> |ds| == 1)
  {
    var extended := [0] + digits;
    ZeroLed(digits);
    assert Base5(extended) by {
      assert forall k :: 0 < k < |extended| ==> extended[k] == digits[k - 1];
    }
    FitsWithLeadingZero(digits);
    var carried := CarryAsWritten(extended);
    ds := carried.value;
    if ds[0] == 0 {
      var rest := ds[1..];
      assert ds == [0] + rest;
      ZeroLed(rest);
      assert Balanced(rest) by {
        assert forall k :: 0 <= k < |rest| ==> rest[k] == ds[k + 1];
      }
      if |rest| > 1 && rest[0] == 0 {
        ZeroLedTooSmall(digits, rest);
      }
      ds := rest;
    }
  }

  /** The value of base-5 digits fits SNAFU numerals one digit longer. */
  lemma FitsWithLeadingZero(digits: seq<int>)
    requires Base5(digits)
    ensures Value(digits) <= MaxBalanced(|digits| + 1)
  {
    Base5Bound(digits);
  }

  lemma {:induction false} Base5Bound(ds: seq<int>)
    requires Base5(ds)
    ensures 0 <= Value(ds) < Pow5(|ds|)
    decreases |ds|
  {
    if ds != [] {
      Base5Bound(ds[..|ds| - 1]);
    }
  }

  /** Base-5 digits with a non-zero first digit are worth at least `5^(len-1)`. */
  lemma Base5Leading(ds: seq<int>)
    requires Base5(ds) && ds != [] && ds[0] >= 1
    ensures Value(ds) >= Pow5(|ds| - 1)
  {
    var rest := ds[1..];
    assert ds == [ds[0]] + rest;
    ValueConcat([ds[0]], rest);
    assert Value([ds[0]]) == ds[0];
    assert Base5(rest) by {
      assert forall k :: 0 <= k < |rest| ==> rest[k] == ds[k + 1];
    }
    Base5Bound(rest);
    ScaledDigit(ds[0], Pow5(|rest|));
  }

  /** SNAFU digits led by two zeros are too small for base-5 digits of the same length with a non-zero first digit. */
  lemma ZeroLedTooSmall(digits: seq<int>, rest: seq<int>)
    requires Base5(digits) && |digits| > 1 && digits[0] != 0
    requires Balanced(rest) && |rest| == |digits| && rest[0] == 0
    ensures Value(rest) != Value(digits)
  {
    var tail := rest[1..];
    assert rest == [0] + tail;
    ZeroLed(tail);
    assert Balanced(tail) by {
      assert forall k :: 0 <= k < |tail| ==> tail[k] == rest[k + 1];
    }
    BalancedBounds(tail);
    Base5Leading(digits);
    assert Value(tail) <= MaxBalanced(|tail|) < Pow5(|tail|) <= Value(digits);
  }

  /** A leading zero digit adds nothing. */
  lemma ZeroLed(ds: seq<int>)
    ensures Value([0] + ds) == Value(ds)
  {
    ValueConcat([0], ds);
    assert Value([0]) == 0;
    assert Value([0]) * Pow5(|ds|) == 0;
  }

  /**
   * `fmt` with the carry pass corrected: the numeral of `n`, without a
   * leading `0`, and `None` only where a negative digit has no character
   * (`n < -2`), as in the code.
   */
  method Encode(n: int) returns (r: Option<string>)
    ensures r.Some? <==> n >= -2
    ensures r.Some? ==> Decode(r.value) == Some(n) && Canonical(r.value)
  {
    var digits := Extract(n);
    if n < 0 {
      assert Value([n]) == n;
      r := Render(digits);
      if r.Some? {
        RenderDecodes(digits);
      }
      return;
    }
    var ds := CarryFixed(digits);
    r := Render(ds);
    RenderDecodes(ds);
    DigitRoundTrip(0, r.value[0]);
  }

  // ---- Uniqueness ----

  /** SNAFU digits with no leading zero (unless the only digit) are determined by their value. */
  lemma {:induction false} BalancedUnique(a: seq<int>, b: seq<int>)
    requires Balanced(a) && Balanced(b) && a != [] && b != []
    requires (a[0] == 0 ==> |a| == 1) && (b[0] == 0 ==> |b| == 1)
    requires Value(a) == Value(b)
    ensures a == b
    decreases |a| + |b|
  {
    var ia, ib := a[..|a| - 1], b[..|b| - 1];
    var la, lb := a[|a| - 1], b[|b| - 1];
    assert 5 * (Value(ia) - Value(ib)) == lb - la;
    assert la == lb;
    if |a| == 1 && |b| == 1 {
    } else if |a| == 1 {
      LeadingDigit(ib);
      assert false;
    } else if |b| == 1 {
      LeadingDigit(ia);
      assert false;
    } else {
      BalancedUnique(ia, ib);
      assert a == ia + [la] && b == ib + [lb];
    }
  }

  /** Numerals with no leading `0` are determined by their value. */
  lemma CanonicalUnique(s: string, t: string)
    requires Canonical(s) && Canonical(t) && Decode(s).Some? && Decode(s) == Decode(t)
    ensures s == t
  {
    DecodeMeaning(s);
    DecodeMeaning(t);
    var a, b := DigitsOf(s), DigitsOf(t);
    DigitRoundTrip(0, s[0]);
    DigitRoundTrip(0, t[0]);
    BalancedUnique(a, b);
    forall i | 0 <= i < |s| ensures s[i] == t[i] {
      DigitRoundTrip(a[i], s[i]);
      DigitRoundTrip(a[i], t[i]);
    }
  }

  // ---- Part 1 ----

  /** The sum of the numbers of the lines, `None` when a line is not a numeral. */
  function Total(lines: seq<string>): Option<int>
  {
    if lines == [] then Some(0)
    else match (Total(lines[..|lines| - 1]), Decode(lines[|lines| - 1]))
      case (Some(t), Some(v)) => Some(t + v)
      case _ => None
  }

  /**
   * part1 as written, over `fmt` as written: `None` also where the carry
   * pass panics, for sums such as 3 and 13 (base 5 `3` and `23`).
   */
  method Part1AsWritten(lines: seq<string>) returns (r: Option<string>)
    ensures r.Some? <==> Total(lines).Some? && -2 <= Total(lines).value <= MaxBalanced(HighestPow(Total(lines).value) + 1)
    ensures r.Some? ==> Decode(r.value) == Total(lines)
  {
    var total := Total(lines);
    if total.None? {
      return None;
    }
    r := EncodeAsWritten(total.value);
  }

  /** part1 over the corrected `fmt`: the numeral of the sum of the lines. */
  method Part1(lines: seq<string>) returns (r: Option<string>)
    ensures r.Some? <==> Total(lines).Some? && Total(lines).value >= -2
    ensures r.Some? ==> Decode(r.value) == Total(lines) && Canonical(r.value)
  {
    var total := Total(lines);
    if total.None? {
      return None;
    }
    r := Encode(total.value);
  }

  /** The answer the test expects, `3`, is not a numeral at all. */
  lemma ExpectedIsNotNumeral()
    ensures Decode("3") == None
  {
  }
}
