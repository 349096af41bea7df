/**
 * The handful of `str` operations the input parsers use: `split` on a
 * separator, `split_whitespace`, `lines`, and `str::parse::<i32>`.
 */
module Text {
  import opened Wrappers

  /** `str::split(sep)`: the pieces between non-overlapping, leftmost occurrences of `sep`. */
  function Split(s: string, sep: string): (r: seq<string>)
    requires |sep| > 0
    ensures |r| >= 1
    decreases |s|
  {
    if |s| < |sep| then [s]
    else if s[..|sep|] == sep then [[]] + Split(s[|sep|..], sep)
    else
      var rest := Split(s[1..], sep);
      [[s[0]] + rest[0]] + rest[1..]
  }

  /** The pieces joined back: `pieces[0] + sep + pieces[1] + ...`. */
  function Join(pieces: seq<string>, sep: string): string
  {
    if |pieces| == 0 then []
    else if |pieces| == 1 then pieces[0]
    else pieces[0] + sep + Join(pieces[1..], sep)
  }

  lemma JoinConsHead(c: char, pieces: seq<string>, sep: string)
    requires |pieces| >= 1
    ensures Join([[c] + pieces[0]] + pieces[1..], sep) == [c] + Join(pieces, sep)
  {
    var p := [[c] + pieces[0]] + pieces[1..];
    assert p[1..] == pieces[1..];
  }

  /** Splitting loses nothing: joining the pieces with the separator gives the input back. */
  lemma {:induction false} JoinSplit(s: string, sep: string)
    requires |sep| > 0
    ensures Join(Split(s, sep), sep) == s
    decreases |s|
  {
    if |s| < |sep| {
    } else if s[..|sep|] == sep {
      JoinSplit(s[|sep|..], sep);
      var rest := Split(s[|sep|..], sep);
      assert ([[]] + rest)[1..] == rest;
      assert s == sep + s[|sep|..];
    } else {
      JoinSplit(s[1..], sep);
      JoinConsHead(s[0], Split(s[1..], sep), sep);
      assert s == [s[0]] + s[1..];
    }
  }

  /** `str::lines` on text that uses `\n` line ends. */
  function Lines(s: string): (r: seq<string>)
    ensures forall i :: 0 <= i < |r| ==> '\n' !in r[i]
  {
    SplitCharHasNoSeparator(s, '\n');
    var pieces := Split(s, "\n");
    // A final line end does not start an empty last line.
    if pieces[|pieces| - 1] == [] then pieces[..|pieces| - 1] else pieces
  }

  lemma {:induction false} SplitCharHasNoSeparator(s: string, c: char)
    ensures forall i :: 0 <= i < |Split(s, [c])| ==> c !in Split(s, [c])[i]
    decreases |s|
  {
    if |s| >= 1 {
      SplitCharHasNoSeparator(s[1..], c);
      if s[..1] == [c] {
        assert s[1..] == s[|[c]|..];
      }
    }
  }

  /** `char::is_whitespace`: the Unicode `White_Space` property, tab to carriage return and space among them. */
  predicate IsWhitespace(c: char)
  {
    || '\t' <= c <= '\r' || c == ' ' || c == '\U{0085}' || c == '\U{00A0}' || c == '\U{1680}'
    || '\U{2000}' <= c <= '\U{200A}' || c == '\U{2028}' || c == '\U{2029}' || c == '\U{202F}'
    || c == '\U{205F}' || c == '\U{3000}'
  }

  /** `str::split_whitespace`: the maximal runs of non-whitespace characters. */
  function Words(s: string): (r: seq<string>)
    ensures forall i :: 0 <= i < |r| ==> |r[i]| > 0
    ensures forall i, k :: 0 <= i < |r| && 0 <= k < |r[i]| ==> !IsWhitespace(r[i][k])
    decreases |s|
  {
    if s == [] then []
    else if IsWhitespace(s[0]) then Words(s[1..])
    else
      var n := WordLength(s);
      [s[..n]] + Words(s[n..])
  }

  /** The length of the run of non-whitespace characters that starts `s`. */
  function WordLength(s: string): (n: nat)
    ensures n <= |s|
    ensures forall k :: 0 <= k < n ==> !IsWhitespace(s[k])
    ensures n < |s| ==> IsWhitespace(s[n])
    ensures |s| > 0 && !IsWhitespace(s[0]) ==> n > 0
  {
    if s == [] || IsWhitespace(s[0]) then 0 else 1 + WordLength(s[1..])
  }

  predicate IsDigit(c: char)
  {
    '0' <= c <= '9'
  }

  function DigitValue(c: char): (d: nat)
    requires IsDigit(c)
    ensures d < 10
  {
    c as int - '0' as int
  }

  /** The value of a string of decimal digits, most significant first. */
  function DigitsValue(s: string): nat
    requires forall k :: 0 <= k < |s| ==> IsDigit(s[k])
  {
    if s == [] then 0 else DigitsValue(s[..|s| - 1]) * 10 + DigitValue(s[|s| - 1])
  }

  const I32Min: int := -0x8000_0000
  const I32Max: int := 0x7fff_ffff

  /**
   * `str::parse::<i32>`: an optional sign, then at least one digit, with the
   * value in range; anything else is an error (`None`).
   */
  function ParseI32(s: string): (r: Option<int>)
    ensures r.Some? ==> I32Min <= r.value <= I32Max
  {
    var negative := |s| > 0 && s[0] == '-';
    var digits := if |s| > 0 && (s[0] == '-' || s[0] == '+') then s[1..] else s;
    if digits == [] || exists k :: 0 <= k < |digits| && !IsDigit(digits[k]) then None
    else
      var v: int := if negative then -(DigitsValue(digits) as int) else DigitsValue(digits);
      if I32Min <= v <= I32Max then Some(v) else None
  }

  const UsizeMax: int := 0xffff_ffff_ffff_ffff

  /**
   * `str::parse::<usize>`: an optional `+`, then at least one digit, with
   * the value in range; anything else is an error (`None`).
   */
  function ParseUsize(s: string): (r: Option<nat>)
    ensures r.Some? ==> r.value <= UsizeMax
  {
    var digits := if |s| > 0 && s[0] == '+' then s[1..] else s;
    if digits == [] || exists k :: 0 <= k < |digits| && !IsDigit(digits[k]) then None
    else if DigitsValue(digits) <= UsizeMax then Some(DigitsValue(digits)) else None
  }

  /** Parsing undoes printing for every value a `usize` holds. */
  lemma ParseShowUsize(n: nat)
    requires n <= UsizeMax
    ensures ParseUsize(ShowNat(n)) == Some(n)
  {
    DigitsValueShowNat(n);
  }

  /** The decimal digits of `n`, as `Display` for an integer writes them. */
  function ShowNat(n: nat): (s: string)
    ensures |s| > 0
    ensures forall k :: 0 <= k < |s| ==> IsDigit(s[k])
  {
    var d := ['0' + (n % 10) as char];
    if n < 10 then d else ShowNat(n / 10) + d
  }

  lemma {:induction false} DigitsValueShowNat(n: nat)
    ensures DigitsValue(ShowNat(n)) == n
  {
    var s := ShowNat(n);
    if n >= 10 {
      DigitsValueShowNat(n / 10);
      assert s[..|s| - 1] == ShowNat(n / 10);
    }
  }

  /** Parsing undoes printing for every value an `i32` holds. */
  lemma ParseShow(n: int)
    requires I32Min <= n <= I32Max
    ensures n >= 0 ==> ParseI32(ShowNat(n)) == Some(n)
    ensures n < 0 ==> ParseI32("-" + ShowNat(-n)) == Some(n)
  {
    if n >= 0 {
      DigitsValueShowNat(n);
    } else {
      DigitsValueShowNat(-n);
      assert ("-" + ShowNat(-n))[1..] == ShowNat(-n);
    }
  }
}
