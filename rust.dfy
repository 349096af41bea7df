/**
 * Rust's integer division and remainder. Both truncate toward zero, so the
 * remainder takes the sign of the dividend; Dafny's `/` and `%` are
 * Euclidean instead. `rem_euclid` is Dafny's `%` and needs no definition.
 */
module RustInt {

  /** `a / d` on a signed Rust integer. */
  function Quot(a: int, d: int): (q: int)
    requires d != 0
    ensures a >= 0 && d > 0 ==> q * d <= a < q * d + d
    ensures a < 0 && d > 0 ==> q * d - d < a <= q * d
  {
    if a >= 0 then a / d else -((-a) / d)
  }

  /** `a % m` on a signed Rust integer. */
  function Rem(a: int, m: int): (r: int)
    requires m != 0
    ensures a >= 0 ==> 0 <= r < Abs(m)
    ensures a < 0 ==> 0 <= -r < Abs(m)
    ensures (a - r) % m == 0
    ensures r == 0 <==> a % m == 0
  {
    if a >= 0 then
      ModUnique(a - a % m, m, a / m, 0);
      a % m
    else
      RemOfNegative(a, m);
      -((-a) % m)
  }

  /** For a negative dividend the residue of `-a` is subtracted instead. */
  lemma RemOfNegative(a: int, m: int)
    requires m != 0 && a < 0
    ensures (a + (-a) % m) % m == 0
    ensures (-a) % m == 0 <==> a % m == 0
  {
    var p := (-a) % m;
    ModUnique(-a, m, (-a) / m, p);
    ModNegate(-a, m);
    ModUnique(a + p, m, -((-a) / m), 0);
  }

  function Abs(x: int): nat
  {
    if x < 0 then -x else x
  }

  /** Dafny's `%` is determined by quotient and remainder. */
  lemma ModUnique(x: int, m: int, q: int, r: int)
    requires m != 0 && x == q * m + r && 0 <= r < Abs(m)
    ensures x % m == r && x / m == q
  {
    var q', r' := x / m, x % m;
    var k := q - q';
    assert k * m == r' - r;
    if k != 0 {
      MulAtLeast(k, m);
    }
  }

  /** A non-zero multiple of `m` is at least `m` in size. */
  lemma MulAtLeast(k: int, m: int)
    requires k != 0 && m != 0
    ensures Abs(k * m) >= Abs(m)
  {
    if k > 0 && m > 0 {
      MulGrows(k, m);
    } else if k < 0 && m > 0 {
      assert k * m == -((-k) * m);
      MulGrows(-k, m);
    } else if k > 0 {
      assert k * m == -(k * (-m));
      MulGrows(k, -m);
    } else {
      assert k * m == (-k) * (-m);
      MulGrows(-k, -m);
    }
  }

  lemma MulGrows(a: nat, b: nat)
    requires a >= 1
    ensures a * b >= b
  {
    assert a * b == b + (a - 1) * b;
  }

  /** `-x` is divisible whenever `x` is. */
  lemma ModNegate(x: int, m: int)
    requires m != 0
    ensures x % m == 0 <==> (-x) % m == 0
  {
    if x % m == 0 {
      ModUnique(-x, m, -(x / m), 0);
    }
    if (-x) % m == 0 {
      ModUnique(x, m, -((-x) / m), 0);
    }
  }

  /** Adding a multiple of `m` keeps the residue. */
  lemma ModShift(x: int, q: int, m: int)
    requires m != 0
    ensures (x + q * m) % m == x % m
  {
    ModUnique(x + q * m, m, x / m + q, x % m);
  }

  /** Residues can be reduced before adding, multiplying or squaring. */
  lemma ModAdd(a: int, b: int, m: int)
    requires m != 0
    ensures (a % m + b) % m == (a + b) % m
  {
    ModShift(a % m + b, a / m, m);
  }

  lemma ModMul(a: int, b: int, m: int)
    requires m != 0
    ensures (a % m * b) % m == (a * b) % m
  {
    var q, r := a / m, a % m;
    assert a == q * m + r;
    assert a * b == (q * m + r) * b;
    assert (q * m + r) * b == r * b + (q * b) * m;
    ModShift(r * b, q * b, m);
  }

  lemma ModSquare(a: int, m: int)
    requires m != 0
    ensures (a % m * (a % m)) % m == (a * a) % m
  {
    var r := a % m;
    ModMul(a, r, m);
    assert r * a == a * r;
    ModMul(a, a, m);
  }
}
