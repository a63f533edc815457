/** Java's fixed-width integer ranges and its integer division, which Dafny does not share:
    Java's `/` rounds the quotient toward zero and its `%` takes the sign of the dividend,
    while Dafny's `/` and `%` on `int` are Euclidean. */
module JavaInt {
  const IntMin: int := -0x8000_0000
  const IntMax: int := 0x7FFF_FFFF
  const LongMin: int := -0x8000_0000_0000_0000
  const LongMax: int := 0x7FFF_FFFF_FFFF_FFFF

  /** Java's `(int)` cast of a `long`: keeps the low 32 bits, so the value wraps around. */
  function NarrowingCast(n: int): (r: int)
    ensures IntMin <= r <= IntMax
    ensures (n - r) % 0x1_0000_0000 == 0
    ensures IntMin <= n <= IntMax ==> r == n
  {
    var low := n % 0x1_0000_0000;
    if low > IntMax then low - 0x1_0000_0000 else low
  }

  /** Java's `a / b` for a positive divisor: the quotient rounded toward zero. */
  function Quot(a: int, b: int): (q: int)
    requires b > 0
    ensures a >= 0 ==> q == a / b
    ensures a <= 0 ==> q <= 0
  {
    if a >= 0 then a / b else -((-a) / b)
  }

  /** Java's `a % b` for a positive divisor: the remainder carries the sign of `a`. */
  function Rem(a: int, b: int): (r: int)
    requires b > 0
    ensures -b < r < b
    ensures a >= 0 ==> r == a % b
    ensures a <= 0 ==> r <= 0
  {
    if a >= 0 then a % b else -((-a) % b)
  }

  /** Quot and Rem split the dividend exactly, as Java's `(a / b) * b + a % b == a`. */
  lemma QuotRem(a: int, b: int)
    requires b > 0
    ensures b * Quot(a, b) + Rem(a, b) == a
  {
    if a < 0 {
      assert b * ((-a) / b) + (-a) % b == -a;
    }
  }

  /** Quot is the unique truncating quotient: a remainder strictly smaller than the divisor
      and of the dividend's sign fixes both results. */
  lemma QuotRemUnique(a: int, b: int, q: int, r: int)
    requires b > 0
    requires a == b * q + r && -b < r < b
    requires a >= 0 ==> r >= 0
    requires a < 0 ==> r <= 0
    ensures Quot(a, b) == q && Rem(a, b) == r
  {
    QuotRem(a, b);
    var q', r' := Quot(a, b), Rem(a, b);
    assert b * (q - q') == r' - r;
    assert -b < r' - r < b;
    if q > q' {
      MulAtLeast(b, q - q');
    } else if q < q' {
      MulAtLeast(b, q' - q);
    }
  }

  lemma {:induction false} MulAtLeast(b: int, d: int)
    requires b > 0 && d >= 1
    ensures b * d >= b
  {
    if d > 1 {
      MulAtLeast(b, d - 1);
      assert b * d == b * (d - 1) + b;
    }
  }
}
