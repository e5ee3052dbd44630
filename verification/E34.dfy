/** Signed fixed-point arithmetic at scale 10^34, rounding every operation towards minus
    infinity, and the integer power built on it. */
module E34 {
  import opened Numbers

  const S: int := 10000000000000000000000000000000000
  const EPSILON: int := 10000000000

  datatype Result = Ok(value: int) | DivisionByZero | Domain

  function Abs(a: int): int { if a < 0 then -a else a }

  /** `q` is the floor of `n / d`. */
  predicate IsFloor(q: int, n: int, d: int) {
    if d > 0 then q * d <= n < (q + 1) * d else q * d >= n > (q + 1) * d
  }

  function FloorQuot(n: int, d: int): int
    requires d != 0
  {
    if d > 0 then n / d else (-n) / (-d)
  }

  /** Go's `Quo` and `Rem` for a positive divisor: truncation towards zero. */
  function Quo(n: int, d: int): int
    requires d > 0
  {
    if n >= 0 then n / d else -((-n) / d)
  }

  function Rem(n: int, d: int): int
    requires d > 0
  {
    n - Quo(n, d) * d
  }

  lemma QuotientIsFloor(n: int, d: int)
    requires d > 0
    ensures IsFloor(n / d, n, d)
  {
  }

  lemma FloorUnique(q: int, n: int, d: int)
    requires d > 0 && q * d <= n < (q + 1) * d
    ensures q == n / d
  {
    var p := n / d;
    assert p * d <= n < (p + 1) * d;
    assert -d < (q - p) * d < d;
    SmallMultiple(q - p, d);
  }

  lemma SmallMultiple(k: int, d: int)
    requires d > 0 && -d < k * d < d
    ensures k == 0
  {
  }

  lemma FloorAntitone(n: int, d: int, d': int)
    requires 0 <= n && 0 < d <= d'
    ensures n / d' <= n / d
  {
    var q, q' := n / d, n / d';
    assert n < (q + 1) * d && q' * d' <= n && 0 <= q';
    if q' > q {
      MulLe(d, q + 1, q');
      MulLe(q', d, d');
    }
  }

  /** The corrected truncating quotient is the floor, for either sign of both operands, and only
      a zero divisor is refused. */
  method FloorQuotient(numerator: int, denominator: int) returns (r: Result)
    ensures r == if denominator == 0 then DivisionByZero else Ok(FloorQuot(numerator, denominator))
    ensures r.Ok? ==> IsFloor(r.value, numerator, denominator)
  {
    if denominator == 0 { return DivisionByZero; }
    var n, d := numerator, denominator;
    if denominator < 0 { n, d := -numerator, -denominator; }
    var q := Quo(n, d);
    if n < 0 && Rem(n, d) < 0 { q := q - 1; }
    FlooredQuo(n, d);
    r := Ok(q);
  }

  lemma FlooredQuo(n: int, d: int)
    requires d > 0
    ensures n / d == if n < 0 && Rem(n, d) < 0 then Quo(n, d) - 1 else Quo(n, d)
    ensures n / d * d <= n < (n / d + 1) * d
  {
    if n < 0 {
      var m := (-n) / d;
      var md := m * d;
      assert md <= -n < md + d && Rem(n, d) == n + md by { assert Quo(n, d) * d == -md; }
      if n + md < 0 {
        assert (-m - 1) * d == -md - d && (-m) * d == -md;
        FloorUnique(-m - 1, n, d);
      } else {
        assert (-m) * d == -md && (-m + 1) * d == -md + d;
        FloorUnique(-m, n, d);
      }
    }
    QuotientIsFloor(n, d);
  }

  function Mul(a: int, b: int): int {
    a * b / S
  }

  function Div(a: int, b: int): int
    requires b != 0
  {
    FloorQuot(a * S, b)
  }

  lemma MulBounds(a: int, b: int)
    ensures Mul(a, b) * S <= a * b < (Mul(a, b) + 1) * S
  {
  }

  lemma MulMonotone(a: int, a': int, b: int, b': int)
    requires 0 <= a <= a' && 0 <= b <= b'
    ensures 0 <= Mul(a, b) <= Mul(a', b')
  {
    MulLe(b, a, a');
    MulLe(a', b, b');
    assert 0 <= a * b <= a' * b';
  }

  // ----- power

  function PowNat(b: int, n: nat): int {
    if n == 0 then S
    else if n % 2 == 0 then Mul(PowNat(b, n / 2), PowNat(b, n / 2))
    else Mul(b, PowNat(b, n - 1))
  }

  /** A negative exponent divides one by the positive power. */
  function Power(b: int, n: int): Result {
    if n >= 0 then Ok(PowNat(b, n))
    else if PowNat(b, -n) == 0 then DivisionByZero
    else Ok(Div(S, PowNat(b, -n)))
  }

  function Pow(b: int, n: nat): int {
    if n == 0 then 1 else b * Pow(b, n - 1)
  }

  lemma {:induction false} PowAdd(b: int, m: nat, n: nat)
    ensures Pow(b, m + n) == Pow(b, m) * Pow(b, n)
    decreases n
  {
    if n > 0 {
      PowAdd(b, m, n - 1);
      calc {
        Pow(b, m + n);
        b * Pow(b, m + n - 1);
        b * (Pow(b, m) * Pow(b, n - 1));
        Pow(b, m) * (b * Pow(b, n - 1));
        Pow(b, m) * Pow(b, n);
      }
    }
  }

  lemma {:induction false} PowPositive(b: int, n: nat)
    requires b > 0
    ensures Pow(b, n) > 0
  {
    if n > 0 { PowPositive(b, n - 1); }
  }

  lemma {:induction false} PowNatNonNegative(b: int, n: nat)
    requires b >= 0
    ensures PowNat(b, n) >= 0
    decreases n
  {
    if n > 0 {
      if n % 2 == 0 { PowNatNonNegative(b, n / 2); MulMonotone(0, PowNat(b, n / 2), 0, PowNat(b, n / 2)); }
      else { PowNatNonNegative(b, n - 1); MulMonotone(0, b, 0, PowNat(b, n - 1)); }
    }
  }

  /** A scaled upper bound multiplies through one floored product. */
  lemma ProductBound(p: int, q: int, x: int, y: int, s: int, t: int)
    requires 0 <= p && 0 <= q && 0 < s && 0 < t
    requires p * s <= x && q * t <= y
    ensures Mul(p, q) * (S * s * t) <= x * y
  {
    MulBounds(p, q);
    MulLe(s * t, Mul(p, q) * S, p * q);
    assert p * q * (s * t) == (p * s) * (q * t);
    assert 0 <= p * s && 0 <= q * t;
    MulLe(q * t, p * s, x);
    MulLe(x, q * t, y);
    assert Mul(p, q) * S * (s * t) == Mul(p, q) * (S * s * t);
  }

  lemma SquareUpper(b: int, m: nat)
    requires b >= 0 && m >= 1 && PowNat(b, m) * Pow(S, m - 1) <= Pow(b, m)
    ensures Mul(PowNat(b, m), PowNat(b, m)) * Pow(S, 2 * m - 1) <= Pow(b, 2 * m)
  {
    hide PowNat;
    var p, s := PowNat(b, m), Pow(S, m - 1);
    PowNatNonNegative(b, m);
    PowPositive(S, m - 1);
    PowAdd(b, m, m);
    PowAdd(S, m - 1, m - 1);
    assert Pow(S, 2 * m - 1) == S * Pow(S, 2 * m - 2) == S * (s * s);
    ProductBound(p, p, Pow(b, m), Pow(b, m), s, s);
    assert S * s * s == S * (s * s);
  }

  /** Rounding never carries the power above the exact one: P(b, n) * S^(n-1) <= b^n. */
  lemma {:induction false} PowerUpper(b: int, n: nat)
    requires b >= 0 && n >= 1
    ensures PowNat(b, n) * Pow(S, n - 1) <= Pow(b, n)
    decreases n
  {
    if n == 1 {
      assert PowNat(b, 1) == Mul(b, S) == b;
    } else if n % 2 == 0 {
      PowerUpper(b, n / 2);
      SquareUpper(b, n / 2);
    } else {
      PowerUpper(b, n - 1);
      PowNatNonNegative(b, n - 1);
      PowPositive(S, n - 2);
      ProductBound(b, PowNat(b, n - 1), b, Pow(b, n - 1), 1, Pow(S, n - 2));
      assert S * 1 * Pow(S, n - 2) == Pow(S, n - 1);
    }
  }

  /** A base of at least one has powers of at least one. */
  lemma {:induction false} PowerAtLeastOne(b: int, n: nat)
    requires b >= S
    ensures PowNat(b, n) >= S
    decreases n
  {
    if n > 0 {
      var p, q := if n % 2 == 0 then PowNat(b, n / 2) else b, if n % 2 == 0 then PowNat(b, n / 2) else PowNat(b, n - 1);
      PowerAtLeastOne(b, if n % 2 == 0 then n / 2 else n - 1);
      MulMonotone(S, p, S, q);
    }
  }
}
