/** What the continued fraction computes: for every depth its convergent, taken without rounding,
    is a quotient of polynomials whose power series is that of ln(1 + z) up to one power past the
    depth and no further; and the integers of the loop are those polynomials but for the
    rounding of one unit a step. */
module E34LnSeries {
  import opened E34
  import opened E34Ln
  import opened Numbers

  // ----- the loop as a pair of recurrences

  /** The numerator (`top`) or denominator the loop holds after `n` values: the first two are the
      initial ones and number `n` is computed at depth n - 2. */
  function Pair(top: bool, r: int, n: nat): int {
    if n == 0 then (if top then S else 0)
    else if n == 1 then (if top then 0 else S)
    else Mul((n - 1) * S, Pair(top, r, n - 1)) + Mul(Coefficient(r, n - 2), Pair(top, r, n - 2))
  }

  lemma {:induction false} PairRange(r: int, n: nat)
    requires r >= 0
    ensures Pair(true, r, n) >= 0 && Pair(false, r, n) >= 0 && (n >= 1 ==> Pair(false, r, n) >= S)
  {
    if n >= 2 {
      PairRange(r, n - 1);
      PairRange(r, n - 2);
      var c := Coefficient(r, n - 2);
      assert c >= 0 by { CoefficientScales(r, n - 2); MulLe(r, 0, Coefficient(1, n - 2)); }
      MulMonotone(0, (n - 1) * S, 0, Pair(true, r, n - 1));
      MulMonotone(0, c, 0, Pair(true, r, n - 2));
      DenominatorAtLeastOne(r, FrameAt(r, n - 2, 0), n - 2);
    }
  }

  lemma CoefficientScales(r: int, depth: nat)
    ensures Coefficient(r, depth) == r * Coefficient(1, depth) && Coefficient(1, depth) >= 1
  {
    var k := (depth + 1) / 2;
    if depth > 0 { assert k >= 1; MulLe(k, 1, k); }
  }

  /** The convergent at a depth. */
  function Convergent(r: int, depth: nat): int
    requires r >= 0
  {
    PairRange(r, depth + 2);
    Div(Pair(true, r, depth + 2), Pair(false, r, depth + 2))
  }

  /** Two neighbouring convergents are within the tolerance. */
  predicate Close(r: int, depth: nat)
    requires r >= 0 && depth > 0
  {
    Abs(Convergent(r, depth - 1) - Convergent(r, depth)) < EPSILON
  }

  function FrameAt(r: int, depth: nat, previous: int): Frame {
    Frame(Pair(true, r, depth), Pair(false, r, depth), Pair(true, r, depth + 1), Pair(false, r, depth + 1), previous)
  }

  lemma {:induction false} StopsAt(r: int, depth: nat, budget: nat, previous: int) returns (d: nat)
    requires r >= 0 && depth <= budget && (depth > 0 ==> previous == Convergent(r, depth - 1))
    ensures FrameAt(r, depth, previous).Valid() && depth <= d <= budget
    ensures Convergents(r, FrameAt(r, depth, previous), depth, budget) == Convergent(r, d)
    ensures d == budget || (d > 0 && Close(r, d))
    ensures forall e :: depth <= e < d && e > 0 ==> !Close(r, e)
    decreases budget - depth
  {
    hide Coefficient, Mul, Div;
    PairRange(r, depth);
    PairRange(r, depth + 1);
    PairRange(r, depth + 2);
    var f, c := FrameAt(r, depth, previous), Convergent(r, depth);
    if depth == budget || (depth > 0 && Close(r, depth)) {
      d := depth;
    } else {
      d := StopsAt(r, depth + 1, budget, c);
      assert FrameAt(r, depth + 1, c) ==
             Frame(f.aPrev, f.bPrev, Pair(true, r, depth + 2), Pair(false, r, depth + 2), c);
    }
  }

  /** The fraction is the convergent at the first depth whose convergent is within the tolerance
      of its predecessor, or at the last depth. */
  lemma FractionStops(r: int, budget: nat) returns (d: nat)
    requires r >= 0
    ensures d <= budget && Fraction(r, budget) == Convergent(r, d)
    ensures d == budget || (d > 0 && Close(r, d))
    ensures forall e :: 0 < e < d ==> !Close(r, e)
  {
    d := StopsAt(r, 0, budget, 0);
    assert FrameAt(r, 0, 0) == FIRST_FRAME;
  }

  // ----- the polynomials

  function Product(x: real, y: real): real { x * y }

  function Combine(g: real, x: real, f: real, y: real): real { g * x + f * y }

  /** The factor of z that the recurrence uses for its `n`th value. */
  function Factor(n: nat): real
    requires n >= 2
  {
    Coefficient(1, n - 2) as real
  }

  /** The coefficient of z^m in the `n`th numerator or denominator, taken without rounding. */
  function Poly(top: bool, n: nat, m: nat): real {
    if n < 2 then (if top == (n == 0) && m == 0 then 1.0 else 0.0)
    else Combine((n - 1) as real, Poly(top, n - 1, m), Factor(n), if m == 0 then 0.0 else Poly(top, n - 2, m - 1))
  }

  /** The coefficient of z^m in ln(1 + z) = z - z^2/2 + z^3/3 - ... */
  function LogTerm(m: nat): real {
    if m == 0 then 0.0 else if m % 2 == 1 then 1.0 / m as real else -1.0 / m as real
  }

  /** The first `k` summands of the coefficient of z^m in the `n`th denominator times ln(1 + z). */
  function Times(n: nat, m: nat, k: nat): real
    requires k <= m + 1
  {
    if k == 0 then 0.0 else Times(n, m, k - 1) + Product(Poly(false, n, k - 1), LogTerm(m - (k - 1)))
  }

  /** The coefficient of z^m in the numerator less ln(1 + z) times the denominator. */
  function Defect(n: nat, m: nat): real {
    Poly(true, n, m) - Times(n, m, m + 1)
  }

  lemma {:induction false} TimesStep(n: nat, m: nat, k: nat)
    requires n >= 2 && 1 <= k <= m + 1 && m >= 1
    ensures Times(n, m, k) ==
            Combine((n - 1) as real, Times(n - 1, m, k), Factor(n), Times(n - 2, m - 1, k - 1))
  {
    hide Factor, LogTerm, Combine, Product;
    var g, f, l := (n - 1) as real, Factor(n), LogTerm(m - (k - 1));
    var x, y := Poly(false, n - 1, k - 1), if k == 1 then 0.0 else Poly(false, n - 2, k - 2);
    Distribute(g, x, f, y, l);
    if k == 1 {
      Nothing(l);
    } else {
      TimesStep(n, m, k - 1);
      Collect(g, Times(n - 1, m, k - 1), Product(x, l), f, Times(n - 2, m - 1, k - 2), Product(y, l));
    }
  }

  lemma Distribute(g: real, x: real, f: real, y: real, l: real)
    ensures Product(Combine(g, x, f, y), l) == Combine(g, Product(x, l), f, Product(y, l))
  {
  }

  lemma Collect(g: real, s: real, x: real, f: real, t: real, y: real)
    ensures Combine(g, s, f, t) + Combine(g, x, f, y) == Combine(g, s + x, f, t + y)
  {
  }

  lemma Nothing(x: real)
    ensures Product(0.0, x) == 0.0 && Product(x, 0.0) == 0.0
  {
  }

  lemma Negate(g: real, s: real, f: real, t: real)
    ensures Combine(g, -s, f, -t) == -Combine(g, s, f, t)
  {
  }

  lemma DefectStep(n: nat, m: nat)
    requires n >= 2 && m >= 1
    ensures Defect(n, m) == Combine((n - 1) as real, Defect(n - 1, m), Factor(n), Defect(n - 2, m - 1))
  {
    hide Factor, Combine, Times;
    TimesStep(n, m, m + 1);
    var g, f, s, t := (n - 1) as real, Factor(n), Times(n - 1, m, m + 1), Times(n - 2, m - 1, m);
    Negate(g, s, f, t);
    Collect(g, Poly(true, n - 1, m), -s, f, Poly(true, n - 2, m - 1), -t);
  }

  lemma {:induction false} FirstDefects(m: nat, k: nat)
    requires k <= m + 1
    ensures Times(0, m, k) == 0.0
    ensures Times(1, m, k) == if k == 0 then 0.0 else LogTerm(m)
  {
    hide LogTerm;
    if k > 0 { FirstDefects(m, k - 1); }
  }

  lemma {:induction false} ConstantDefect(n: nat)
    requires n >= 1
    ensures Poly(true, n, 0) == 0.0 && Defect(n, 0) == 0.0
  {
    if n > 1 { ConstantDefect(n - 1); }
    assert Times(n, 0, 0) == 0.0 && LogTerm(0) == 0.0;
    hide Poly;
    assert Times(n, 0, 1) == Product(Poly(false, n, 0), LogTerm(0));
  }

  // ----- the defect in closed form

  /** x (x - 1) ... over `n` factors. */
  function Falling(x: int, n: nat): real {
    if n == 0 then 1.0 else Product(Falling(x, n - 1), (x - (n - 1)) as real)
  }

  lemma {:induction false} FallingFirst(x: int, n: nat)
    ensures Falling(x, n + 1) == Product(x as real, Falling(x - 1, n))
  {
    if n > 0 {
      FallingFirst(x, n - 1);
      hide Falling;
      Unfalls(x, n + 1);
      Unfalls(x - 1, n);
      Associate(x as real, Falling(x - 1, n - 1), (x - n) as real);
    }
  }

  lemma Unfalls(x: int, n: nat)
    requires n >= 1
    ensures Falling(x, n) == Product(Falling(x, n - 1), (x - (n - 1)) as real)
  {
  }

  lemma Associate(x: real, y: real, z: real)
    ensures Product(Product(x, y), z) == Product(x, Product(y, z))
  {
  }

  lemma {:induction false} FallingPositive(x: int, n: nat)
    requires x >= n
    ensures Falling(x, n) > 0.0
  {
    if n > 0 {
      FallingPositive(x, n - 1);
      Positive(Falling(x, n - 1), (x - (n - 1)) as real);
    }
  }

  function Scale(n: nat): real {
    if n <= 1 then 1.0 else Product((n / 2) as real, Scale(n - 1))
  }

  lemma {:induction false} ScalePositive(n: nat)
    ensures Scale(n) > 0.0
  {
    if n > 1 {
      ScalePositive(n - 1);
      Positive((n / 2) as real, Scale(n - 1));
    }
  }

  lemma Positive(a: real, b: real)
    requires a > 0.0 && b > 0.0
    ensures Product(a, b) > 0.0
  {
  }

  function Sign(m: nat): real { if m % 2 == 0 then 1.0 else -1.0 }

  /** The numbers one step multiplies by: the value before, the value before that, the scale and the
      product. */
  datatype Step = Step(own: real, factor: real, scale: real, last: real)

  predicate Ratio(d: real, a: real, s: real, c: real, p: real) { d * a == s * c * p }

  /** The defect is a quotient of falling products. */
  predicate Closed(n: nat, m: nat)
    requires n >= 1
  {
    var j := (n - 1) / 2;
    Ratio(Defect(n, m), Falling(m, j + 1), Sign(m), Scale(n), Falling(m - n + j, j))
  }

  lemma OddAlgebra(j: real, m: real, u: real, v: real, a: real, b: real, t: real, y: real, q: real)
    requires u * a == t * j && v * b == -t && a * (m - j) == m * b
    requires y == 2.0 * j * u + j * j * v && q == j * j * (m - 2.0 * j)
    ensures y * (m * b) == t * q
  {
    var d := m * b;
    assert u * d == (u * a) * (m - j) && v * d == (v * b) * m;
    assert y * d == 2.0 * j * (u * d) + j * j * (v * d);
    assert 2.0 * j * (t * j * (m - j)) + j * j * (-t * m) == t * q;
  }

  lemma OddStep(j: real, m: real, u: real, v: real, a: real, b: real, s: real, c: real, p: real, f: Step)
    requires Ratio(u, a, s, Product(j, c), p) && Ratio(v, b, -s, c, p) && Product(a, m - j) == Product(m, b)
    requires f == Step(2.0 * j, j * j, j, m - 2.0 * j)
    ensures Ratio(Combine(f.own, u, f.factor, v), Product(m, b), s, Product(f.scale, Product(j, c)), Product(p, f.last))
  {
    var t, y, q := s * c * p, Combine(f.own, u, f.factor, v), f.scale * j * f.last;
    assert s * (j * c) * p == t * j && -s * c * p == -t;
    OddAlgebra(j, m, u, v, a, b, t, y, q);
    Regrouped(y, Product(m, b), s, f.scale, j, c, p, f.last);
  }

  lemma Regrouped(y: real, d: real, s: real, h: real, j: real, c: real, p: real, l: real)
    requires y * d == s * c * p * (h * j * l)
    ensures Ratio(y, d, s, Product(h, Product(j, c)), Product(p, l))
  {
    assert s * (h * (j * c)) * (p * l) == s * c * p * (h * j * l);
  }

  lemma EvenAlgebra(j: real, m: real, u: real, v: real, a: real, b: real, t: real, y: real, q: real)
    requires u * a == t * (j * (m - j - 1.0)) && v * b == -t && a == m * b
    requires y == (2.0 * j + 1.0) * u + j * j * v && q == (j + 1.0) * j * (m - 2.0 * j - 1.0)
    ensures y * a == t * q
  {
    assert v * a == (v * b) * m;
    assert y * a == (2.0 * j + 1.0) * (u * a) + j * j * (v * a);
    assert (2.0 * j + 1.0) * (t * (j * (m - j - 1.0))) + j * j * (-t * m) == t * q;
  }

  lemma EvenStep(j: real, m: real, u: real, v: real, b: real, s: real, c: real, p: real, f: Step)
    requires Ratio(u, Product(m, b), s, Product(j, c), Product(m - j - 1.0, p)) && Ratio(v, b, -s, c, p)
    requires f == Step(2.0 * j + 1.0, j * j, j + 1.0, m - 2.0 * j - 1.0)
    ensures Ratio(Combine(f.own, u, f.factor, v), Product(m, b), s, Product(f.scale, Product(j, c)), Product(p, f.last))
  {
    var t, y, q := s * c * p, Combine(f.own, u, f.factor, v), f.scale * j * f.last;
    assert s * (j * c) * ((m - j - 1.0) * p) == t * (j * (m - j - 1.0)) && -s * c * p == -t;
    EvenAlgebra(j, m, u, v, m * b, b, t, y, q);
    Regrouped(y, Product(m, b), s, f.scale, j, c, p, f.last);
  }

  lemma ClosedStep(n: nat, m: nat)
    requires n >= 3 && m >= 1 && Closed(n - 1, m) && Closed(n - 2, m - 1)
    ensures Closed(n, m)
  {
    hide Defect, Falling, Sign, Ratio, Combine, Product, Factor;
    var j := (n - 1) / 2;
    var x, y, u, v := m as real, j as real, Defect(n - 1, m), Defect(n - 2, m - 1);
    var b, c, p := Falling(m - 1, j), Scale(n - 2), Falling(m - n + j, j - 1);
    var f := Step((n - 1) as real, Factor(n), (n / 2) as real, (m - n + 1) as real);
    DefectStep(n, m);
    FallingFirst(m, j);
    Unfalls(m - n + j, j);
    SignStep(m);
    FactorIs(n);
    if n % 2 == 1 {
      Unfalls(m, j + 1);
      assert (m - j) as real == x - y;
      OddStep(y, x, u, v, Falling(m, j), b, Sign(m), c, p, f);
    } else {
      FallingFirst(m - n + j + 1, j - 1);
      assert (m - n + j + 1) as real == x - y - 1.0;
      EvenStep(y, x, u, v, b, Sign(m), c, p, f);
    }
  }

  lemma SignStep(m: nat)
    requires m >= 1
    ensures Sign(m - 1) == -Sign(m)
  {
  }

  lemma FactorIs(n: nat)
    requires n >= 3
    ensures var j := ((n - 1) / 2) as real; Factor(n) == j * j
  {
  }

  /** The first two defects: those of ln(1 + z) alone and of z. */
  lemma ClosedFirst(n: nat, m: nat)
    requires 1 <= n <= 2 && m >= n
    ensures Closed(n, m)
  {
    FirstDefect(n, m);
    assert Falling(m, 0) == 1.0 && Falling(m, 1) == m as real;
    assert Falling(m - n, 0) == 1.0 && Scale(n) == 1.0;
    hide Defect, Falling, Scale, LogTerm;
    LogTermTimes(m);
  }

  lemma FirstDefect(n: nat, m: nat)
    requires 1 <= n <= 2 && m >= n
    ensures Defect(n, m) == -LogTerm(m)
  {
    hide LogTerm, Times;
    FirstDefects(m, m + 1);
    if n == 2 {
      FirstDefects(m - 1, m);
      DefectStep(2, m);
      assert Factor(2) == 1.0 && Defect(1, m) == -LogTerm(m) && Defect(0, m - 1) == 0.0;
    }
  }

  lemma LogTermTimes(m: nat)
    requires m >= 1
    ensures -LogTerm(m) * m as real == Sign(m)
  {
  }

  lemma {:induction false} DefectClosed(n: nat, m: nat)
    requires n >= 1 && (m >= n || (n >= 3 && m == n - 1))
    ensures Closed(n, m)
    decreases n
  {
    hide Closed;
    if n <= 2 {
      ClosedFirst(n, m);
    } else {
      DefectClosed(n - 1, m);
      DefectClosed(n - 2, m - 1);
      ClosedStep(n, m);
    }
  }

  lemma {:induction false} FallingVanishes(x: int, n: nat)
    requires 0 <= x < n
    ensures Falling(x, n) == 0.0
  {
    hide Product;
    if x < n - 1 { FallingVanishes(x, n - 1); }
    Nothing(if x < n - 1 then (x - (n - 1)) as real else Falling(x, n - 1));
  }

  lemma RatioZero(d: real, a: real, s: real, c: real, p: real)
    requires Ratio(d, a, s, c, p) && a > 0.0 && c > 0.0 && s != 0.0
    ensures d == 0.0 <==> p == 0.0
  {
    if p > 0.0 { Positive(c, p); } else if p < 0.0 { Positive(c, -p); }
    assert s * c * p == s * (c * p);
  }

  lemma DefectOfFirst()
    ensures Defect(2, 1) == 0.0
  {
    FirstDefect(1, 1);
    FirstDefects(0, 1);
    DefectStep(2, 1);
  }

  lemma LastDefectVanishes(n: nat)
    requires n >= 3
    ensures Defect(n, n - 1) == 0.0
  {
    hide Defect, Falling, Scale, Ratio;
    var j, m := (n - 1) / 2, n - 1;
    DefectClosed(n, m);
    FallingVanishes(j - 1, j);
    FallingPositive(m, j + 1);
    ScalePositive(n);
    RatioZero(Defect(n, m), Falling(m, j + 1), Sign(m), Scale(n), Falling(m - n + j, j));
  }

  lemma {:induction false} DefectVanishes(n: nat, m: nat)
    requires n >= 1 && m < n
    ensures Defect(n, m) == 0.0
    decreases n
  {
    hide Defect, Factor;
    if m == 0 {
      ConstantDefect(n);
    } else if n == 2 {
      DefectOfFirst();
    } else if m == n - 1 {
      LastDefectVanishes(n);
    } else {
      DefectStep(n, m);
      DefectVanishes(n - 1, m);
      DefectVanishes(n - 2, m - 1);
    }
  }

  /** The convergent at every depth agrees with ln(1 + z) in every power of z up to one past the
      depth, and in the next power it does not. */
  lemma AgreesWithLog(depth: nat, m: nat)
    requires m <= depth + 2
    ensures Poly(true, depth + 2, m) == Times(depth + 2, m, m + 1) <==> m <= depth + 1
  {
    var n := depth + 2;
    if m < n {
      DefectVanishes(n, m);
    } else {
      var j := (n - 1) / 2;
      DefectClosed(n, n);
      hide Poly, Times, Falling, Scale, Ratio;
      FallingPositive(n, j + 1);
      FallingPositive(j, j);
      ScalePositive(n);
      RatioZero(Defect(n, n), Falling(n, j + 1), Sign(n), Scale(n), Falling(n - n + j, j));
    }
  }

  // ----- the rounding

  function Power(z: real, m: nat): real {
    if m == 0 then 1.0 else Product(z, Power(z, m - 1))
  }

  /** The first `k` terms of the polynomial at z. */
  function Partial(top: bool, n: nat, z: real, k: nat): real {
    if k == 0 then 0.0 else Partial(top, n, z, k - 1) + Product(Poly(top, n, k - 1), Power(z, k - 1))
  }

  /** The value of the polynomial at z; it has no power beyond `n`. */
  function Exact(top: bool, n: nat, z: real): real {
    Partial(top, n, z, n + 1)
  }

  lemma {:induction false} Degree(top: bool, n: nat, m: nat)
    requires m > n
    ensures Poly(top, n, m) == 0.0
    decreases n
  {
    hide Factor;
    if n >= 2 {
      Degree(top, n - 1, m);
      Degree(top, n - 2, m - 1);
    }
  }

  lemma {:induction false} PartialStep(top: bool, n: nat, z: real, k: nat)
    requires n >= 2 && k >= 1
    ensures Partial(top, n, z, k) ==
            Combine((n - 1) as real, Partial(top, n - 1, z, k), Product(Factor(n), z), Partial(top, n - 2, z, k - 1))
  {
    hide Factor, Combine, Product;
    var g, f, w := (n - 1) as real, Factor(n), Power(z, k - 1);
    var x, y := Poly(top, n - 1, k - 1), if k == 1 then 0.0 else Poly(top, n - 2, k - 2);
    Distribute(g, x, f, y, w);
    if k == 1 {
      Nothing(w);
      Drop(g, Product(x, w), f, Product(f, z));
    } else {
      PartialStep(top, n, z, k - 1);
      var u := Power(z, k - 2);
      Shift(g, Product(x, w), f, y, z, u);
      Collect(g, Partial(top, n - 1, z, k - 1), Product(x, w),
              Product(f, z), Partial(top, n - 2, z, k - 2), Product(y, u));
    }
  }

  lemma Shift(g: real, x: real, f: real, y: real, z: real, u: real)
    ensures Combine(g, x, f, Product(y, Product(z, u))) == Combine(g, x, Product(f, z), Product(y, u))
  {
    assert f * (y * (z * u)) == (f * z) * (y * u);
  }

  lemma Drop(g: real, x: real, f: real, h: real)
    ensures Combine(g, x, f, 0.0) == Combine(g, x, h, 0.0)
  {
  }

  lemma ExactStep(top: bool, n: nat, z: real)
    requires n >= 2
    ensures Exact(top, n, z) ==
            Combine((n - 1) as real, Exact(top, n - 1, z), Product(Factor(n), z), Exact(top, n - 2, z))
  {
    hide Factor, Combine, Product, Poly;
    PartialStep(top, n, z, n + 1);
    Degree(top, n - 1, n);
    Degree(top, n - 2, n - 1);
    Nothing(Power(z, n));
    Nothing(Power(z, n - 1));
  }

  /** What rounding can have lost: one unit a step, carried along by the recurrence. */
  function Slack(n: nat, z: real): real {
    if n < 2 then 0.0 else Combine((n - 1) as real, Slack(n - 1, z), Product(Factor(n), z), Slack(n - 2, z)) + 1.0
  }

  /** The scaled polynomial value `x` lies at most `slack` above the integer `p`. */
  predicate Within(p: int, x: real, slack: real) {
    p as real <= S as real * x <= p as real + slack
  }

  lemma RoundStep(g: real, h: real, p: int, p': int, x: real, x': real, w: real, w': real, q: int, low: int)
    requires g >= 0.0 && h >= 0.0 && Within(p, x, w) && Within(p', x', w')
    requires q as real == g * p as real + low as real
    requires low as real <= h * p' as real <= low as real + 1.0
    ensures Within(q, Combine(g, x, h, x'), Combine(g, w, h, w') + 1.0)
  {
    var s, a, b := S as real, p as real, p' as real;
    Scaled(g, a, s * x, a + w);
    Scaled(h, b, s * x', b + w');
    assert s * (g * x + h * x') == g * (s * x) + h * (s * x');
    assert g * (a + w) == g * a + g * w && h * (b + w') == h * b + h * w';
  }

  lemma Scaled(g: real, a: real, b: real, c: real)
    requires g >= 0.0 && a <= b <= c
    ensures g * a <= g * b <= g * c
  {
  }

  function Unscaled(r: int): real { r as real / S as real }

  /** The loop's numerator and denominator are the polynomials at r / S, scaled and rounded down. */
  lemma {:induction false} RoundedPolynomial(top: bool, r: int, n: nat)
    requires r >= 0
    ensures Within(Pair(top, r, n), Exact(top, n, Unscaled(r)), Slack(n, Unscaled(r)))
  {
    hide Within, Exact, Factor, Combine, Product, Pair, Mul, Coefficient, Unscaled;
    var z := Unscaled(r);
    if n < 2 {
      FirstWithin(top, r, n, z);
    } else {
      RoundedPolynomial(top, r, n - 1);
      RoundedPolynomial(top, r, n - 2);
      ExactStep(top, n, z);
      PairStep(top, r, n);
      RoundStep((n - 1) as real, Product(Factor(n), z), Pair(top, r, n - 1), Pair(top, r, n - 2),
                Exact(top, n - 1, z), Exact(top, n - 2, z), Slack(n - 1, z), Slack(n - 2, z),
                Pair(top, r, n), Mul(Coefficient(r, n - 2), Pair(top, r, n - 2)));
    }
  }

  lemma FirstWithin(top: bool, r: int, n: nat, z: real)
    requires n < 2
    ensures Within(Pair(top, r, n), Exact(top, n, z), Slack(n, z))
  {
    FirstValues(top, n, z);
    hide Exact;
  }

  lemma FirstValues(top: bool, n: nat, z: real)
    requires n < 2
    ensures Exact(top, n, z) == if top == (n == 0) then 1.0 else 0.0
  {
    assert Partial(top, n, z, 0) == 0.0 && Power(z, 0) == 1.0;
    assert Partial(top, n, z, 1) == Poly(top, n, 0);
  }

  lemma PairStep(top: bool, r: int, n: nat)
    requires r >= 0 && n >= 2
    ensures var (h, low, p) := (Product(Factor(n), Unscaled(r)),
                                Mul(Coefficient(r, n - 2), Pair(top, r, n - 2)), Pair(top, r, n - 2) as real);
            && h >= 0.0 && low as real <= h * p <= low as real + 1.0
            && Pair(top, r, n) as real == (n - 1) as real * Pair(top, r, n - 1) as real + low as real
  {
    hide Pair, Mul, Coefficient;
    var k, q, p := Coefficient(1, n - 2), Pair(top, r, n - 1), Pair(top, r, n - 2);
    PairUnfolds(top, r, n);
    CoefficientScales(r, n - 2);
    ExactProduct(n - 1, q);
    RealProduct(n - 1, q);
    MulBounds(r * k, p);
    FloorInReals(Mul(r * k, p), r, k, p);
  }

  lemma PairUnfolds(top: bool, r: int, n: nat)
    requires n >= 2
    ensures Pair(top, r, n) == Mul((n - 1) * S, Pair(top, r, n - 1)) + Mul(Coefficient(r, n - 2), Pair(top, r, n - 2))
  {
    hide Mul, Coefficient;
  }

  lemma RealProduct(a: int, b: int)
    ensures (a * b) as real == a as real * b as real
  {
  }

  lemma FloorInReals(low: int, r: int, k: int, p: int)
    requires low * S <= r * k * p < (low + 1) * S && r >= 0 && k >= 0
    ensures var h := k as real * (r as real / S as real); h >= 0.0 && low as real <= h * p as real <= low as real + 1.0
  {
    var s, z := S as real, r as real / S as real;
    var h, x := k as real * z, p as real;
    assert z >= 0.0 && z * s == r as real;
    assert h >= 0.0;
    var c := r * k;
    assert h * s == c as real by { assert c as real == r as real * k as real; }
    assert (h * x) * s == (c * p) as real by {
      assert (c * p) as real == c as real * x;
      assert (h * x) * s == (h * s) * x;
    }
    CancelReal(low as real, h * x, s);
  }

  lemma CancelReal(low: real, y: real, s: real)
    requires s > 0.0 && low * s <= y * s < (low + 1.0) * s
    ensures low <= y <= low + 1.0
  {
    if y < low { Positive(low - y, s); } else if y > low + 1.0 { Positive(y - low - 1.0, s); }
  }
}
