/** What the exponential and the comparator compute: both use one series, whose terms are the
    powers of x over the factorials, each rounded down by less than one unit a step. */
module E34ExpSeries {
  import opened E34
  import opened E34Compare
  import opened E34Exp
  import opened Numbers

  function Factorial(i: nat): int { if i == 0 then 1 else i * Factorial(i - 1) }

  /** The scale of term `i`: i! times S^(i-1). */
  function Scale(i: nat): int
    requires i >= 1
  {
    Factorial(i) * Pow(S, i - 1)
  }

  /** What rounding can have lost of x^i by term `i`: one unit a step. */
  function Loss(x: int, i: nat): int
    requires i >= 1
  {
    if i == 1 then 0 else x * Loss(x, i - 1) + Scale(i)
  }

  lemma ScaleStep(i: nat)
    requires i >= 2
    ensures Scale(i) == Scale(i - 1) * (i * S)
  {
    var f, p := Factorial(i - 1), Pow(S, i - 2);
    assert Factorial(i) == i * f && Pow(S, i - 1) == S * p;
    assert (i * f) * (S * p) == (f * p) * (i * S);
  }

  lemma {:induction false} ScalePositive(i: nat)
    requires i >= 1
    ensures Scale(i) >= 1
  {
    if i > 1 {
      ScalePositive(i - 1);
      ScaleStep(i);
      MulLe(i * S, 1, Scale(i - 1));
    } else {
      assert Factorial(0) == 1 && Pow(S, 0) == 1;
    }
  }

  lemma Sandwiched(u: int, m: int, w: int, i: int)
    requires m * S <= w < m * S + S && u <= m < u + i
    ensures u * S <= w <= u * S + i * S
  {
  }

  lemma Reordered(t: int, f: int, i: int)
    ensures t * (f * (i * S)) == f * (t * i * S)
  {
  }

  lemma Bracketed(f: int, u: int, w: int, i: int)
    requires 0 < f && u * S <= w <= u * S + i * S
    ensures f * (u * S) <= f * w <= f * (u * S) + f * (i * S)
  {
    MulLe(f, u * S, w);
    MulLe(f, w, u * S + i * S);
  }

  lemma Regrouped(x: int, p: int, t: int, f: int)
    ensures x * (p - t * f) == x * p - f * (t * x)
  {
  }

  /** Every term of the series is x^i / i!, scaled and rounded down. */
  lemma {:induction false} TermRounded(x: int, i: nat)
    requires 0 <= x && i >= 1
    ensures 0 <= Pow(x, i) - Term(x, i) * (Factorial(i) * Pow(S, i - 1)) <= Loss(x, i)
  {
    if i == 1 {
      assert Pow(x, 0) == 1 && Pow(S, 0) == 1 && Factorial(0) == 1;
    } else {
      TermRounded(x, i - 1);
      TermsNonNegative(x, i - 1);
      var t := Term(x, i - 1);
      StepNonNegative(t, x, i);
      ScalePositive(i - 1);
      ScaleStep(i);
      hide Factorial, Mul, NextTerm;
      var f, u, d := Scale(i - 1), Term(x, i) * i, Pow(x, i - 1) - t * Scale(i - 1);
      Sandwiched(u, Mul(t, x), t * x, i);
      Bracketed(f, u, t * x, i);
      Reordered(Term(x, i), f, i);
      Regrouped(x, Pow(x, i - 1), t, f);
      MulLe(x, 0, d);
      MulLe(x, d, Loss(x, i - 1));
    }
  }

  // ----- the exponential is a power of a partial sum

  /** The term before index `i`. */
  function Before(x: int, i: nat): int { if i == 0 then S else Term(x, i) }

  lemma NextOf(x: int, i: nat)
    requires 0 <= x && i >= 1
    ensures Div(Mul(Before(x, i - 1), x), i * S) == Term(x, i)
  {
    if i == 1 {
      assert Mul(S, x) == x by { FloorUnique(x, S * x, S); }
      assert Div(x, 1 * S) == x by { FloorUnique(x, x * S, S); }
    }
  }

  lemma {:induction false} SeriesIsSum(x: int, i: nat, budget: nat) returns (k: nat)
    requires 0 <= x && i >= 1
    ensures Series(x, Before(x, i - 1), Sum(x, i - 1), i, budget) == Sum(x, k) && k >= i - 1
    ensures k + 1 >= budget || Term(x, k + 1) < EPSILON
    ensures forall j :: i <= j <= k ==> Term(x, j) >= EPSILON && j < budget
    decreases budget - i
  {
    hide Div, Mul, NextTerm;
    NextOf(x, i);
    TermsNonNegative(x, i);
    if i >= budget || Term(x, i) < EPSILON {
      k := i - 1;
    } else {
      k := SeriesIsSum(x, i + 1, budget);
    }
  }

  lemma UnitsAre(v: int)
    requires v > 0
    ensures Units(v) >= 1 && (Units(v) - 1) * S < v <= Units(v) * S
  {
  }

  /** The exponential of a positive value of at most n units is the nth power of a partial sum of the
      comparator's own series at an nth of the value; the sum ends before the first term below the
      tolerance. */
  lemma ExpIsPowerOfSum(v: int, budget: nat) returns (n: nat, x: int, k: nat)
    requires v > 0
    ensures (n - 1) * S < v <= n * S && IsFloor(x, v, n)
    ensures Exp(v, budget) == PowNat(Sum(x, k), n)
    ensures k + 1 >= budget || Term(x, k + 1) < EPSILON
    ensures forall j :: 1 <= j <= k ==> Term(x, j) >= EPSILON && j < budget
  {
    n := ShareOf(v);
    x := Div(v, n * S);
    assert Sum(x, 0) == S && Before(x, 0) == S;
    hide PowNat, Series, Div, IsFloor, Term, Sum, Units;
    k := SeriesIsSum(x, 1, budget);
  }

  lemma ShareOf(v: int) returns (n: nat)
    requires v > 0
    ensures n == Units(v) && n >= 1 && (n - 1) * S < v <= n * S
    ensures var x := Div(v, n * S); 0 <= x && IsFloor(x, v, n)
  {
    UnitsAre(v);
    n := Units(v);
    hide Units;
    ScaledQuotient(v, n);
  }

  /** The exponential of a negative value is the inverse of that of its opposite. */
  lemma ExpOfNegative(v: int, budget: nat)
    requires v < 0
    ensures Exp(-v, budget) >= S && IsFloor(Exp(v, budget), S * S, Exp(-v, budget))
  {
    hide ExpPositive;
    ExpAtLeastOne(-v, budget);
    QuotientIsFloor(S * S, Exp(-v, budget));
  }
}
