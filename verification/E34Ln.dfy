/** The finite logarithm: bracketing by repeated squaring, bisection over integer powers of e,
    and a continued fraction. It always terminates without dividing by zero, and it succeeds
    on exactly the positive values other than two. */
module E34Ln {
  import opened E34
  import opened E34Exp
  import opened Numbers

  // ----- continued fraction

  datatype Frame = Frame(aOlder: int, bOlder: int, aPrev: int, bPrev: int, previous: int)
  {
    predicate Valid() { bPrev >= S && bOlder >= 0 }
  }

  function Coefficient(r: int, depth: nat): int {
    if depth == 0 then r else r * ((depth + 1) / 2 * ((depth + 1) / 2))
  }

  /** The convergents from `depth` on. The denominators stay at least one, so every quotient exists. */
  function Convergents(r: int, f: Frame, depth: nat, budget: nat): int
    requires r >= 0 && f.Valid() && depth <= budget
    decreases budget - depth
  {
    var a := Mul((depth + 1) * S, f.aPrev) + Mul(Coefficient(r, depth), f.aOlder);
    var b := Mul((depth + 1) * S, f.bPrev) + Mul(Coefficient(r, depth), f.bOlder);
    DenominatorAtLeastOne(r, f, depth);
    var convergent := Div(a, b);
    if depth == budget || (depth > 0 && Abs(f.previous - convergent) < EPSILON) then convergent
    else Convergents(r, Frame(f.aPrev, f.bPrev, a, b, convergent), depth + 1, budget)
  }

  lemma DenominatorAtLeastOne(r: int, f: Frame, depth: nat)
    requires r >= 0 && f.Valid()
    ensures Mul((depth + 1) * S, f.bPrev) + Mul(Coefficient(r, depth), f.bOlder) >= S
  {
    MulMonotone(S, (depth + 1) * S, S, f.bPrev);
    var k := (depth + 1) / 2;
    assert Coefficient(r, depth) >= 0 by { assert k * k >= 0; MulLe(r, 0, k * k); }
    MulMonotone(0, Coefficient(r, depth), 0, f.bOlder);
  }

  const FIRST_FRAME := Frame(S, 0, 0, S, 0)

  function Fraction(r: int, budget: nat): int
    requires r >= 0
  {
    Convergents(r, FIRST_FRAME, 0, budget)
  }

  method LnCF(r: int, budget: nat) returns (y: Result)
    ensures y == if r < 0 then Domain else Ok(Fraction(r, budget))
  {
    if r < 0 { return Domain; }
    var f, depth := FIRST_FRAME, 0;
    while true
      invariant f.Valid() && depth <= budget
      invariant Convergents(r, FIRST_FRAME, 0, budget) == Convergents(r, f, depth, budget)
      decreases budget - depth
    {
      var coefficient := r;
      if depth > 0 { coefficient := r * ((depth + 1) / 2 * ((depth + 1) / 2)); }
      var denominator := (depth + 1) * S;
      var a := Mul(denominator, f.aPrev) + Mul(coefficient, f.aOlder);
      var b := Mul(denominator, f.bPrev) + Mul(coefficient, f.bOlder);
      DenominatorAtLeastOne(r, f, depth);
      var convergent := FloorQuotient(a * S, b);
      if depth == budget || (depth > 0 && Abs(f.previous - convergent.value) < EPSILON) { return convergent; }
      f, depth := Frame(f.aPrev, f.bPrev, a, b, convergent.value), depth + 1;
    }
  }

  // ----- the first convergents

  /** The recurrence with the rounding written out: integral factors multiply exactly. */
  lemma NextPair(r: int, depth: nat, f: Frame, k: int)
    requires k == if depth == 0 then 1 else (depth + 1) / 2 * ((depth + 1) / 2)
    ensures Mul((depth + 1) * S, f.aPrev) + Mul(Coefficient(r, depth), f.aOlder) ==
            (depth + 1) * f.aPrev + r * k * f.aOlder / S
    ensures Mul((depth + 1) * S, f.bPrev) + Mul(Coefficient(r, depth), f.bOlder) ==
            (depth + 1) * f.bPrev + r * k * f.bOlder / S
  {
    ExactProduct(depth + 1, f.aPrev);
    ExactProduct(depth + 1, f.bPrev);
  }

  lemma ExactProduct(n: int, a: int)
    ensures Mul(n * S, a) == n * a
  {
    var m := n * a;
    assert n * S * a == m * S;
    FloorUnique(m, m * S, S);
  }

  /** One step of the convergents from the pair it computes. */
  lemma ConvergentsStep(r: int, f: Frame, depth: nat, budget: nat, k: int, a: int, b: int, c: int)
    requires r >= 0 && f.Valid() && depth <= budget
    requires k == if depth == 0 then 1 else (depth + 1) / 2 * ((depth + 1) / 2)
    requires a == (depth + 1) * f.aPrev + r * k * f.aOlder / S
    requires b == (depth + 1) * f.bPrev + r * k * f.bOlder / S
    requires b > 0 && c == a * S / b
    ensures b >= S
    ensures Convergents(r, f, depth, budget) ==
            if depth == budget || (depth > 0 && Abs(f.previous - c) < EPSILON) then c
            else Convergents(r, Frame(f.aPrev, f.bPrev, a, b, c), depth + 1, budget)
  {
    NextPair(r, depth, f, k);
    DenominatorAtLeastOne(r, f, depth);
    hide Mul, Coefficient;
  }

  /** The convergents 2r / (2 + r), (6r + r^2) / (6 + 4r) and (6r + 3r^2) / (6 + 6r + r^2), floored. */
  function Second(r: int): int
    requires r >= 0
  {
    2 * r * S / (2 * S + r)
  }

  function Third(r: int): int
    requires r >= 0
  {
    (6 * r + r * r / S) * S / (6 * S + 4 * r)
  }

  function Fourth(r: int): int
    requires r >= 0
  {
    assert 4 * r * r / S >= 0;
    (24 * r + 4 * (r * r / S) + 8 * r * r / S) * S / (24 * S + 24 * r + 4 * r * r / S)
  }

  /** What the fraction is for the first four budgets: r, 2r / (2 + r), (6r + r^2) / (6 + 4r) and
      (6r + 3r^2) / (6 + 6r + r^2), with the floors of the code, unless two neighbours are already
      closer than the tolerance. */
  lemma FirstFractions(r: int)
    requires r >= 0
    ensures Fraction(r, 0) == r
    ensures Fraction(r, 1) == Second(r)
    ensures Fraction(r, 2) == if Abs(r - Second(r)) < EPSILON then Second(r) else Third(r)
    ensures Fraction(r, 3) == if Abs(r - Second(r)) < EPSILON then Second(r)
                              else if Abs(Second(r) - Third(r)) < EPSILON then Third(r) else Fourth(r)
  {
    hide Convergents, Second, Third, Fourth;
    forall budget: nat | budget <= 3
      ensures budget == 0 ==> Fraction(r, budget) == r
      ensures budget > 0 ==> Fraction(r, budget) == Convergents(r, Frame(0, S, r, S, r), 1, budget)
    {
      ZerothPair(r);
      ConvergentsStep(r, FIRST_FRAME, 0, budget, 1, r, S, r);
    }
    SecondPair(r, 1);
    SecondPair(r, 2);
    SecondPair(r, 3);
    ThirdPair(r, 2);
    ThirdPair(r, 3);
    FourthPair(r);
  }

  lemma ZerothPair(r: int)
    ensures r * 1 * S / S == r && r * 1 * 0 / S == 0 && r * S / S == r
  {
    FloorUnique(r, r * S, S);
  }

  lemma SecondPair(r: int, budget: nat)
    requires r >= 0 && budget >= 1
    ensures Convergents(r, Frame(0, S, r, S, r), 1, budget) ==
            if budget == 1 || Abs(r - Second(r)) < EPSILON then Second(r)
            else Convergents(r, Frame(r, S, 2 * r, 2 * S + r, Second(r)), 2, budget)
  {
    hide Convergents;
    ZerothPair(r);
    ConvergentsStep(r, Frame(0, S, r, S, r), 1, budget, 1, 2 * r, 2 * S + r, Second(r));
  }

  lemma ThirdPair(r: int, budget: nat)
    requires r >= 0 && budget >= 2
    ensures Convergents(r, Frame(r, S, 2 * r, 2 * S + r, Second(r)), 2, budget) ==
            if budget == 2 || Abs(Second(r) - Third(r)) < EPSILON then Third(r)
            else Convergents(r, Frame(2 * r, 2 * S + r, 6 * r + r * r / S, 6 * S + 4 * r, Third(r)), 3, budget)
  {
    hide Convergents;
    ZerothPair(r);
    assert r * 1 * r == r * r;
    ConvergentsStep(r, Frame(r, S, 2 * r, 2 * S + r, Second(r)), 2, budget, 1,
                    6 * r + r * r / S, 6 * S + 4 * r, Third(r));
  }

  lemma FourthPair(r: int)
    requires r >= 0
    ensures Convergents(r, Frame(2 * r, 2 * S + r, 6 * r + r * r / S, 6 * S + 4 * r, Third(r)), 3, 3) == Fourth(r)
  {
    hide Convergents;
    var q, m := r * r, 4 * r * r;
    assert r * 4 * (2 * r) == 8 * r * r;
    assert r * 4 * (2 * S + r) == 8 * r * S + m;
    WholePart(8 * r, m);
    assert m / S >= 0 by { MulLe(r, 0, r); }
    ConvergentsStep(r, Frame(2 * r, 2 * S + r, 6 * r + q / S, 6 * S + 4 * r, Third(r)), 3, 3, 4,
                    24 * r + 4 * (q / S) + 8 * r * r / S, 24 * S + 24 * r + m / S, Fourth(r));
  }

  lemma WholePart(n: int, m: int)
    ensures (n * S + m) / S == n + m / S
  {
    QuotientIsFloor(m, S);
    FloorUnique(n + m / S, n * S + m, S);
  }

  // ----- the bracket

  /** The lower bracket after `k` squarings: it stands for e^(-2^k). */
  function LowValue(k: nat): int {
    if k == 0 then S * S / E else Mul(LowValue(k - 1), LowValue(k - 1))
  }

  lemma {:induction false} LowValueRange(k: nat)
    ensures 0 <= LowValue(k) <= S / 2
  {
    if k > 0 {
      LowValueRange(k - 1);
      MulMonotone(0, LowValue(k - 1), 0, LowValue(k - 1));
      SquareShrinks(LowValue(k - 1));
    }
  }

  lemma SquareShrinks(l: int)
    requires 0 <= l <= S / 2
    ensures 0 <= Mul(l, l) <= l / 2
  {
    MulLe(l, 2 * l, S);
    assert 2 * (l * l) <= l * S;
    assert 2 * Mul(l, l) <= l by { MulBounds(l, l); }
  }

  lemma SquareGrows(u: int)
    requires u >= 2 * S
    ensures Mul(u, u) >= 2 * u
  {
    MulLe(u, 2 * S, u);
  }

  /** The two positive values on which the algorithm fails: the brackets for e^-2 and e^-4 are
      one unit below the powers they stand for. */
  const MISSED_A: int := 1353352832366126918939995016483660
  const MISSED_B: int := 183156388887341802937180230802058

  lemma BracketValues()
    ensures LowValue(0) == 3678794411714423215955237792349248
    ensures LowValue(1) == 1353352832366126918939995016483660
    ensures LowValue(2) == 183156388887341802937180230802058
    ensures LowValue(3) == 3354626279025118388213891919722
    ensures LowValue(4) == 1125351747192591145137752234
    ensures LowValue(5) == 126641655490941757231
    ensures LowValue(6) == 1603810
  {
    assert LowValue(0) == 3678794411714423215955237792349248;
    assert LowValue(1) == 1353352832366126918939995016483660;
    assert LowValue(2) == 183156388887341802937180230802058;
    assert LowValue(3) == 3354626279025118388213891919722;
    assert LowValue(4) == 1125351747192591145137752234;
    assert LowValue(5) == 126641655490941757231;
    assert LowValue(6) == 1603810;
  }

  lemma PowersByDoubling()
    ensures PowNat(E, 1) == 27182818284590452353602874043083282
    ensures PowNat(E, 2) == 73890560989306502272304270960842165
    ensures PowNat(E, 4) == 545981500331442390781102558163750692
    ensures PowNat(E, 8) == 29809579870417282747435915112685679492
    ensures PowNat(E, 16) == 88861105205078726367630202340759529176454
    ensures PowNat(E, 32) == 789629601826806951609779603131629980928121474818
    ensures PowNat(E, 64) == 62351490808116168829092288666779109490615757645824247278360914
    ensures PowNat(E, 3) == 200855369231876677409285281683986759
  {
    assert PowNat(E, 0) == S;
    assert PowNat(E, 1) == 27182818284590452353602874043083282;
    assert PowNat(E, 2) == 73890560989306502272304270960842165;
    assert PowNat(E, 4) == 545981500331442390781102558163750692;
    assert PowNat(E, 8) == 29809579870417282747435915112685679492;
    assert PowNat(E, 16) == 88861105205078726367630202340759529176454;
    assert PowNat(E, 32) == 789629601826806951609779603131629980928121474818;
    assert PowNat(E, 64) == 62351490808116168829092288666779109490615757645824247278360914;
  }

  lemma InversePowers()
    ensures PowE(-1) == 3678794411714423215955237792349248
    ensures PowE(-2) == 1353352832366126918939995016483661
    ensures PowE(-4) == 183156388887341802937180230802059
    ensures PowE(-8) == 3354626279025118388213891919722
    ensures PowE(-16) == 1125351747192591145137752234
    ensures PowE(-32) == 126641655490941757231
    ensures PowE(-64) == 1603810
    ensures PowE(-3) == 497870683678639429793424193339412
  {
    PowersByDoubling();
  }

  // ----- the result

  /** `y` is a logarithm of `v` as the algorithm defines it: the exponent of the power of e at or
      below `v` whose successor is not below it, plus the fraction of the quotient. */
  ghost predicate LnValue(v: int, y: int) {
    exists n ::
      && PowE(n) > 0 && PowE(n) <= v <= PowE(n + 1)
      && Remainder(v, n) >= 0 && y == n * S + Fraction(Remainder(v, n), BUDGET)
  }

  function Remainder(v: int, n: int): int
    requires PowE(n) > 0
  {
    Div(v, PowE(n)) - S
  }

  lemma RemainderSign(v: int, n: int)
    requires v > 0 && PowE(n) > 0
    ensures Remainder(v, n) >= 0 <==> PowE(n) <= v
  {
    var p := PowE(n);
    var q := v * S / p;
    assert q * p <= v * S < (q + 1) * p;
    if p <= v {
      MulLe(S, p, v);
      if q < S { MulLe(p, q + 1, S); }
    } else {
      MulLe(S, v + 1, p);
      if q >= S { MulLe(p, S, q); }
    }
  }

  /** The state bisection leaves, given how the bracket was found. */
  ghost predicate Bisected(v: int, k: nat, lower: int) {
    && v > 0 && -Pow2(k) <= lower < Pow2(k)
    && (lower == -Pow2(k) || PowE(lower) <= v)
    && (lower + 1 == Pow2(k) || v < PowE(lower + 1))
    && (if v >= S then lower >= 0 else lower < 0)
    && Bracketed(v, k)
  }

  /** The bracket of exponents -2^k and 2^k was the first one around `v`. */
  ghost predicate Bracketed(v: int, k: nat) {
    && LowValue(k) <= v <= PowNat(E, Pow2(k))
    && (k > 0 ==> LowValue(k - 1) > v || PowNat(E, Pow2(k - 1)) < v)
  }

  lemma LowerPowerPositive(v: int, lower: int)
    requires v > 0 && (lower < -78 ==> v < PowE(lower + 1))
    ensures lower >= -78 && PowE(lower) > 0
  {
    if lower < 0 {
      if lower < -78 {
        LargePowers(-(lower + 1));
        InverseAtMostOne(PowNat(E, -(lower + 1)));
      } else {
        SmallPowers(-lower);
        PowerAtLeastOne(E, -lower);
        InverseAtLeastOne(PowNat(E, -lower));
      }
    }
  }

  lemma InverseAtMostOne(p: int)
    requires 2 * p > S * S
    ensures p > 0 && S * S / p <= 1
  {
    var q := S * S / p;
    assert q * p <= S * S;
    if q >= 2 { MulLe(p, 2, q); }
  }

  lemma InverseAtLeastOne(p: int)
    requires 0 < p <= S * S
    ensures S * S / p >= 1
  {
    var q := S * S / p;
    assert S * S < (q + 1) * p;
    if q < 1 { MulLe(p, q + 1, 1); }
  }

  /** The exponent found is that of a power at or below `v`, except on the two missed values. */
  lemma BisectionResult(v: int)
    requires v > 0
    ensures PowE(LowerExponent(v)) > 0
    ensures PowE(LowerExponent(v)) <= v <==> v != MISSED_A && v != MISSED_B
  {
    hide LowerExponent;
    var lower := LowerExponent(v);
    var k := ExponentFound(v);
    LowerPowerPositive(v, lower);
    if v < S {
      if k > 0 { PowerAtLeastOne(E, Pow2(k - 1)); }
      if v == MISSED_A || v == MISSED_B {
        MissedResult(v, k, lower);
      } else if lower == -Pow2(k) {
        SmallBracket(k);
        BracketGap(k);
        BracketValues();
      }
    }
  }

  /** The lower bracket stands for the power exactly, except at e^-2 and e^-4. */
  lemma BracketGap(k: nat)
    requires k <= 6
    ensures PowE(-Pow2(k)) == LowValue(k) + if k == 1 || k == 2 then 1 else 0
  {
    BracketValues();
    InversePowers();
    assert Pow2(0) == 1;
    assert Pow2(3) == 8;
    assert Pow2(6) == 64;
    if k == 0 {} else if k == 1 {} else if k == 2 {} else if k == 3 {} else if k == 4 {} else if k == 5 {} else {}
  }

  lemma MissedResult(v: int, k: nat, lower: int)
    requires v == MISSED_A || v == MISSED_B
    requires LowValue(k) <= v && (k > 0 ==> LowValue(k - 1) > v)
    requires -Pow2(k) <= lower < 0 && (lower == -Pow2(k) || PowE(lower) <= v)
    ensures PowE(lower) > v
  {
    MissedBracket(v, k);
    InversePowers();
    assert Pow2(1) == 2 && Pow2(2) == 4;
    assert lower == -4 || lower == -3 || lower == -2 || lower == -1;
  }

  lemma SmallBracket(k: nat)
    requires Pow2(k) <= 78
    ensures k <= 6
  {
    if k > 6 { AtLeast128(k); }
  }

  lemma {:induction false} AtLeast128(k: nat)
    requires k >= 7
    ensures Pow2(k) >= 128
  {
    if k > 7 { AtLeast128(k - 1); } else { assert Pow2(3) == 8; }
  }

  lemma MissedBracket(v: int, k: nat)
    requires v == MISSED_A || v == MISSED_B
    requires LowValue(k) <= v && (k > 0 ==> LowValue(k - 1) > v)
    ensures k == if v == MISSED_A then 1 else 2
  {
    BracketValues();
    if k > 2 { LowValuesFall(2, k - 1); }
  }

  lemma {:induction false} LowValuesFall(i: nat, j: nat)
    requires i <= j
    ensures LowValue(j) <= LowValue(i)
    decreases j
  {
    if i < j {
      LowValuesFall(i, j - 1);
      LowValueRange(j - 1);
      SquareShrinks(LowValue(j - 1));
    }
  }

  /** The bracket after `k` squarings surrounds `v`. */
  predicate Surrounds(v: int, k: nat) {
    LowValue(k) <= v <= PowNat(E, Pow2(k))
  }

  /** How far the bracket still is from `v`. */
  function Distance(v: int, k: nat): nat {
    LowValueRange(k);
    var low, high := LowValue(k), PowNat(E, Pow2(k));
    (if low > v then low else 0) + (if high < v then v - high else 0)
  }

  lemma NextBracket(k: nat)
    ensures 0 <= LowValue(k + 1) <= LowValue(k) / 2
    ensures PowNat(E, Pow2(k + 1)) >= 2 * PowNat(E, Pow2(k)) >= 4 * S
  {
    LowValueRange(k);
    SquareShrinks(LowValue(k));
    Pow2Monotone(0, k);
    PowAtLeastE(Pow2(k));
    SquareGrows(PowNat(E, Pow2(k)));
    assert Pow2(k + 1) / 2 == Pow2(k) && Pow2(k + 1) % 2 == 0;
  }

  lemma DistanceFalls(v: int, k: nat)
    requires v > 0 && !Surrounds(v, k)
    ensures Distance(v, k + 1) < Distance(v, k)
  {
    NextBracket(k);
  }

  /** The first surrounding bracket from `k` on. */
  function FirstBracket(v: int, k: nat): nat
    requires v > 0
    decreases Distance(v, k)
  {
    if Surrounds(v, k) then k
    else
      DistanceFalls(v, k);
      FirstBracket(v, k + 1)
  }

  function Bisection(v: int, lower: int, upper: int): int
    requires lower < upper
    decreases upper - lower
  {
    if upper - lower == 1 then lower
    else
      var mid := lower + (upper - lower) / 2;
      if v < PowE(mid) then Bisection(v, lower, mid) else Bisection(v, mid, upper)
  }

  function LowerExponent(v: int): int
    requires v > 0
  {
    var k := FirstBracket(v, 0);
    Pow2Monotone(0, k);
    Bisection(v, -Pow2(k), Pow2(k))
  }

  /** The whole algorithm as a function. */
  function LnOf(v: int): Result {
    if v <= 0 then Domain
    else
      var n := LowerExponent(v);
      if PowE(n) == 0 then DivisionByZero
      else if Remainder(v, n) < 0 then Domain
      else Ok(n * S + Fraction(Remainder(v, n), BUDGET))
  }

  /** Squares both bracket values, doubling their exponents, until `v` lies between them. */
  method Bracket(v: int, e: int) returns (lower: int, upper: int, ghost k: nat)
    requires v > 0 && e == E
    ensures lower == -Pow2(k) && upper == Pow2(k) && Bracketed(v, k) && k == FirstBracket(v, 0)
  {
    var inverse := FloorQuotient(S * S, e);
    var lowerValue, upperValue := inverse.value, e;
    lower, upper, k := -1, 1, 0;
    assert PowNat(E, 1) == E by { assert PowNat(E, 0) == S; }
    while lowerValue > v || upperValue < v
      invariant lower == -Pow2(k) && upper == Pow2(k)
      invariant lowerValue == LowValue(k) && upperValue == PowNat(E, Pow2(k)) && upperValue >= 2 * S
      invariant k > 0 ==> LowValue(k - 1) > v || PowNat(E, Pow2(k - 1)) < v
      invariant FirstBracket(v, 0) == FirstBracket(v, k)
      decreases Distance(v, k)
    {
      DistanceFalls(v, k);
      NextBracket(k);
      lowerValue, upperValue := Mul(lowerValue, lowerValue), Mul(upperValue, upperValue);
      lower, upper := 2 * lower, 2 * upper;
      k := k + 1;
      assert Pow2(k) / 2 == Pow2(k - 1) && Pow2(k) % 2 == 0;
    }
  }

  /** Bisection over exponents: it ends with adjacent ones. */
  method Bisect(v: int, e: int, low: int, high: int) returns (lower: int)
    requires e == E && low < high
    ensures low <= lower < high && lower == Bisection(v, low, high)
    ensures (lower == low || PowE(lower) <= v) && (lower + 1 == high || v < PowE(lower + 1))
  {
    lower := low;
    var upper := high;
    while upper - lower != 1
      invariant low <= lower < upper <= high
      invariant Bisection(v, low, high) == Bisection(v, lower, upper)
      invariant (lower == low || PowE(lower) <= v) && (upper == high || v < PowE(upper))
      decreases upper - lower
    {
      var mid := lower + (upper - lower) / 2;
      var power := Power(e, mid);
      assert power == Ok(PowE(mid));
      if v < power.value { upper := mid; } else { lower := mid; }
    }
  }

  /** Succeeds exactly on the positive values other than the two missed ones; every quotient on
      the way has a nonzero divisor and both loops end. */
  method Ln(v: int) returns (r: Result)
    ensures r == LnOf(v) && r != DivisionByZero
    ensures r.Ok? <==> v > 0 && v != MISSED_A && v != MISSED_B
    ensures r.Ok? ==> LnValue(v, r.value)
  {
    if v <= 0 { return Domain; }
    var e := ExpWithBudget(S, BUDGET);
    ExpOfOne();
    var lower := Exponent(v, e.value);
    r := Assemble(v, e.value, lower);
    assert r == LnOf(v);
  }

  method Exponent(v: int, e: int) returns (lower: int)
    requires v > 0 && e == E
    ensures lower == LowerExponent(v) && PowE(lower) > 0
    ensures LnOf(v).Ok? <==> v != MISSED_A && v != MISSED_B
    ensures LnOf(v).Ok? ==> LnValue(v, LnOf(v).value)
  {
    hide PowE, PowNat, LowValue, Bracketed, Bisection, FirstBracket, LnOf, LnValue;
    var low, high, k := Bracket(v, e);
    lower := Bisect(v, e, low, high);
    LnConclusion(v);
  }

  lemma UpperPower(v: int)
    requires v > 0
    ensures v <= PowE(LowerExponent(v) + 1)
  {
    hide LowValue, PowNat, LowerExponent;
    var k := ExponentFound(v);
  }

  lemma LnConclusion(v: int)
    requires v > 0
    ensures PowE(LowerExponent(v)) > 0
    ensures LnOf(v).Ok? <==> v != MISSED_A && v != MISSED_B
    ensures LnOf(v).Ok? ==> LnValue(v, LnOf(v).value)
  {
    hide LowValue, FirstBracket, Bisection, LowerExponent, Fraction, PowE, Remainder;
    var lower := LowerExponent(v);
    BisectionResult(v);
    RemainderSign(v, lower);
    UpperPower(v);
    if LnOf(v).Ok? { assert PowE(lower) <= v <= PowE(lower + 1); }
  }

  /** The logarithm from the exponent found: the fraction of the quotient is added to it. */
  method Assemble(v: int, e: int, lower: int) returns (r: Result)
    requires v > 0 && e == E && PowE(lower) > 0
    ensures Remainder(v, lower) >= 0 <==> PowE(lower) <= v
    ensures r == if Remainder(v, lower) < 0 then Domain else Ok(lower * S + Fraction(Remainder(v, lower), BUDGET))
  {
    RemainderSign(v, lower);
    var power := Power(e, lower);
    assert power == Ok(PowE(lower));
    var quotient := FloorQuotient(v * S, power.value);
    var fraction := LnCF(quotient.value - S, BUDGET);
    if fraction.Ok? { r := Ok(lower * S + fraction.value); } else { r := fraction; }
  }

  // ----- bounds on the logarithm

  lemma {:induction false} BisectionKeeps(v: int, k: nat, lower: int, upper: int)
    requires v > 0 && Bracketed(v, k) && -Pow2(k) <= lower < upper <= Pow2(k)
    requires lower == -Pow2(k) || PowE(lower) <= v
    requires upper == Pow2(k) || v < PowE(upper)
    requires (lower == -Pow2(k) && upper == Pow2(k)) || (if v >= S then lower >= 0 else upper <= 0)
    ensures Bisected(v, k, Bisection(v, lower, upper))
    decreases upper - lower
  {
    hide Bracketed;
    if upper - lower > 1 {
      var mid := lower + (upper - lower) / 2;
      if lower == -Pow2(k) && upper == Pow2(k) { assert mid == 0 && PowE(0) == S; }
      hide PowE;
      if v < PowE(mid) { BisectionKeeps(v, k, lower, mid); } else { BisectionKeeps(v, k, mid, upper); }
    }
  }

  lemma {:induction false} FirstBracketed(v: int, k: nat)
    requires v > 0 && (k > 0 ==> !Surrounds(v, k - 1))
    ensures Bracketed(v, FirstBracket(v, k))
    decreases Distance(v, k)
  {
    hide LowValue, PowNat;
    if !Surrounds(v, k) {
      DistanceFalls(v, k);
      FirstBracketed(v, k + 1);
    }
  }

  /** The exponent found is that of a power at or below `v` whose successor is above it, but for the
      ends of the bracket. */
  lemma ExponentFound(v: int) returns (k: nat)
    requires v > 0
    ensures Bisected(v, k, LowerExponent(v))
  {
    hide Bisected, Bracketed, Bisection;
    k := FirstBracket(v, 0);
    FirstBracketed(v, 0);
    BisectionKeeps(v, k, -Pow2(k), Pow2(k));
  }

  lemma PowersFall(m: int, j: int)
    requires 1 <= m <= j && AtLeast(m, PowNat(E, m))
    ensures PowE(-j) <= PowE(-m)
  {
    hide PowNat;
    PowerAtLeastOne(E, m);
    FloorAntitone(S * S, PowNat(E, m), PowNat(E, j));
  }

  /** A value that is at least e^-m has an exponent of at least -m. */
  lemma ExponentAtLeast(v: int, m: int)
    requires m >= 1 && AtLeast(m, PowNat(E, m)) && v > 0 && v >= PowE(-m)
    ensures LowerExponent(v) >= -m
  {
    hide PowE, PowNat, LowerExponent, Bracketed, AtLeast;
    var lower := LowerExponent(v);
    var k := ExponentFound(v);
    if lower < -m { PowersFall(m, -(lower + 1)); }
  }

  lemma {:induction false} ConvergentsNonNegative(r: int, f: Frame, depth: nat, budget: nat)
    requires r >= 0 && f.Valid() && f.aPrev >= 0 && f.aOlder >= 0 && depth <= budget
    ensures Convergents(r, f, depth, budget) >= 0
    decreases budget - depth
  {
    var c := Coefficient(r, depth);
    assert c >= 0 by {
      var k := (depth + 1) / 2;
      assert k * k >= 0;
      MulLe(r, 0, k * k);
    }
    MulMonotone(0, (depth + 1) * S, 0, f.aPrev);
    MulMonotone(0, c, 0, f.aOlder);
    DenominatorAtLeastOne(r, f, depth);
    hide Mul, Coefficient;
    var a := Mul((depth + 1) * S, f.aPrev) + Mul(c, f.aOlder);
    var b := Mul((depth + 1) * S, f.bPrev) + Mul(c, f.bOlder);
    QuotientNonNegative(a, b);
    var convergent := Div(a, b);
    if depth < budget && (depth == 0 || Abs(f.previous - convergent) >= EPSILON) {
      ConvergentsNonNegative(r, Frame(f.aPrev, f.bPrev, a, b, convergent), depth + 1, budget);
    }
  }

  lemma QuotientNonNegative(a: int, b: int)
    requires a >= 0 && b > 0
    ensures Div(a, b) >= 0
  {
  }

  /** The logarithm of a value that is at least e^-m is at least -m. */
  lemma LnAtLeast(v: int, m: int)
    requires m >= 1 && AtLeast(m, PowNat(E, m)) && v >= PowE(-m) && LnOf(v).Ok?
    ensures LnOf(v).value >= -m * S
  {
    hide PowE, PowNat, LowerExponent, AtLeast, Convergents, Remainder;
    ExponentAtLeast(v, m);
    ConvergentsNonNegative(Remainder(v, LowerExponent(v)), FIRST_FRAME, 0, BUDGET);
    MulLe(S, -m, LowerExponent(v));
  }

  // ----- the logarithm of a power

  lemma ZeroFraction()
    ensures Fraction(0, BUDGET) == 0
  {
    ZeroProducts();
    hide Mul, Div;
    var next := Frame(0, S, 0, S, 0);
    assert Coefficient(0, 0) == 0 && Coefficient(0, 1) == 0;
    assert Convergents(0, next, 1, BUDGET) == 0;
    assert Convergents(0, FIRST_FRAME, 0, BUDGET) == Convergents(0, next, 1, BUDGET);
  }

  lemma ZeroProducts()
    ensures Mul(1 * S, 0) == 0 && Mul(2 * S, 0) == 0 && Mul(0, S) == 0 && Mul(0, 0) == 0
    ensures Mul(1 * S, S) == S && Mul(2 * S, S) == 2 * S && Div(0, S) == 0 && Div(0, 2 * S) == 0
  {
  }

  /** The logarithm of e^-3 as a power is -3 exactly. */
  lemma LnOfThirdPower(v: int)
    requires v == PowE(-3)
    ensures LnOf(v) == Ok(-3 * S)
  {
    InversePowers();
    PowersGrow();
    hide PowNat, LowerExponent, AtLeast, Fraction, PowE;
    var lower := LowerExponent(v);
    ExponentAtLeast(v, 3);
    BisectionResult(v);
    assert lower == -3 || lower == -2 || lower == -1;
    assert Remainder(v, -3) == 0;
    ZeroFraction();
  }
}
