/** The prepared leader predicate: preparation from a stake and coefficient, and the decision
    for a certified natural. */
module Eligibility {
  import opened E34
  import opened E34Compare
  import opened E34Exp
  import opened E34Ln
  import opened Numbers

  const TWO_TO_512: int := TWO_TO_256 * TWO_TO_256
  const TEN_TO_19: int := 10_000_000_000_000_000_000

  datatype Mode = CPraos | TPraos | Unknown

  datatype Key = Key(poolStake: nat, totalStake: nat, numerator: nat, denominator: nat, mode: Mode)
  {
    /** What validation establishes before a key is built. */
    predicate Valid() {
      && mode != Unknown && 0 < totalStake && poolStake <= totalStake
      && InPositiveUnitInterval(numerator, denominator)
    }
  }

  /** A `*big.Rat`: absent, or a ratio with a positive denominator. */
  datatype Coefficient = NoCoefficient | Ratio(numerator: int, denominator: int)

  /** The coefficient lies in [10^-19, 1] and both parts fit 64 bits. */
  predicate InPositiveUnitInterval(numerator: int, denominator: int) {
    0 < numerator <= denominator < TWO_TO_64 && denominator <= numerator * TEN_TO_19
  }

  /** The two-word product test decides exactly the interval. */
  method ValidateActiveSlotCoefficient(f: Coefficient) returns (ok: bool)
    requires f.Ratio? ==> f.denominator > 0
    ensures ok <==> f.Ratio? && InPositiveUnitInterval(f.numerator, f.denominator)
  {
    if f.NoCoefficient? { return false; }
    if 0 < f.numerator <= f.denominator && f.numerator < TWO_TO_64 && f.denominator < TWO_TO_64 {
      var product := f.numerator * TEN_TO_19;
      var hi, lo := product / TWO_TO_64, product % TWO_TO_64;
      if hi != 0 || lo >= f.denominator { return true; }
    }
    return false;
  }

  // ----- preparation

  datatype State = State(mode: Mode, maximum: int, sigma: int, c: int, x: int, unconditional: bool)

  datatype Prepared = Ready(state: State) | PreparationFailed

  function Maximum(mode: Mode): int {
    if mode == CPraos then TWO_TO_256 else TWO_TO_512
  }

  function Prepare(key: Key): Prepared
    requires key.Valid()
  {
    var sigma := Div(key.poolStake, key.totalStake);
    if key.numerator == key.denominator then Ready(State(key.mode, Maximum(key.mode), sigma, 0, 0, true))
    else
      var ln := LnOf(S - Div(key.numerator, key.denominator));
      if ln.Ok? then Ready(State(key.mode, Maximum(key.mode), sigma, ln.value, -Mul(sigma, ln.value), false))
      else PreparationFailed
  }

  /** Preparation fails only when one minus the floored coefficient is a value the logarithm misses. */
  method PrepareLeaderEligibility(key: Key) returns (r: Prepared)
    requires key.Valid()
    ensures r == Prepare(key)
    ensures r.Ready? <==>
            || key.numerator == key.denominator
            || S - Div(key.numerator, key.denominator) !in {MISSED_A, MISSED_B}
    ensures r.Ready? ==>
            && r.state.mode == key.mode && r.state.maximum == (if key.mode == CPraos then TWO_TO_256 else TWO_TO_512)
            && IsFloor(r.state.sigma, key.poolStake * S, key.totalStake)
            && (r.state.unconditional <==> key.numerator == key.denominator)
            && (r.state.unconditional ==> r.state.c == 0 && r.state.x == 0)
            && IsFloor(-r.state.x, r.state.sigma * r.state.c, S)
  {
    hide LnOf, LnValue;
    var sigma := FloorQuotient(key.poolStake * S, key.totalStake);
    if key.numerator == key.denominator {
      return Ready(State(key.mode, Maximum(key.mode), sigma.value, 0, 0, true));
    }
    var f := FloorQuotient(key.numerator * S, key.denominator);
    assert f.value < S by { BelowOne(key.numerator, key.denominator); }
    var ln := Ln(S - f.value);
    if !ln.Ok? { return PreparationFailed; }
    r := Ready(State(key.mode, Maximum(key.mode), sigma.value, ln.value, -Mul(sigma.value, ln.value), false));
  }

  lemma BelowOne(n: int, d: int)
    requires 0 < n < d
    ensures n * S / d < S
  {
    var q := n * S / d;
    assert q * d <= n * S;
    if q >= S {
      MulLe(d, S, q);
      MulLe(S, n + 1, d);
    }
  }

  /** A coefficient inside the accepted interval for which preparation fails. */
  lemma AcceptedCoefficientThatFails(poolStake: nat, totalStake: nat)
    requires 0 < totalStake && poolStake <= totalStake
    ensures var key := Key(poolStake, totalStake, 65100916553150251, 75290358552892017, CPraos);
            key.Valid() && S - Div(key.numerator, key.denominator) == MISSED_A
  {
  }

  // ----- the decision

  /** The scaled quotient 1 / (1 - v / M); at the artificial endpoint it is left undivided. */
  function Quotient(maximum: int, v: int): int
    requires 0 <= v <= maximum
  {
    if v == maximum then maximum * S else maximum * S / (maximum - v)
  }

  predicate Elected(state: State, v: int)
    requires 0 <= v <= state.maximum
  {
    state.unconditional || Decide(Quotient(state.maximum, v), state.x, 1).verdict == Below
  }

  datatype Evaluator = Uninitialized | Evaluator(state: State)
  datatype Natural = NoNatural | Natural(value: int)
  datatype Check = Refused | Checked(elected: bool)

  method CheckCertifiedNatural(e: Evaluator, v: Natural) returns (r: Check)
    ensures r.Checked? <==> e.Evaluator? && v.Natural? && 0 <= v.value <= e.state.maximum
    ensures r.Checked? ==> r.elected == Elected(e.state, v.value)
  {
    hide Decide;
    if e.Uninitialized? || v.NoNatural? { return Refused; }
    if v.value < 0 || v.value > e.state.maximum { return Refused; }
    if e.state.unconditional { return Checked(true); }
    var q := e.state.maximum * S;
    var denominator := e.state.maximum - v.value;
    if denominator != 0 { q := Quo(q, denominator); }
    var classification, _, _ := Compare(q, e.state.x);
    r := Checked(classification == Below);
  }

  lemma QuotientMonotone(maximum: int, v: int, v': int)
    requires 0 <= v <= v' <= maximum && 0 < maximum
    ensures S <= Quotient(maximum, v) <= Quotient(maximum, v')
  {
    var n := maximum * S;
    if v < maximum {
      FloorAntitone(n, maximum - v, maximum);
      assert n / maximum == S by { FloorUnique(S, n, maximum); }
      if v' < maximum { FloorAntitone(n, maximum - v', maximum - v); } else { FloorAntitone(n, 1, maximum - v); }
    }
  }

  /** The elected naturals are downward closed, for every prepared state. */
  lemma Monotone(state: State, v: int, v': int)
    requires 0 <= v <= v' <= state.maximum && 0 < state.maximum && Elected(state, v')
    ensures Elected(state, v)
  {
    if !state.unconditional {
      QuotientMonotone(state.maximum, v, v');
      BelowIsDownwardClosed(Quotient(state.maximum, v), Quotient(state.maximum, v'), state.x, 1);
    }
  }

  /** Eligibility is a threshold: some bound separates the elected naturals from the others. */
  lemma {:induction false} Threshold(state: State, bound: nat) returns (t: nat)
    requires 0 < state.maximum && bound <= state.maximum + 1
    requires forall v :: bound <= v <= state.maximum ==> !Elected(state, v)
    ensures t <= bound && forall v :: 0 <= v <= state.maximum ==> (Elected(state, v) <==> v < t)
    decreases bound
  {
    hide Decide;
    if bound == 0 {
      t := 0;
    } else if Elected(state, bound - 1) {
      t := bound;
      forall v | 0 <= v < bound ensures Elected(state, v) { Monotone(state, v, bound - 1); }
    } else {
      t := Threshold(state, bound - 1);
    }
  }

  lemma {:induction false} ZeroSeries(k: nat)
    ensures Sum(0, k) == S && (k >= 1 ==> Term(0, k) == 0)
  {
    if k > 0 { ZeroSeries(k - 1); }
  }

  /** With x = 0 nobody is elected. */
  lemma ZeroElectsNobody(state: State, v: int)
    requires !state.unconditional && state.x == 0 && 0 <= v <= state.maximum && 0 < state.maximum
    ensures !Elected(state, v)
  {
    hide Decide, Term;
    var q := Quotient(state.maximum, v);
    QuotientMonotone(state.maximum, v, v);
    CoversSmall(0);
    CompareExact(q, 0);
    forall k | k >= 1 ensures Sum(0, k) <= q { ZeroSeries(k); }
  }

  /** With 0 < x <= 45 the natural zero is always elected. */
  lemma PositiveElectsZero(state: State)
    requires !state.unconditional && 0 < state.x <= 45 * S && 0 < state.maximum
    ensures Elected(state, 0)
  {
    hide Decide;
    assert Quotient(state.maximum, 0) == S by { FloorUnique(S, state.maximum * S, state.maximum); }
    OneIsBelow(state.x);
  }

  /** Whoever is elected lies below the series, for every x. */
  lemma ElectedIsBelow(state: State, v: int)
    requires !state.unconditional && 0 <= state.x && 0 <= v <= state.maximum && Elected(state, v)
    ensures Exceeded(Quotient(state.maximum, v), state.x)
  {
    hide Decide;
    var q := Quotient(state.maximum, v);
    BelowSound(q, state.x, 1);
    ExceededBy(q, state.x, Decide(q, state.x, 1).iteration);
  }

  /** Election of `v` is exactly lying below the floored exponential series. */
  ghost predicate ElectedRight(state: State, v: int)
    requires 0 <= v <= state.maximum
  {
    Elected(state, v) <==> Exceeded(Quotient(state.maximum, v), state.x)
  }

  /** Every value up to about the square root of the maximum is the quotient of some natural. */
  lemma QuotientOnto(maximum: int, q: int) returns (v: int)
    requires 0 < maximum && S <= q && q * (q + 1) <= maximum * S
    ensures 0 <= v < maximum && Quotient(maximum, v) == q
  {
    var n := maximum * S;
    var d := n / q;
    assert d * q <= n < (d + 1) * q;
    assert d <= maximum by {
      FloorAntitone(n, S, q);
      FloorUnique(maximum, n, S);
    }
    assert d >= q + 1 by { AtLeastQuotient(d, q, n); }
    assert n < (q + 1) * d by { assert (d + 1) * q == q * d + q && (q + 1) * d == q * d + d; }
    FloorUnique(q, n, d);
    v := maximum - d;
  }

  lemma AtLeastQuotient(d: int, q: int, n: int)
    requires q > 0 && q * (q + 1) <= n < (d + 1) * q
    ensures d >= q + 1
  {
    if d + 1 <= q + 1 { MulLe(q, d + 1, q + 1); }
  }

  lemma FirstMarginFits(x: int)
    requires Moderate(x)
    ensures var q := Sum(x, 1) + 3 * Term(x, 2); S <= q <= 3200 * S && q * (q + 1) <= TWO_TO_256 * S
  {
    hide Term;
    FirstTerm(x);
    SecondTermBound(x);
    var q := Sum(x, 1) + 3 * Term(x, 2);
    MulLe(q, q + 1, 3201 * S);
    MulLe(3201 * S, q, 3200 * S);
  }

  lemma SecondTermBound(x: int)
    requires Moderate(x)
    ensures 0 <= Term(x, 2) <= 23 * x
  {
    TermsNonNegative(x, 2);
    StepAtMost(x, x, 2, 45000);
  }

  /** The predicate elects exactly the naturals below the series if and only if the first margin
      covers it: for every state with 0 <= x <= 45, the upper bound that every prepared state keeps. */
  lemma ElectionExact(state: State)
    requires !state.unconditional && Moderate(state.x) && state.maximum >= TWO_TO_256
    ensures Covers(state.x) <==> forall v :: 0 <= v <= state.maximum ==> ElectedRight(state, v)
  {
    hide Decide, Term, Sum;
    if Covers(state.x) {
      forall v | 0 <= v <= state.maximum ensures ElectedRight(state, v) {
        CompareExact(Quotient(state.maximum, v), state.x);
      }
    } else {
      FirstMarginFits(state.x);
      MulLe(S, TWO_TO_256, state.maximum);
      var v := QuotientOnto(state.maximum, Sum(state.x, 1) + 3 * Term(state.x, 2));
      FirstMarginWrong(state.x);
      assert !ElectedRight(state, v);
    }
  }

  /** The scaled probability of not winning times some partial sum exceeds one. */
  ghost predicate BelowSeries(maximum: int, v: int, x: int) {
    exists k :: k >= 1 && maximum * S < Sum(x, k) * (maximum - v)
  }

  lemma QuotientBelow(n: int, d: int, s: int)
    requires d > 0
    ensures n / d < s <==> n < s * d
  {
    var q := n / d;
    assert q * d <= n < (q + 1) * d;
    if q < s { MulLe(d, q + 1, s); } else { MulLe(d, s, q); }
  }

  lemma EndpointNotExceeded(maximum: int, x: int)
    requires 0 <= x && Covers(x) && maximum >= TWO_TO_256
    ensures !Exceeded(maximum * S, x)
  {
    hide Term, Sum;
    assert Small(x) by { if 1000 * x >= 2656 * S { CoversNoMore(x); } }
    FirstMarginFits(x);
    MulLe(S, TWO_TO_256, maximum);
    forall k | k >= 1 ensures Sum(x, k) <= maximum * S { FirstTail(x, k); }
  }

  /** Where the first margin covers the series, `v` is elected exactly when 1 < (1 - v / M) * s for
      some partial sum s of the exponential of x, with no rounding but that of the series. The
      endpoint M is never elected. */
  lemma ElectionLaw(state: State, v: int)
    requires !state.unconditional && 0 <= state.x && Covers(state.x) && state.maximum >= TWO_TO_256
    requires 0 <= v <= state.maximum
    ensures Elected(state, v) <==> BelowSeries(state.maximum, v, state.x)
  {
    hide Decide, Covers, Term, Sum;
    var m, q := state.maximum, Quotient(state.maximum, v);
    CompareExact(q, state.x);
    if v == m {
      EndpointNotExceeded(m, state.x);
    } else {
      forall k | k >= 1 ensures q < Sum(state.x, k) <==> m * S < Sum(state.x, k) * (m - v) {
        QuotientBelow(m * S, m - v, Sum(state.x, k));
      }
    }
  }

  // ----- which x a key can give

  lemma SigmaRange(poolStake: nat, totalStake: nat)
    requires 0 < totalStake && poolStake <= totalStake
    ensures 0 <= Div(poolStake, totalStake) <= S
  {
    MulLe(S, poolStake, totalStake);
    QuotientAtMost(poolStake * S, totalStake);
  }

  lemma QuotientAtMost(n: int, d: int)
    requires 0 <= n <= d * S && 0 < d
    ensures 0 <= n / d <= S
  {
    var q := n / d;
    assert q * d <= n;
    if q > S { MulLe(d, S + 1, q); }
  }

  /** One minus the floored coefficient. */
  function Complement(key: Key): int
    requires key.denominator > 0
  {
    S - key.numerator * S / key.denominator
  }

  /** The coefficient is below one and preparation does not meet a value the logarithm misses. */
  predicate Preparable(key: Key) {
    key.Valid() && key.numerator < key.denominator && Complement(key) !in {MISSED_A, MISSED_B}
  }

  lemma PreparableIsReady(key: Key)
    requires Preparable(key)
    ensures Complement(key) > 0 && Complement(key) == S - Div(key.numerator, key.denominator)
    ensures LnOf(Complement(key)).Ok? && Prepare(key).Ready?
  {
    BelowOne(key.numerator, key.denominator);
    hide LnOf, LnValue, PowE, LowerExponent;
    LnConclusion(Complement(key));
  }

  /** What preparation computes: the stake ratio and the coefficient are floored, the logarithm is
      that of one minus the coefficient, and x negates the floored product, not the other way round. */
  lemma PreparedMeans(key: Key)
    requires Preparable(key)
    ensures Prepare(key).Ready?
    ensures var state := Prepare(key).state;
            && IsFloor(state.sigma, key.poolStake * S, key.totalStake)
            && IsFloor(S - Complement(key), key.numerator * S, key.denominator)
            && LnOf(Complement(key)) == Ok(state.c)
            && IsFloor(-state.x, state.sigma * state.c, S)
            && !state.unconditional && state.mode == key.mode
            && state.maximum == if key.mode == CPraos then TWO_TO_256 else TWO_TO_256 * TWO_TO_256
  {
    hide LnOf, LnValue, Complement;
    PreparableIsReady(key);
    var state := Prepare(key).state;
    QuotientIsFloor(key.poolStake * S, key.totalStake);
    QuotientIsFloor(key.numerator * S, key.denominator);
    MulBounds(state.sigma, state.c);
  }

  lemma ZeroFloor(q: int, d: int)
    requires d > 0 && IsFloor(q, 0, d)
    ensures q == 0
  {
    if q > 0 { MulLe(d, 1, q); } else if q < 0 { MulLe(d, q + 1, 0); }
  }

  /** A pool without stake is never elected. */
  lemma NoStakeNoElection(key: Key, v: int)
    requires Preparable(key) && key.poolStake == 0 && 0 <= v <= Maximum(key.mode)
    ensures Prepare(key).Ready? && Prepare(key).state.maximum == Maximum(key.mode) && !Elected(Prepare(key).state, v)
  {
    hide LnOf, Prepare, Elected, Complement;
    PreparedMeans(key);
    var state := Prepare(key).state;
    ZeroFloor(state.sigma, key.totalStake);
    ZeroFloor(-state.x, S);
    ZeroElectsNobody(state, v);
  }

  lemma FloorMonotone(p: int, q: int, m: int, n: int, d: int)
    requires d > 0 && m <= n && IsFloor(p, m, d) && IsFloor(q, n, d)
    ensures p <= q
  {
    if q < p { MulLe(d, q + 1, p); }
  }

  /** Of two keys that differ in the stake only, the smaller stake has the smaller x, unless the
      rounding left both at or below zero. */
  lemma StakeMonotone(key: Key, larger: Key)
    requires Preparable(key) && Preparable(larger)
    requires larger == key.(poolStake := larger.poolStake) && key.poolStake <= larger.poolStake
    ensures Prepare(key).Ready? && Prepare(larger).Ready?
    ensures var (a, b) := (Prepare(key).state, Prepare(larger).state);
            a.maximum == b.maximum && a.c == b.c && a.sigma <= b.sigma && (a.x <= b.x || (b.x <= a.x <= 0))
  {
    hide LnOf, Prepare, Complement;
    PreparedMeans(key);
    PreparedMeans(larger);
    assert Complement(key) == Complement(larger) by { ComplementOfCoefficient(key, larger); }
    var (a, b) := (Prepare(key).state, Prepare(larger).state);
    MulLe(S, key.poolStake, larger.poolStake);
    FloorMonotone(a.sigma, b.sigma, key.poolStake * S, larger.poolStake * S, key.totalStake);
    ProductsOrdered(a.sigma, b.sigma, a.c, key.poolStake * S, key.totalStake);
    if a.c <= 0 {
      FloorMonotone(-b.x, -a.x, b.sigma * b.c, a.sigma * a.c, S);
    } else {
      FloorMonotone(-a.x, -b.x, a.sigma * a.c, b.sigma * b.c, S);
      assert IsFloor(0, 0, S);
      FloorMonotone(0, -a.x, 0, a.sigma * a.c, S);
    }
  }

  lemma ComplementOfCoefficient(key: Key, other: Key)
    requires key.denominator > 0 && other.numerator == key.numerator && other.denominator == key.denominator
    ensures Complement(key) == Complement(other)
  {
  }

  lemma ProductsOrdered(s: int, s': int, c: int, n: int, d: int)
    requires s <= s' && d > 0 && n >= 0 && IsFloor(s, n, d)
    ensures s >= 0
    ensures c <= 0 ==> s' * c <= s * c
    ensures c >= 0 ==> 0 <= s * c <= s' * c
  {
    if s < 0 { MulLe(d, s + 1, 0); }
    if c <= 0 { MulLe(-c, s, s'); } else { MulLe(c, s, s'); MulLe(c, 0, s); }
  }

  /** Whoever a stake elects a larger stake elects too, wherever the first margin covers the larger
      series and rounding left x non-negative. */
  lemma MoreStakeElectsMore(key: Key, larger: Key, v: int)
    requires Preparable(key) && Preparable(larger)
    requires larger == key.(poolStake := larger.poolStake) && key.poolStake <= larger.poolStake
    requires 0 <= v <= Maximum(key.mode)
    ensures Prepare(key).Ready? && Prepare(larger).Ready?
    ensures var (a, b) := (Prepare(key).state, Prepare(larger).state);
            && a.maximum == b.maximum == Maximum(key.mode)
            && (0 <= a.x && Covers(b.x) && Elected(a, v) ==> Elected(b, v))
  {
    hide LnOf, Prepare, Elected, Complement, Covers, Decide;
    PreparedMeans(key);
    PreparedMeans(larger);
    StakeMonotone(key, larger);
    var (a, b) := (Prepare(key).state, Prepare(larger).state);
    if 0 <= a.x && Covers(b.x) && Elected(a, v) { LargerElects(a, b, v); }
  }

  lemma LargerElects(a: State, b: State, v: int)
    requires !a.unconditional && !b.unconditional && a.maximum == b.maximum && 0 <= v <= a.maximum && 0 < a.maximum
    requires 0 <= a.x && (a.x <= b.x || b.x <= a.x <= 0) && Covers(b.x) && Elected(a, v)
    ensures Elected(b, v)
  {
    hide Decide, Covers;
    if a.x == 0 { ZeroElectsNobody(a, v); }
    ElectedIsBelow(a, v);
    var q := Quotient(a.maximum, v);
    var k :| k >= 1 && q < Sum(a.x, k);
    SumGrowsWithX(a.x, b.x, k);
    ExceededBy(q, b.x, k);
    CompareExact(q, b.x);
  }

  /** If one minus the coefficient is at least e^-m then x is at most m. */
  lemma PreparedAtMost(key: Key, m: int)
    requires Preparable(key) && m >= 1 && AtLeast(m, PowNat(E, m)) && Complement(key) >= PowE(-m)
    ensures Prepare(key).Ready? && Prepare(key).state.x <= m * S
  {
    hide LnOf, PowE, PowNat, AtLeast, Div;
    PreparableIsReady(key);
    var sigma := Div(key.poolStake, key.totalStake);
    var c := Prepare(key).state.c;
    LnAtLeast(Complement(key), m);
    SigmaRange(key.poolStake, key.totalStake);
    ScaledDown(sigma, c, m);
  }

  lemma ScaledDown(sigma: int, c: int, m: int)
    requires 0 <= sigma <= S && c >= -m * S && m >= 0
    ensures Mul(sigma, c) >= -m * S
  {
    MulLe(sigma, -m * S, c);
    MulLe(m * S, sigma, S);
    assert sigma * c >= -(m * S) * S;
    MulBounds(sigma, c);
  }

  /** Every accepted coefficient is far enough from one: x is at most 45. */
  lemma PreparedModerate(key: Key)
    requires Preparable(key)
    ensures Prepare(key).Ready? && Prepare(key).state.x <= 45 * S
  {
    PowersGrow();
    assert PowE(-45) == 286251858054939;
    hide LnOf, PowNat, AtLeast, PowE, Prepare;
    PreparableIsReady(key);
    AwayFromOne(key.numerator, key.denominator);
    PreparedAtMost(key, 45);
  }

  lemma AwayFromOne(n: int, d: int)
    requires 0 < n < d < TWO_TO_64
    ensures S - Div(n, d) >= 542101086242752
  {
    var q := n * S / d;
    assert q * d <= n * S;
    MulLe(S, n, d - 1);
    assert (S - q) * d >= S;
    if S - q < 542101086242752 { MulLe(d, S - q, 542101086242751); }
  }

  /** With one minus the coefficient at least e^-2 the first margin covers the series, so election
      is exact unless rounding made x negative. */
  lemma SmallCoefficientExact(key: Key)
    requires Preparable(key) && Complement(key) >= PowE(-2)
    ensures Prepare(key).Ready?
    ensures var state := Prepare(key).state;
            state.x >= 0 ==>
            Covers(state.x) && forall v :: 0 <= v <= state.maximum ==> ElectedRight(state, v)
  {
    PowersGrow();
    hide PowNat, AtLeast, PowE, LnOf, Term, Sum, Decide;
    PreparedAtMost(key, 2);
    var state := Prepare(key).state;
    if state.x >= 0 {
      CoversSmall(state.x);
      ElectionExact(state);
    }
  }

  // ----- an accepted key whose predicate is wrong

  const NEAR_ONE := Key(1, 1, 190199315873654260, 200164941501014769, CPraos)

  const MISJUDGED: int := 109359195390798629011150374730427468528088318850882754926154384896362400215496

  lemma NearOnePrepared(key: Key)
    requires key == NEAR_ONE
    ensures key.Valid() && Prepare(key) == Ready(State(CPraos, TWO_TO_256, S, -3 * S, 3 * S, false))
  {
    InversePowers();
    assert S - Div(key.numerator, key.denominator) == PowE(-3);
    hide PowE, LnOf;
    LnOfThirdPower(S - Div(key.numerator, key.denominator));
    assert Div(1, 1) == S && Mul(S, -3 * S) == -3 * S;
  }

  /** A full stake and a coefficient near 0.95 give x = 3, where a natural below the series is
      refused. */
  lemma RefusedThoughBelow(key: Key, v: int)
    requires key == NEAR_ONE && v == MISJUDGED
    ensures key.Valid() && Prepare(key).Ready?
    ensures var state := Prepare(key).state;
            && 0 <= v <= state.maximum && !Elected(state, v)
            && Exceeded(Quotient(state.maximum, v), state.x)
  {
    NearOnePrepared(key);
    hide Prepare, Decide, Term, Sum;
    assert Quotient(TWO_TO_256, v) == 18 * S;
    MarginFailsAtThree();
    ExceededBy(18 * S, 3 * S, 5);
  }
}
