/** The early-terminating comparison of a value with the exponential series. */
module E34Compare {
  import opened E34
  import opened Numbers

  datatype Verdict = Above | Below | MaxReached

  datatype Decision = Decision(verdict: Verdict, acc: int, iteration: nat)

  const BUDGET: nat := 1000

  /** Term `i` of the floored series for x: x, x^2/2, x^3/6, ... */
  function Term(x: int, i: nat): int
    requires i >= 1
  {
    if i == 1 then x else NextTerm(Term(x, i - 1), x, i)
  }

  function NextTerm(term: int, x: int, i: nat): int
    requires i >= 1
  {
    Mul(term, x) * S / (i * S)
  }

  /** The floored partial sum 1 + x + ... up to term `i`. */
  function Sum(x: int, i: nat): int {
    if i == 0 then S else Sum(x, i - 1) + Term(x, i)
  }

  /** The decision reached from iteration `i` on. */
  function Decide(q: int, x: int, i: nat): Decision
    requires 1 <= i <= BUDGET + 1
    decreases BUDGET + 1 - i
  {
    if i > BUDGET then Decision(MaxReached, Sum(x, BUDGET), BUDGET)
    else
      var margin := 3 * Abs(Term(x, i + 1));
      if q >= Sum(x, i) + margin then Decision(Above, Sum(x, i), i)
      else if q < Sum(x, i) - margin then Decision(Below, Sum(x, i), i)
      else Decide(q, x, i + 1)
  }

  method Compare(q: int, x: int) returns (verdict: Verdict, acc: int, iterations: nat)
    ensures Decision(verdict, acc, iterations) == Decide(q, x, 1)
  {
    acc := S;
    var errTerm, divisor := x, S;
    for iteration := 1 to BUDGET + 1
      invariant errTerm == Term(x, iteration) && acc == Sum(x, iteration - 1) && divisor == iteration * S
      invariant Decide(q, x, 1) == Decide(q, x, iteration)
    {
      divisor := divisor + S;
      var first := FloorQuotient(errTerm * x, S);
      var second := FloorQuotient(first.value * S, divisor);
      var nextErr := second.value;
      acc := acc + errTerm;
      var errorBound := Abs(nextErr * 3);
      if q >= acc + errorBound { return Above, acc, iteration; }
      if q < acc - errorBound { return Below, acc, iteration; }
      errTerm := nextErr;
    }
    return MaxReached, acc, BUDGET;
  }

  // ----- the terms shrink

  lemma StepNonNegative(term: int, x: int, i: nat)
    requires 0 <= term && 0 <= x && i >= 1
    ensures 0 <= Mul(term, x) && 0 <= NextTerm(term, x, i)
    ensures Mul(term, x) * S <= term * x < Mul(term, x) * S + S
    ensures NextTerm(term, x, i) * i <= Mul(term, x) < NextTerm(term, x, i) * i + i
  {
    MulLe(term, 0, x);
    MulBounds(term, x);
    ScaledQuotient(Mul(term, x), i);
  }

  lemma ScaledQuotient(a: int, i: nat)
    requires 0 <= a && i >= 1
    ensures var n := a * S / (i * S); 0 <= n && n * i <= a < n * i + i
  {
    var d := i * S;
    var n := a * S / d;
    QuotientIsFloor(a * S, d);
    Unscaled(a, n, i);
    if n < 0 { MulLe(d, n, -1); }
  }

  lemma Unscaled(a: int, n: int, i: int)
    requires n * (i * S) <= a * S < (n + 1) * (i * S)
    ensures n * i <= a < n * i + i
  {
    var m := n * i;
    assert n * (i * S) == m * S && (n + 1) * (i * S) == (m + i) * S;
  }

  lemma {:induction false} TermsNonNegative(x: int, i: nat)
    requires 0 <= x && i >= 1
    ensures 0 <= Term(x, i)
  {
    if i > 1 {
      TermsNonNegative(x, i - 1);
      StepNonNegative(Term(x, i - 1), x, i);
    }
  }

  /** A step multiplies by at most p / 1000 and divides by the index, when x is at most p / 1000. */
  lemma StepAtMost(term: int, x: int, i: nat, p: nat)
    requires 0 <= term && 0 <= x && 1000 * x <= p * S && i >= 1
    ensures 1000 * (NextTerm(term, x, i) * i) <= p * term
  {
    StepNonNegative(term, x, i);
    MulLe(term, 1000 * x, p * S);
    Scaled(Mul(term, x), term, x, p);
  }

  lemma Scaled(a: int, term: int, x: int, p: nat)
    requires a * S <= term * x && term * (1000 * x) <= term * (p * S)
    ensures 1000 * a <= p * term
  {
    assert term * (1000 * x) == 1000 * (term * x) && term * (p * S) == (p * term) * S;
  }

  /** And by at least that, but for the rounding, when x is at least p / 1000. */
  lemma StepAtLeast(term: int, x: int, i: nat, p: nat)
    requires 0 <= term && 0 <= x && p * S <= 1000 * x && i >= 1
    ensures 1000 * (NextTerm(term, x, i) * i) >= p * term - 1000 * i
  {
    StepNonNegative(term, x, i);
    MulLe(term, p * S, 1000 * x);
    ScaledBack(Mul(term, x), term, x, p);
  }

  lemma ScaledBack(a: int, term: int, x: int, p: nat)
    requires term * x < a * S + S && term * (p * S) <= term * (1000 * x)
    ensures p * term < 1000 * a + 1000
  {
    assert term * (1000 * x) == 1000 * (term * x) && term * (p * S) == (p * term) * S;
  }

  /** The index from which every term is zero when x is at most 2.656. */
  const LAST: nat := 120

  predicate Small(x: int) { 0 <= x && 1000 * x <= 2656 * S }

  /** From the third term on each term is at most two thirds of the one before, from the fifth at
      most half. */
  lemma TermRatio(x: int, i: nat)
    requires Small(x) && i >= 2
    ensures 0 <= Term(x, i + 1) <= Term(x, i)
    ensures i >= 3 ==> 3 * Term(x, i + 1) <= 2 * Term(x, i)
    ensures i >= 5 ==> 2 * Term(x, i + 1) <= Term(x, i)
  {
    TermsNonNegative(x, i);
    TermsNonNegative(x, i + 1);
    StepAtMost(Term(x, i), x, i + 1, 2656);
    var n := Term(x, i + 1);
    MulLe(n, if i >= 5 then 6 else if i >= 3 then 4 else 3, i + 1);
  }

  lemma {:induction false} TermHalves(x: int, k: nat)
    requires Small(x)
    ensures Term(x, 5 + k) * Pow2(k) <= 4 * S
  {
    if k == 0 {
      StepAtMost(x, x, 2, 2656);
      assert Term(x, 2) <= 4 * S;
      TermRatio(x, 2);
      TermRatio(x, 3);
      TermRatio(x, 4);
    } else {
      TermHalves(x, k - 1);
      TermRatio(x, 4 + k);
      HalveStep(Term(x, 5 + k), Term(x, 4 + k), Pow2(k - 1), 4 * S);
    }
  }

  lemma HalveStep(term: int, before: int, p: int, bound: int)
    requires 2 * term <= before && before * p <= bound && p >= 0
    ensures term * (2 * p) <= bound
  {
    MulLe(p, 2 * term, before);
    assert term * (2 * p) == 2 * term * p;
  }

  lemma {:induction false} ZeroStays(x: int, i: nat, k: nat)
    requires 1 <= i <= k && Term(x, i) == 0
    ensures Term(x, k) == 0
    decreases k
  {
    if i < k {
      ZeroStays(x, i, k - 1);
      ZeroStep(x, k);
    }
  }

  lemma ZeroStep(x: int, i: nat)
    requires i >= 1
    ensures NextTerm(0, x, i) == 0
  {
    assert Mul(0, x) == 0;
    FloorUnique(0, 0, i * S);
  }

  lemma ZeroBelow(term: int, p: int, bound: int)
    requires 0 <= term && 0 <= p && term * p <= bound < p
    ensures term == 0
  {
    if term >= 1 { MulLe(p, 1, term); }
  }

  lemma TermsVanish(x: int, i: nat)
    requires Small(x) && i >= LAST
    ensures Term(x, i) == 0
  {
    TermHalves(x, 115);
    TermsNonNegative(x, LAST);
    Pow2Of115();
    ZeroBelow(Term(x, LAST), Pow2(115), 4 * S);
    ZeroStays(x, LAST, i);
  }

  lemma Pow2OfFive()
    ensures Pow2(5) == 32
  {
    assert Pow2(3) == 8;
  }

  lemma Pow2Of115()
    ensures Pow2(115) > 4 * S
  {
    hide Pow2;
    assert Pow2(5) == 32 by { Pow2OfFive(); }
    assert Pow2(10) == 1024 by { Pow2Add(5, 5); }
    assert Pow2(20) == 1048576 by { Pow2Add(10, 10); }
    assert Pow2(40) == 1099511627776 by { Pow2Add(20, 20); }
    assert Pow2(80) == 1208925819614629174706176 by { Pow2Add(40, 40); }
    assert Pow2(100) == 1267650600228229401496703205376 by { Pow2Add(80, 20); }
    assert Pow2(110) == 1298074214633706907132624082305024 by { Pow2Add(100, 10); }
    assert Pow2(115) == 41538374868278621028243970633760768 by { Pow2Add(110, 5); }
  }

  // ----- when the margin bounds the tail

  lemma {:induction false} SumMonotone(x: int, i: nat, k: nat)
    requires 0 <= x && i <= k
    ensures Sum(x, i) <= Sum(x, k)
    decreases k
  {
    if i < k {
      SumMonotone(x, i, k - 1);
      TermsNonNegative(x, k);
    }
  }

  lemma {:induction false} TermGrowsWithX(x: int, x': int, i: nat)
    requires 0 <= x <= x' && i >= 1
    ensures Term(x, i) <= Term(x', i)
  {
    if i > 1 {
      TermGrowsWithX(x, x', i - 1);
      TermsNonNegative(x, i - 1);
      MulMonotone(Term(x, i - 1), Term(x', i - 1), x, x');
      StepMonotone(Mul(Term(x, i - 1), x), Mul(Term(x', i - 1), x'), i);
    }
  }

  lemma StepMonotone(a: int, b: int, i: nat)
    requires 0 <= a <= b && i >= 1
    ensures a * S / (i * S) <= b * S / (i * S)
  {
    ScaledQuotient(a, i);
    ScaledQuotient(b, i);
    var m, n := a * S / (i * S), b * S / (i * S);
    if m > n { MulLe(i, n + 1, m); }
  }

  /** A larger argument gives a larger partial sum, despite the rounding. */
  lemma {:induction false} SumGrowsWithX(x: int, x': int, i: nat)
    requires 0 <= x <= x'
    ensures Sum(x, i) <= Sum(x', i)
  {
    if i > 0 {
      SumGrowsWithX(x, x', i - 1);
      TermGrowsWithX(x, x', i);
    }
  }

  lemma {:induction false} SumSettles(x: int, i: nat, k: nat)
    requires 1 <= i <= k && Term(x, i) == 0
    ensures Sum(x, k) == Sum(x, i)
    decreases k
  {
    if i < k {
      SumSettles(x, i, k - 1);
      ZeroStays(x, i, k);
    }
  }

  /** The first margin covers the whole series, of which nothing is left after term 120 when x is
      small enough for that to matter. */
  predicate Covers(x: int) { Sum(x, LAST) <= Sum(x, 1) + 3 * Term(x, 2) }

  /** From the second margin on, three times the next term bounds everything still to come. */
  lemma {:induction false} TailBound(x: int, i: nat, k: nat)
    requires Small(x) && 2 <= i <= k
    ensures Sum(x, k) <= Sum(x, i) + 3 * Term(x, i + 1)
    decreases k - i
  {
    if i == k {
      TermsNonNegative(x, i + 1);
    } else {
      TailBound(x, i + 1, k);
      TermRatio(x, i + 1);
    }
  }

  lemma FirstTail(x: int, k: nat)
    requires Small(x) && Covers(x) && 1 <= k
    ensures Sum(x, k) <= Sum(x, 1) + 3 * Term(x, 2)
  {
    hide Term, Sum;
    if k <= LAST {
      SumMonotone(x, k, LAST);
    } else {
      TermsVanish(x, LAST);
      SumSettles(x, LAST, k);
    }
  }

  lemma TermAtMost(x: int, p: nat, i: nat)
    requires 0 <= x && 1000 * x <= p * S && i >= 2
    ensures 1000 * (Term(x, i) * i) <= p * Term(x, i - 1)
  {
    TermsNonNegative(x, i - 1);
    StepAtMost(Term(x, i - 1), x, i, p);
  }

  lemma TermAtLeast(x: int, p: nat, i: nat)
    requires 0 <= x && p * S <= 1000 * x && i >= 2
    ensures 1000 * (Term(x, i) * i) >= p * Term(x, i - 1) - 1000 * i
  {
    TermsNonNegative(x, i - 1);
    StepAtLeast(Term(x, i - 1), x, i, p);
  }

  lemma ShortTail(
      t2: int, t3: int, t4: int, t5: int, t6: int, t7: int,
      t8: int, t9: int, t10: int, t11: int, t12: int, t13: int)
    requires 1000 * (t3 * 3) <= 2655 * t2
    requires 1000 * (t4 * 4) <= 2655 * t3
    requires 1000 * (t5 * 5) <= 2655 * t4
    requires 1000 * (t6 * 6) <= 2655 * t5
    requires 1000 * (t7 * 7) <= 2655 * t6
    requires 1000 * (t8 * 8) <= 2655 * t7
    requires 1000 * (t9 * 9) <= 2655 * t8
    requires 1000 * (t10 * 10) <= 2655 * t9
    requires 1000 * (t11 * 11) <= 2655 * t10
    requires 1000 * (t12 * 12) <= 2655 * t11
    requires 1000 * (t13 * 13) <= 2655 * t12
    requires t2 >= 0 && t3 >= 0
    ensures t3 + t4 + t5 + t6 + t7 + t8 + t9 + t10 + t11 + t12 + 3 * t13 <= 2 * t2
  {
  }

  lemma LongTail(t2: int, t3: int, t4: int, t5: int, t6: int, t7: int, t8: int, t9: int, t10: int, t11: int, t12: int)
    requires t2 >= 3 * S
    requires 1000 * (t3 * 3) >= 2656 * t2 - 1000 * 3
    requires 1000 * (t4 * 4) >= 2656 * t3 - 1000 * 4
    requires 1000 * (t5 * 5) >= 2656 * t4 - 1000 * 5
    requires 1000 * (t6 * 6) >= 2656 * t5 - 1000 * 6
    requires 1000 * (t7 * 7) >= 2656 * t6 - 1000 * 7
    requires 1000 * (t8 * 8) >= 2656 * t7 - 1000 * 8
    requires 1000 * (t9 * 9) >= 2656 * t8 - 1000 * 9
    requires 1000 * (t10 * 10) >= 2656 * t9 - 1000 * 10
    requires 1000 * (t11 * 11) >= 2656 * t10 - 1000 * 11
    requires 1000 * (t12 * 12) >= 2656 * t11 - 1000 * 12
    ensures t3 + t4 + t5 + t6 + t7 + t8 + t9 + t10 + t11 + t12 > 2 * t2
  {
  }

  /** Terms 3 to 12. */
  function Tail(x: int): int {
    Term(x, 3) + Term(x, 4) + Term(x, 5) + Term(x, 6) + Term(x, 7)
    + Term(x, 8) + Term(x, 9) + Term(x, 10) + Term(x, 11) + Term(x, 12)
  }

  lemma SumOfTwelve(x: int)
    ensures Sum(x, 12) == Sum(x, 1) + Term(x, 2) + Tail(x)
  {
    hide Term;
    assert Sum(x, 3) == Sum(x, 1) + Term(x, 2) + Term(x, 3);
    assert Sum(x, 5) == Sum(x, 3) + Term(x, 4) + Term(x, 5);
    assert Sum(x, 7) == Sum(x, 5) + Term(x, 6) + Term(x, 7);
    assert Sum(x, 9) == Sum(x, 7) + Term(x, 8) + Term(x, 9);
    assert Sum(x, 11) == Sum(x, 9) + Term(x, 10) + Term(x, 11);
  }

  lemma ShortTailOf(x: int)
    requires 0 <= x && 1000 * x <= 2655 * S
    ensures Tail(x) + 3 * Term(x, 13) <= 2 * Term(x, 2)
  {
    hide Term;
    TermAtMost(x, 2655, 3);
    TermAtMost(x, 2655, 4);
    TermAtMost(x, 2655, 5);
    TermAtMost(x, 2655, 6);
    TermAtMost(x, 2655, 7);
    TermAtMost(x, 2655, 8);
    TermAtMost(x, 2655, 9);
    TermAtMost(x, 2655, 10);
    TermAtMost(x, 2655, 11);
    TermAtMost(x, 2655, 12);
    TermAtMost(x, 2655, 13);
    TermsNonNegative(x, 2);
    TermsNonNegative(x, 3);
    ShortTail(Term(x, 2), Term(x, 3), Term(x, 4), Term(x, 5), Term(x, 6), Term(x, 7),
              Term(x, 8), Term(x, 9), Term(x, 10), Term(x, 11), Term(x, 12), Term(x, 13));
  }

  lemma LongTailOf(x: int)
    requires 1000 * x >= 2656 * S
    ensures Tail(x) > 2 * Term(x, 2)
  {
    hide Term;
    TermAtLeast(x, 2656, 2);
    TermAtLeast(x, 2656, 3);
    TermAtLeast(x, 2656, 4);
    TermAtLeast(x, 2656, 5);
    TermAtLeast(x, 2656, 6);
    TermAtLeast(x, 2656, 7);
    TermAtLeast(x, 2656, 8);
    TermAtLeast(x, 2656, 9);
    TermAtLeast(x, 2656, 10);
    TermAtLeast(x, 2656, 11);
    TermAtLeast(x, 2656, 12);
    FirstTerm(x);
    LongTail(Term(x, 2), Term(x, 3), Term(x, 4), Term(x, 5), Term(x, 6), Term(x, 7),
             Term(x, 8), Term(x, 9), Term(x, 10), Term(x, 11), Term(x, 12));
  }

  /** Up to 2.655 the first margin covers the series … */
  lemma CoversSmall(x: int)
    requires 0 <= x && 1000 * x <= 2655 * S
    ensures Small(x) && Covers(x)
  {
    hide Term, Sum;
    ShortTailOf(x);
    SumOfTwelve(x);
    TailBound(x, 12, LAST);
  }

  /** … and from 2.656 on it does not. */
  lemma CoversNoMore(x: int)
    requires 1000 * x >= 2656 * S
    ensures !Covers(x)
  {
    hide Term, Sum;
    LongTailOf(x);
    SumOfTwelve(x);
    SumMonotone(x, 12, LAST);
  }

  lemma FirstTerm(x: int)
    ensures Term(x, 1) == x && Sum(x, 1) == S + x
  {
  }

  // ----- what the verdicts mean

  /** Some floored partial sum exceeds q. */
  ghost predicate Exceeded(q: int, x: int) { exists k :: k >= 1 && q < Sum(x, k) }

  lemma ExceededBy(q: int, x: int, k: nat)
    requires k >= 1 && q < Sum(x, k)
    ensures Exceeded(q, x)
  {
  }

  /** A verdict of Above on q is right. */
  ghost predicate AboveRight(q: int, x: int) { Decide(q, x, 1).verdict == Above ==> !Exceeded(q, x) }

  /** Below is right for every x: no later partial sum is at or below q. */
  lemma {:induction false} BelowSound(q: int, x: int, i: nat)
    requires 0 <= x && 1 <= i <= BUDGET + 1 && Decide(q, x, i).verdict == Below
    ensures i <= Decide(q, x, i).iteration <= BUDGET
    ensures forall k :: k >= Decide(q, x, i).iteration ==> q < Sum(x, k)
    decreases BUDGET + 1 - i
  {
    hide Term, Sum;
    TermsNonNegative(x, i + 1);
    if q < Sum(x, i) - 3 * Term(x, i + 1) {
      forall k | k >= i ensures q < Sum(x, k) { SumMonotone(x, i, k); }
    } else {
      BelowSound(q, x, i + 1);
    }
  }

  lemma {:induction false} AboveSound(q: int, x: int, i: nat)
    requires Small(x) && Covers(x) && 1 <= i <= BUDGET + 1 && Decide(q, x, i).verdict == Above
    ensures !Exceeded(q, x)
    decreases BUDGET + 1 - i
  {
    hide Term, Sum, Covers;
    TermsNonNegative(x, i + 1);
    if q >= Sum(x, i) + 3 * Term(x, i + 1) {
      forall k | k >= 1 ensures Sum(x, k) <= q {
        if k <= i { SumMonotone(x, k, i); } else if i == 1 { FirstTail(x, k); } else { TailBound(x, i, k); }
      }
    } else {
      AboveSound(q, x, i + 1);
    }
  }

  /** A verdict of Above is right, for every q, exactly when the first margin covers the series. */
  lemma AboveExact(x: int)
    requires 0 <= x
    ensures Covers(x) <==> forall q :: AboveRight(q, x)
  {
    if Covers(x) {
      if 1000 * x >= 2656 * S { CoversNoMore(x); }
      forall q ensures AboveRight(q, x) {
        if Decide(q, x, 1).verdict == Above { AboveSound(q, x, 1); }
      }
    } else {
      FirstMarginWrong(x);
    }
  }

  /** The value at the first margin is classified Above though the series exceeds it. */
  lemma FirstMarginWrong(x: int)
    requires 0 <= x && !Covers(x)
    ensures !AboveRight(Sum(x, 1) + 3 * Term(x, 2), x)
  {
    hide Term;
    TermsNonNegative(x, 2);
    ExceededBy(Sum(x, 1) + 3 * Term(x, 2), x, LAST);
  }

  /** Where nothing is left of the series the comparison decides. */
  lemma {:induction false} DecidesBy(q: int, x: int, i: nat, last: nat)
    requires 1 <= i <= last <= BUDGET && Term(x, last) == 0
    ensures Decide(q, x, i).verdict != MaxReached && Decide(q, x, i).iteration <= last
    decreases last - i
  {
    if i < last { DecidesBy(q, x, i + 1, last); } else { ZeroStays(x, last, last + 1); }
  }

  /** Stopping early never changes the answer where the first margin covers the series: the
      comparison decides, Above means that no floored partial sum exceeds q and Below that some
      one does. */
  lemma CompareExact(q: int, x: int)
    requires 0 <= x && Covers(x)
    ensures Decide(q, x, 1).iteration <= LAST && Decide(q, x, 1).verdict == if Exceeded(q, x) then Below else Above
  {
    hide Term, Decide, Covers;
    if 1000 * x >= 2656 * S { CoversNoMore(x); }
    TermsVanish(x, LAST);
    DecidesBy(q, x, 1, LAST);
    var d := Decide(q, x, 1);
    if d.verdict == Below {
      BelowSound(q, x, 1);
      ExceededBy(q, x, d.iteration);
    } else {
      AboveSound(q, x, 1);
    }
  }

  /** At x = 3 the first margin is too small, and a value below the series is classified above it. */
  lemma MarginFailsAtThree()
    ensures Decide(18 * S, 3 * S, 1).verdict == Above
    ensures 18 * S < Sum(3 * S, 5)
  {
    var x := 3 * S;
    assert Term(x, 1) == x;
    assert Term(x, 2) == 45 * S / 10;
    assert Term(x, 3) == 45 * S / 10;
    assert Term(x, 4) == 3375 * S / 1000;
    assert Term(x, 5) == 2025 * S / 1000;
    assert Sum(x, 0) == S;
    assert Sum(x, 1) == 4 * S;
    assert Sum(x, 2) == 85 * S / 10;
    assert Sum(x, 3) == 13 * S;
    assert Sum(x, 4) == 16375 * S / 1000;
  }

  // ----- larger arguments

  predicate Moderate(x: int) { 0 <= x <= 45 * S }

  lemma TermGrowth(x: int, i: nat)
    requires Moderate(x) && i >= 2
    ensures Term(x, i) <= 64 * Term(x, i - 1)
  {
    TermsNonNegative(x, i - 1);
    TermsNonNegative(x, i);
    StepAtMost(Term(x, i - 1), x, i, 45000);
    MulLe(Term(x, i), 1, i);
  }

  lemma Pow2OfSix()
    ensures Pow2(6) == 64
  {
    Pow2OfFive();
  }

  lemma SixMore(i: nat)
    requires i >= 1
    ensures Pow2(6 * i) == 64 * Pow2(6 * (i - 1))
  {
    hide Pow2;
    Pow2OfSix();
    var n := 6 * (i - 1);
    assert 6 * i == n + 6;
    Pow2Add(n, 6);
  }

  lemma {:induction false} TermsBounded(x: int, i: nat)
    requires Moderate(x) && i >= 1
    ensures Term(x, i) <= S * Pow2(6 * i)
  {
    hide Term, Pow2;
    SixMore(i);
    if i == 1 {
      FirstTerm(x);
      MulLe(S, 64, Pow2(6 * i));
    } else {
      TermsBounded(x, i - 1);
      TermGrowth(x, i);
    }
  }

  lemma LateTermRatio(x: int, i: nat)
    requires Moderate(x) && i >= 89
    ensures 0 <= 2 * Term(x, i + 1) <= Term(x, i)
  {
    TermsNonNegative(x, i);
    TermsNonNegative(x, i + 1);
    StepAtMost(Term(x, i), x, i + 1, 45000);
    MulLe(Term(x, i + 1), 90, i + 1);
  }

  lemma {:induction false} LateTermHalves(x: int, k: nat, bound: int)
    requires Moderate(x) && Term(x, 90) <= bound
    ensures Term(x, 90 + k) * Pow2(k) <= bound
  {
    hide Term;
    if k > 0 {
      LateTermHalves(x, k - 1, bound);
      LateTermRatio(x, 89 + k);
      HalveStep(Term(x, 90 + k), Term(x, 89 + k), Pow2(k - 1), bound);
    }
  }

  /** Up to 45 the series still ends well within the budget, so the comparison always decides. */
  lemma ModerateDecides(q: int, x: int)
    requires Moderate(x)
    ensures Term(x, 745) == 0 && Decide(q, x, 1).verdict != MaxReached
  {
    hide Term, Decide, Pow2;
    TermsBounded(x, 90);
    LateTermHalves(x, 655, S * Pow2(540));
    TermsNonNegative(x, 745);
    Pow2Of115();
    Pow2Add(540, 115);
    MulLe(Pow2(540), S + 1, Pow2(115));
    ZeroBelow(Term(x, 745), Pow2(655), S * Pow2(540));
    DecidesBy(q, x, 1, 745);
  }

  lemma {:induction false} OneNotAbove(x: int, i: nat)
    requires 0 < x && 1 <= i <= BUDGET + 1
    ensures Decide(S, x, i).verdict != Above
    decreases BUDGET + 1 - i
  {
    hide Term, Sum;
    if i <= BUDGET {
      TermsNonNegative(x, i + 1);
      SumMonotone(x, 1, i);
      FirstTerm(x);
      OneNotAbove(x, i + 1);
    }
  }

  /** One lies below the series of every positive x up to 45. */
  lemma OneIsBelow(x: int)
    requires 0 < x <= 45 * S
    ensures Decide(S, x, 1).verdict == Below
  {
    hide Term, Decide;
    ModerateDecides(S, x);
    OneNotAbove(x, 1);
  }

  // ----- threshold

  /** Whatever x is, lowering q preserves `Below`: both runs see the same margins. */
  lemma {:induction false} BelowIsDownwardClosed(q: int, q': int, x: int, i: nat)
    requires q <= q' && 1 <= i <= BUDGET + 1
    requires Decide(q', x, i).verdict == Below
    ensures Decide(q, x, i).verdict == Below
    decreases BUDGET + 1 - i
  {
    if i <= BUDGET && !(q' < Sum(x, i) - 3 * Abs(Term(x, i + 1))) && !(q < Sum(x, i) - 3 * Abs(Term(x, i + 1))) {
      BelowIsDownwardClosed(q, q', x, i + 1);
    }
  }
}
