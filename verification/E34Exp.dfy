/** The finite exponential algorithm, its value at one, and bounds on the powers of that value. */
module E34Exp {
  import opened E34
  import opened Numbers

  const BUDGET: nat := 1000

  // ----- exponential

  /** The series loop from index `i` on, stopping at the first term below epsilon. */
  function Series(x: int, last: int, acc: int, i: nat, budget: nat): int
    requires i >= 1
    decreases budget - i
  {
    if i >= budget then acc
    else
      var next := Div(Mul(last, x), i * S);
      if Abs(next) < EPSILON then acc else Series(x, next, acc + next, i + 1, budget)
  }

  /** The least whole number of units that is at least `v`. */
  function Units(v: int): nat
    requires v > 0
  {
    if v % S == 0 then v / S else v / S + 1
  }

  function ExpPositive(v: int, budget: nat): int
    requires v > 0
  {
    UnitsPositive(v);
    PowNat(Series(Div(v, Units(v) * S), S, S, 1, budget), Units(v))
  }

  function Exp(v: int, budget: nat): int {
    if v == 0 then S
    else if v > 0 then ExpPositive(v, budget)
    else
      ExpAtLeastOne(-v, budget);
      Div(S, ExpPositive(-v, budget))
  }

  lemma UnitsPositive(v: int)
    requires v > 0
    ensures Units(v) >= 1
  {
  }

  lemma {:induction false} SeriesAtLeast(x: int, last: int, acc: int, i: nat, budget: nat)
    requires x >= 0 && last >= 0 && i >= 1
    ensures Series(x, last, acc, i, budget) >= acc
    decreases budget - i
  {
    if i < budget {
      MulMonotone(0, last, 0, x);
      var next := Div(Mul(last, x), i * S);
      assert next >= 0;
      SeriesAtLeast(x, next, acc + next, i + 1, budget);
    }
  }

  /** The exponential of a positive value is at least one, so inverting it is safe. */
  lemma ExpAtLeastOne(v: int, budget: nat)
    requires v > 0
    ensures ExpPositive(v, budget) >= S
  {
    UnitsPositive(v);
    var x := Div(v, Units(v) * S);
    assert x >= 0;
    SeriesAtLeast(x, S, S, 1, budget);
    PowerAtLeastOne(Series(x, S, S, 1, budget), Units(v));
  }

  method ExpWithBudget(v: int, budget: nat) returns (r: Result)
    ensures r == Ok(Exp(v, budget))
    decreases if v < 0 then 1 else 0
  {
    if v == 0 { return Ok(S); }
    if v < 0 {
      var positive := ExpWithBudget(-v, budget);
      ExpAtLeastOne(-v, budget);
      r := FloorQuotient(S * S, positive.value);
      return;
    }
    var n := Quo(v, S);
    if Rem(v, S) != 0 { n := n + 1; }
    assert n == Units(v);
    UnitsPositive(v);
    var x := FloorQuotient(v * S, n * S);
    var last, acc, i := S, S, 1;
    while i < budget
      invariant i >= 1
      invariant Series(x.value, S, S, 1, budget) == Series(x.value, last, acc, i, budget)
    {
      var next := FloorQuotient(Mul(last, x.value) * S, i * S);
      if Abs(next.value) < EPSILON { break; }
      acc, last, i := acc + next.value, next.value, i + 1;
    }
    r := Power(acc, n);
  }

  // ----- the value of e

  const E: int := 27182818284590452353602874043083282

  /** The series at one: each term is the last one divided by its index. */
  function SeriesAtOne(last: nat, acc: nat, i: nat): nat
    requires 1 <= i <= 1000
    decreases 1000 - i
  {
    if i >= 1000 || last / i < 10000000000 then acc else SeriesAtOne(last / i, acc + last / i, i + 1)
  }

  lemma TermAtOne(last: nat, i: nat)
    requires i >= 1
    ensures Div(Mul(last, S), i * S) == last / i
  {
    var q := last / i;
    QuotientIsFloor(last, i);
    ScaledBounds(q, i, last);
    FloorUnique(q, last * S, i * S);
  }

  lemma ScaledBounds(q: int, i: int, n: int)
    requires q * i <= n < (q + 1) * i
    ensures q * (i * S) <= n * S < (q + 1) * (i * S)
  {
    var a, b := q * i, (q + 1) * i;
    assert q * (i * S) == a * S && (q + 1) * (i * S) == b * S;
  }

  lemma SeriesStep(last: nat, acc: nat, i: nat)
    requires 1 <= i <= BUDGET
    ensures Series(S, last, acc, i, BUDGET) ==
            if i == BUDGET || last / i < EPSILON then acc else Series(S, last / i, acc + last / i, i + 1, BUDGET)
    ensures SeriesAtOne(last, acc, i) ==
            if i == BUDGET || last / i < EPSILON then acc else SeriesAtOne(last / i, acc + last / i, i + 1)
  {
    TermAtOne(last, i);
    hide Div, Mul;
    assert last / i >= 0;
  }

  lemma {:induction false} SeriesAtOneIsSeries(last: nat, acc: nat, i: nat)
    requires 1 <= i <= BUDGET
    ensures Series(S, last, acc, i, BUDGET) == SeriesAtOne(last, acc, i)
    decreases BUDGET - i
  {
    hide Series, SeriesAtOne;
    SeriesStep(last, acc, i);
    if i < BUDGET && last / i >= EPSILON { SeriesAtOneIsSeries(last / i, acc + last / i, i + 1); }
  }

  lemma SeriesAtOneValue()
    ensures SeriesAtOne(S, S, 1) == E
  {
    assert SeriesAtOne(16117375710, 27182818284590452353602874043083282, 25) == E;
    assert SeriesAtOne(386817017063, 27182818284590452353602857925707572, 24) == E;
    assert SeriesAtOne(8896791392450, 27182818284590452353602471108690509, 23) == E;
    assert SeriesAtOne(195729410633912, 27182818284590452353593574317298059, 22) == E;
    assert SeriesAtOne(4110317623312164, 27182818284590452353397844906664147, 21) == E;
    assert SeriesAtOne(82206352466243297, 27182818284590452349287527283351983, 20) == E;
    assert SeriesAtOne(1561920696858622646, 27182818284590452267081174817108686, 19) == E;
    assert SeriesAtOne(28114572543455207631, 27182818284590450705160477958486040, 18) == E;
    assert SeriesAtOne(477947733238738529743, 27182818284590422590587934503278409, 17) == E;
    assert SeriesAtOne(7647163731819816475901, 27182818284589944642854695764748666, 16) == E;
    assert SeriesAtOne(114707455977297247138516, 27182818284582297479122875948272765, 15) == E;
    assert SeriesAtOne(1605904383682161459939237, 27182818284467590023145578701134249, 14) == E;
    assert SeriesAtOne(20876756987868098979210090, 27182818282861685639463417241195012, 13) == E;
    assert SeriesAtOne(250521083854417187750521083, 27182818261984928651595318261984922, 12) == E;
    assert SeriesAtOne(2755731922398589065255731922, 27182818011463844797178130511463839, 11) == E;
    assert SeriesAtOne(27557319223985890652557319223, 27182815255731922398589065255731917, 10) == E;
    assert SeriesAtOne(248015873015873015873015873015, 27182787698412698412698412698412694, 9) == E;
    assert SeriesAtOne(1984126984126984126984126984126, 27182539682539682539682539682539679, 8) == E;
    assert SeriesAtOne(13888888888888888888888888888888, 27180555555555555555555555555555553, 7) == E;
    assert SeriesAtOne(83333333333333333333333333333333, 27166666666666666666666666666666665, 6) == E;
    assert SeriesAtOne(416666666666666666666666666666666, 27083333333333333333333333333333332, 5) == E;
    assert SeriesAtOne(1666666666666666666666666666666666, 26666666666666666666666666666666666, 4) == E;
    assert SeriesAtOne(5000000000000000000000000000000000, 25000000000000000000000000000000000, 3) == E;
    assert SeriesAtOne(10000000000000000000000000000000000, 20000000000000000000000000000000000, 2) == E;
    assert SeriesAtOne(10000000000000000000000000000000000, 10000000000000000000000000000000000, 1) == E;
  }

  lemma ExpOfOne()
    ensures Exp(S, BUDGET) == E
  {
    SeriesAtOneIsSeries(S, S, 1);
    SeriesAtOneValue();
    assert Units(S) == 1;
    assert Div(S, 1 * S) == S;
    assert PowNat(E, 1) == E by { assert PowNat(E, 0) == S; }
  }

  // ----- integer powers of e

  function PowE(n: int): (r: int)
    ensures Power(E, n) == Ok(r)
    ensures n >= 0 ==> r >= S
    ensures n < 0 ==> r >= 0
  {
    PowerAtLeastOne(E, if n >= 0 then n else -n);
    if n >= 0 then PowNat(E, n) else S * S / PowNat(E, -n)
  }

  /** Every power of e from the `m`th on is at least `c`. */
  ghost predicate AtLeast(m: nat, c: int) {
    forall j: nat :: j >= m ==> PowNat(E, j) >= c
  }

  lemma AtLeastDouble(m: nat, c: int, c': int)
    requires m >= 1 && AtLeast(m, c) && 0 <= c && 0 <= c' * S <= c * c
    ensures AtLeast(2 * m, c')
  {
    forall j: nat | j >= 2 * m ensures PowNat(E, j) >= c' {
      var e := j / 2;
      MulMonotone(c, PowNat(E, e), c, PowNat(E, e));
      assert PowNat(E, 2 * e) >= c';
      if j % 2 == 1 {
        assert j - 1 == 2 * e && PowNat(E, j) == Mul(E, PowNat(E, 2 * e));
        GrowsByE(PowNat(E, 2 * e));
      }
    }
  }

  lemma GrowsByE(p: int)
    requires p >= 0
    ensures Mul(E, p) >= 2 * p
  {
  }

  lemma AtLeastNext(m: nat, c: int, d: int, c': int)
    requires m >= 1 && AtLeast(2 * m, c) && AtLeast(m + 1, d)
    requires 0 <= c && 0 <= d && 0 <= c' * S <= E * c && c' * S <= d * d
    ensures AtLeast(2 * m + 1, c')
  {
    forall j: nat | j >= 2 * m + 1 ensures PowNat(E, j) >= c' {
      if j % 2 == 1 {
        MulMonotone(E, E, c, PowNat(E, j - 1));
      } else {
        assert j / 2 >= m + 1;
        MulMonotone(d, PowNat(E, j / 2), d, PowNat(E, j / 2));
      }
    }
  }

  lemma AtLeastFirst()
    ensures AtLeast(1, 27182800000000000000000000000000000)
  {
    forall j: nat | j >= 1 ensures PowNat(E, j) >= E { PowAtLeastE(j); }
  }

  lemma {:induction false} PowAtLeastE(j: nat)
    requires j >= 1
    ensures PowNat(E, j) >= E
    decreases j
  {
    if j % 2 == 0 {
      PowAtLeastE(j / 2);
      MulMonotone(E, PowNat(E, j / 2), E, PowNat(E, j / 2));
    } else {
      PowerAtLeastOne(E, j - 1);
      MulMonotone(E, E, S, PowNat(E, j - 1));
    }
  }

  /** From the 78th on the powers of e exceed half the square of the scale. */
  lemma LargePowers(j: nat)
    requires j >= 78
    ensures 2 * PowNat(E, j) > S * S
  {
    AtLeastFirst();
    AtLeastDouble(1, 27182800000000000000000000000000000, 73890400000000000000000000000000000);
    AtLeastNext(1, 73890400000000000000000000000000000, 73890400000000000000000000000000000,
                200854000000000000000000000000000000);
    AtLeastDouble(2, 73890400000000000000000000000000000, 545979000000000000000000000000000000);
    AtLeastNext(2, 545979000000000000000000000000000000, 200854000000000000000000000000000000,
                1484120000000000000000000000000000000);
    AtLeastDouble(4, 545979000000000000000000000000000000, 29809300000000000000000000000000000000);
    AtLeastDouble(5, 1484120000000000000000000000000000000, 220261000000000000000000000000000000000);
    AtLeastNext(4, 29809300000000000000000000000000000000, 1484120000000000000000000000000000000,
                81030000000000000000000000000000000000);
    AtLeastDouble(9, 81030000000000000000000000000000000000, 656586000000000000000000000000000000000000);
    AtLeastDouble(10, 220261000000000000000000000000000000000, 4851490000000000000000000000000000000000000);
    AtLeastNext(9, 656586000000000000000000000000000000000000, 220261000000000000000000000000000000000,
                1784780000000000000000000000000000000000000);
    AtLeastDouble(19, 1784780000000000000000000000000000000000000, 318543000000000000000000000000000000000000000000000);
    AtLeastNext(19, 318543000000000000000000000000000000000000000000000, 4851490000000000000000000000000000000000000,
                865889000000000000000000000000000000000000000000000);
    AtLeastDouble(39, 865889000000000000000000000000000000000000000000000,
                  74976300000000000000000000000000000000000000000000000000000000000000);
  }

  lemma {:induction false} PowRatio(k: nat)
    ensures Pow(E, k) * Pow(10000, k) <= Pow(27183, k) * Pow(S, k)
  {
    if k > 0 {
      PowRatio(k - 1);
      PowPositive(E, k - 1);
      PowPositive(10000, k - 1);
      Regroup(E, Pow(E, k - 1), 10000, Pow(10000, k - 1));
      Regroup(27183, Pow(27183, k - 1), S, Pow(S, k - 1));
      MulLe(Pow(E, k - 1) * Pow(10000, k - 1), E * 10000, 27183 * S);
      MulLe(27183 * S, Pow(E, k - 1) * Pow(10000, k - 1), Pow(27183, k - 1) * Pow(S, k - 1));
    }
  }

  lemma Regroup(a: int, b: int, c: int, d: int)
    ensures (a * b) * (c * d) == (a * c) * (b * d)
  {
  }

  lemma {:induction false} RatioBelow(k: nat)
    requires k <= 78
    ensures Pow(27183, k) <= S * Pow(10000, k)
    decreases 78 - k
  {
    if k == 78 {
      RatioAt78();
    } else {
      RatioBelow(k + 1);
      PowPositive(10000, k);
      assert 27183 * Pow(27183, k) <= 10000 * (S * Pow(10000, k));
    }
  }

  lemma RatioAt78()
    ensures Pow(27183, 78) <= S * Pow(10000, 78)
  {
    Numerator13();
    Denominator13();
    var r, t := Pow(27183, 13), Pow(10000, 13);
    PowAdd(27183, 13, 13);
    PowAdd(27183, 26, 13);
    PowAdd(27183, 39, 39);
    PowAdd(10000, 13, 13);
    PowAdd(10000, 26, 13);
    PowAdd(10000, 39, 39);
  }

  lemma Numerator13()
    ensures Pow(27183, 13) == 4424518411207277447348303649549934855329607569535182423663
  {
    assert Pow(27183, 3) == 20085939737487 by { assert Pow(27183, 1) == 27183; }
    assert Pow(27183, 6) == 403444975137959334473075169 by { PowAdd(27183, 3, 3); }
    assert Pow(27183, 12) == 162767847964068625514045677428905376718155007524378561 by { PowAdd(27183, 6, 6); }
  }

  lemma Denominator13()
    ensures Pow(10000, 13) == 10000000000000000000000000000000000000000000000000000
  {
    assert Pow(10000, 3) == 1000000000000 by { assert Pow(10000, 1) == 10000; }
    assert Pow(10000, 6) == 1000000000000000000000000 by { PowAdd(10000, 3, 3); }
    assert Pow(10000, 12) == 1000000000000000000000000000000000000000000000000 by { PowAdd(10000, 6, 6); }
  }

  /** The powers of e up to the 78th do not exceed the square of the scale. */
  lemma SmallPowers(k: nat)
    requires 1 <= k <= 78
    ensures PowNat(E, k) <= S * S
  {
    PowerUpper(E, k);
    PowRatio(k);
    RatioBelow(k);
    PowPositive(10000, k);
    PowPositive(S, k - 1);
    CancelScale(PowNat(E, k), Pow(S, k - 1), Pow(10000, k), Pow(E, k), Pow(27183, k));
  }

  lemma CancelScale(p: int, s: int, d: int, e: int, r: int)
    requires s > 0 && d > 0 && p * s <= e && e * d <= r * (S * s) && r <= S * d
    ensures p <= S * S
  {
    var w := s * d;
    assert w > 0;
    assert p * w <= e * d by { MulLe(d, p * s, e); assert p * w == p * s * d; }
    assert r * (S * s) <= (S * S) * w by { MulLe(S * s, r, S * d); assert (S * d) * (S * s) == (S * S) * w; }
    assert (p - S * S) * w <= 0;
    NonPositiveFactor(p - S * S, w);
  }

  lemma NonPositiveFactor(a: int, w: int)
    requires w > 0 && a * w <= 0
    ensures a <= 0
  {
  }

  /** No later power of e is below the `m`th, for the exponents that matter here. */
  lemma PowersGrow()
    ensures AtLeast(2, PowNat(E, 2)) && AtLeast(3, PowNat(E, 3)) && AtLeast(45, PowNat(E, 45))
    ensures PowNat(E, 3) == 200855369231876677409285281683986759
    ensures PowNat(E, 45) == 349342710574850953480347584601922490820298372275327528
  {
    hide PowNat, AtLeast;
    SmallPowerValues();
    PowersGrowFirst();
    AtLeastDouble(5, 1484131591025766034211155617380691623, 220264657948067165169578952126255666392);
    AtLeastNext(5, 220264657948067165169578952126255666392,
                4034287934927351226083871208418195503,
                598741417151978184553264695480106815830);
    AtLeastDouble(6, 4034287934927351226083871208418195503, 1627547914190039208080051567278230989952);
    AtLeastDouble(11, 598741417151978184553264695480106815830, 35849128461315915616811580007577148412968556);
    AtLeastNext(11, 35849128461315915616811580007577148412968556,
                1627547914190039208080051567278230989952,
                97448034462489026000346271568167829445841427);
    AtLeastDouble(22, 35849128461315915616811580007577148412968556,
                  128516001143593082758092856852497053470185678592085632);
    AtLeastNext(22, 128516001143593082758092856852497053470185678592085632,
                97448034462489026000346271568167829445841427,
                349342710574850953480347584601922490820298372275327528);
  }

  lemma FirstPowerLeast()
    ensures PowNat(E, 1) == E && AtLeast(1, E)
  {
    forall j: nat | j >= 1 ensures PowNat(E, j) >= E { PowAtLeastE(j); }
    assert PowNat(E, 0) == S;
  }

  lemma PowersGrowFirst()
    ensures AtLeast(2, 73890560989306502272304270960842165) && AtLeast(3, 200855369231876677409285281683986759)
    ensures AtLeast(5, 1484131591025766034211155617380691623) && AtLeast(6, 4034287934927351226083871208418195503)
  {
    hide PowNat, AtLeast;
    FirstPowerLeast();
    AtLeastDouble(1, E, 73890560989306502272304270960842165);
    AtLeastNext(1, 73890560989306502272304270960842165,
                73890560989306502272304270960842165,
                200855369231876677409285281683986759);
    AtLeastDouble(2, 73890560989306502272304270960842165, 545981500331442390781102558163750692);
    AtLeastNext(2, 545981500331442390781102558163750692,
                200855369231876677409285281683986759,
                1484131591025766034211155617380691623);
    AtLeastDouble(3, 200855369231876677409285281683986759, 4034287934927351226083871208418195503);
  }

  lemma SmallPowerValues()
    ensures PowNat(E, 2) == 73890560989306502272304270960842165
    ensures PowNat(E, 3) == 200855369231876677409285281683986759
    ensures PowNat(E, 45) == 349342710574850953480347584601922490820298372275327528
  {
    assert PowNat(E, 0) == S;
    assert PowNat(E, 1) == E;
    assert PowNat(E, 2) == 73890560989306502272304270960842165;
    assert PowNat(E, 4) == 545981500331442390781102558163750692;
    assert PowNat(E, 5) == 1484131591025766034211155617380691623;
    assert PowNat(E, 10) == 220264657948067165169578952126255666392;
    assert PowNat(E, 11) == 598741417151978184553264695480106815830;
    assert PowNat(E, 22) == 35849128461315915616811580007577148412968556;
    assert PowNat(E, 44) == 128516001143593082758092856852497053470185678592085632;
  }
}
