/** Leader selection over a cumulative stake distribution (CIP-0177). */
module Tachys {
  import opened Common
  import opened Numbers

  /** A pool identifier is the number its 28 bytes spell, whose order is that of the bytes. */
  datatype Pool = Pool(id: nat, stake: nat)

  datatype Interval = Interval(id: nat, upper: nat)

  datatype Selector = Selector(intervals: seq<Interval>, total: nat)

  // ----- sorting

  function Insert(p: Pool, ps: seq<Pool>): seq<Pool> {
    if ps == [] || p.id <= ps[0].id then [p] + ps else [ps[0]] + Insert(p, ps[1..])
  }

  function SortById(ps: seq<Pool>): seq<Pool> {
    if ps == [] then [] else Insert(ps[0], SortById(ps[1..]))
  }

  predicate Sorted(ps: seq<Pool>) { forall i, j :: 0 <= i < j < |ps| ==> ps[i].id <= ps[j].id }

  predicate Increasing(ps: seq<Pool>) { forall i, j :: 0 <= i < j < |ps| ==> ps[i].id < ps[j].id }

  lemma {:induction false} InsertPermutes(p: Pool, ps: seq<Pool>)
    ensures multiset(Insert(p, ps)) == multiset(ps) + multiset{p}
  {
    if ps != [] && p.id > ps[0].id {
      InsertPermutes(p, ps[1..]);
      assert ps == [ps[0]] + ps[1..];
    }
  }

  lemma {:induction false} InsertMembers(p: Pool, ps: seq<Pool>, q: Pool)
    requires q in Insert(p, ps)
    ensures q == p || q in ps
  {
    if ps != [] && p.id > ps[0].id && q != ps[0] { InsertMembers(p, ps[1..], q); }
  }

  lemma {:induction false} InsertSorted(p: Pool, ps: seq<Pool>)
    requires Sorted(ps)
    ensures Sorted(Insert(p, ps))
  {
    if ps != [] && p.id > ps[0].id {
      InsertSorted(p, ps[1..]);
      forall q | q in Insert(p, ps[1..]) ensures ps[0].id <= q.id { InsertMembers(p, ps[1..], q); }
    }
  }

  lemma {:induction false} SortsById(ps: seq<Pool>)
    ensures Sorted(SortById(ps)) && multiset(SortById(ps)) == multiset(ps)
  {
    if ps != [] {
      hide Insert;
      SortsById(ps[1..]);
      InsertSorted(ps[0], SortById(ps[1..]));
      InsertPermutes(ps[0], SortById(ps[1..]));
      assert ps == [ps[0]] + ps[1..];
    }
  }

  lemma SameLength(a: seq<Pool>, b: seq<Pool>)
    requires multiset(a) == multiset(b)
    ensures |a| == |b|
  {
    assert |multiset(a)| == |a| && |multiset(b)| == |b|;
  }

  lemma SameMembers(a: seq<Pool>, b: seq<Pool>, p: Pool)
    requires multiset(a) == multiset(b) && p in a
    ensures p in b
  {
    assert p in multiset(a);
  }

  lemma TailPermutes(a: seq<Pool>, b: seq<Pool>)
    requires a != [] && b != [] && a[0] == b[0] && multiset(a) == multiset(b)
    ensures multiset(a[1..]) == multiset(b[1..])
  {
    assert a == [a[0]] + a[1..] && b == [b[0]] + b[1..];
    assert multiset(a[1..]) == multiset(a) - multiset{a[0]};
    assert multiset(b[1..]) == multiset(b) - multiset{b[0]};
  }

  /** Identifiers that differ leave only one sorted order. */
  lemma {:induction false} OneOrder(a: seq<Pool>, b: seq<Pool>)
    requires Increasing(a) && Sorted(b) && multiset(a) == multiset(b)
    ensures a == b
  {
    SameLength(a, b);
    if a != [] {
      SameMembers(a, b, a[0]);
      SameMembers(b, a, b[0]);
      TailPermutes(a, b);
      OneOrder(a[1..], b[1..]);
      assert a == [a[0]] + a[1..] && b == [b[0]] + b[1..];
    }
  }

  // ----- preparing a distribution

  /** Stake of the first `n` pools. */
  function Upto(ps: seq<Pool>, n: nat): nat
    requires n <= |ps|
  {
    if n == 0 then 0 else Upto(ps, n - 1) + ps[n - 1].stake
  }

  function Stakes(ps: seq<Pool>): nat { if ps == [] then 0 else ps[0].stake + Stakes(ps[1..]) }

  predicate AllStaked(ps: seq<Pool>) { forall i :: 0 <= i < |ps| ==> ps[i].stake > 0 }

  predicate DistinctIds(ps: seq<Pool>) { forall i, j :: 0 <= i < j < |ps| ==> ps[i].id != ps[j].id }

  /** What the specification asks of a distribution. */
  predicate Acceptable(ps: seq<Pool>, total: nat) {
    ps != [] && total > 0 && AllStaked(ps) && DistinctIds(ps) && Stakes(ps) == total
  }

  function Intervals(ordered: seq<Pool>, n: nat): seq<Interval>
    requires n <= |ordered|
  {
    if n == 0 then [] else Intervals(ordered, n - 1) + [Interval(ordered[n - 1].id, Upto(ordered, n))]
  }

  /** The selector for pools in order of identifier. */
  function Cumulative(ordered: seq<Pool>, total: nat): Selector {
    Selector(Intervals(ordered, |ordered|), total)
  }

  lemma {:induction false} IntervalAt(ordered: seq<Pool>, n: nat, i: nat)
    requires n <= |ordered|
    ensures |Intervals(ordered, n)| == n
    ensures i < n ==> Intervals(ordered, n)[i] == Interval(ordered[i].id, Upto(ordered, i + 1))
  {
    if n > 0 { IntervalAt(ordered, n - 1, i); }
  }

  function Prepared(ps: seq<Pool>, total: nat): Option<Selector> {
    if Acceptable(ps, total) then Some(Cumulative(SortById(ps), total)) else None
  }

  lemma {:induction false} UptoMonotone(ps: seq<Pool>, i: nat, j: nat)
    requires i <= j <= |ps|
    ensures Upto(ps, i) <= Upto(ps, j)
    ensures AllStaked(ps) && i < j ==> Upto(ps, i) < Upto(ps, j)
    decreases j
  {
    if i < j { UptoMonotone(ps, i, j - 1); }
  }

  lemma {:induction false} UptoShift(ps: seq<Pool>, n: nat)
    requires 0 < n <= |ps|
    ensures Upto(ps, n) == ps[0].stake + Upto(ps[1..], n - 1)
  {
    if n > 1 { UptoShift(ps, n - 1); }
  }

  lemma {:induction false} StakesUpto(ps: seq<Pool>)
    ensures Stakes(ps) == Upto(ps, |ps|)
  {
    if ps != [] {
      StakesUpto(ps[1..]);
      UptoShift(ps, |ps|);
    }
  }

  lemma {:induction false} InsertStakes(p: Pool, ps: seq<Pool>)
    ensures Stakes(Insert(p, ps)) == p.stake + Stakes(ps)
  {
    if ps == [] || p.id <= ps[0].id {
      assert ([p] + ps)[1..] == ps;
    } else {
      InsertStakes(p, ps[1..]);
      assert ([ps[0]] + Insert(p, ps[1..]))[1..] == Insert(p, ps[1..]);
    }
  }

  lemma {:induction false} SortStakes(ps: seq<Pool>)
    ensures Stakes(SortById(ps)) == Stakes(ps)
  {
    if ps != [] {
      SortStakes(ps[1..]);
      InsertStakes(ps[0], SortById(ps[1..]));
    }
  }

  predicate Absent(id: nat, ps: seq<Pool>) { forall i :: 0 <= i < |ps| ==> ps[i].id != id }

  lemma DistinctCons(p: Pool, ps: seq<Pool>)
    ensures DistinctIds([p] + ps) <==> Absent(p.id, ps) && DistinctIds(ps)
  {
    var all := [p] + ps;
    if DistinctIds(all) {
      forall i | 0 <= i < |ps| ensures ps[i].id != p.id { assert all[i + 1] == ps[i] && all[0] == p; }
      forall i, j | 0 <= i < j < |ps| ensures ps[i].id != ps[j].id {
        assert all[i + 1] == ps[i] && all[j + 1] == ps[j];
      }
    }
  }

  lemma {:induction false} InsertAbsent(p: Pool, ps: seq<Pool>, id: nat)
    ensures Absent(id, Insert(p, ps)) <==> p.id != id && Absent(id, ps)
  {
    if ps == [] || p.id <= ps[0].id {
      AbsentCons(id, p, ps);
    } else {
      InsertAbsent(p, ps[1..], id);
      AbsentCons(id, ps[0], Insert(p, ps[1..]));
      AbsentCons(id, ps[0], ps[1..]);
      assert ps == [ps[0]] + ps[1..];
    }
  }

  lemma AbsentCons(id: nat, p: Pool, ps: seq<Pool>)
    ensures Absent(id, [p] + ps) <==> p.id != id && Absent(id, ps)
  {
    var all := [p] + ps;
    if Absent(id, all) {
      assert all[0] == p;
      forall i | 0 <= i < |ps| ensures ps[i].id != id { assert all[i + 1] == ps[i]; }
    }
  }

  lemma {:induction false} InsertDistinct(p: Pool, ps: seq<Pool>)
    ensures DistinctIds(Insert(p, ps)) <==> Absent(p.id, ps) && DistinctIds(ps)
  {
    if ps == [] || p.id <= ps[0].id {
      DistinctCons(p, ps);
    } else {
      InsertDistinct(p, ps[1..]);
      InsertAbsent(p, ps[1..], ps[0].id);
      DistinctCons(ps[0], Insert(p, ps[1..]));
      DistinctCons(ps[0], ps[1..]);
      AbsentCons(p.id, ps[0], ps[1..]);
      assert ps == [ps[0]] + ps[1..];
    }
  }

  lemma {:induction false} SortDistinct(ps: seq<Pool>)
    ensures DistinctIds(SortById(ps)) <==> DistinctIds(ps)
    ensures forall id: nat :: Absent(id, SortById(ps)) <==> Absent(id, ps)
  {
    if ps != [] {
      hide Insert, DistinctIds, Absent;
      var rest := SortById(ps[1..]);
      SortDistinct(ps[1..]);
      InsertDistinct(ps[0], rest);
      DistinctCons(ps[0], ps[1..]);
      assert ps == [ps[0]] + ps[1..];
      forall id: nat ensures Absent(id, SortById(ps)) <==> Absent(id, ps) {
        InsertAbsent(ps[0], rest, id);
        AbsentCons(id, ps[0], ps[1..]);
      }
    }
  }

  /** The conditions as they are checked on the sorted pools. */
  predicate Accepts(ordered: seq<Pool>, total: nat) {
    AllStaked(ordered) && Increasing(ordered) && Stakes(ordered) == total
  }

  lemma AllStakedMembers(ps: seq<Pool>, qs: seq<Pool>)
    requires AllStaked(ps) && multiset(ps) == multiset(qs)
    ensures AllStaked(qs)
  {
    forall i | 0 <= i < |qs| ensures qs[i].stake > 0 { SameMembers(qs, ps, qs[i]); }
  }

  lemma AcceptableSorted(ps: seq<Pool>, total: nat)
    ensures Acceptable(ps, total) <==> ps != [] && total > 0 && Accepts(SortById(ps), total)
  {
    hide SortById, Stakes;
    var ordered := SortById(ps);
    SortsById(ps);
    SortStakes(ps);
    SortDistinct(ps);
    if AllStaked(ps) { AllStakedMembers(ps, ordered); }
    if AllStaked(ordered) { AllStakedMembers(ordered, ps); }
    assert Sorted(ordered) ==> (DistinctIds(ordered) <==> Increasing(ordered));
  }

  /** The order in which the pools are given does not matter: not for being accepted, and not for
      the selector that results. */
  lemma OrderIndependent(ps: seq<Pool>, qs: seq<Pool>, total: nat)
    requires multiset(ps) == multiset(qs)
    ensures Prepared(ps, total) == Prepared(qs, total)
  {
    hide SortById, Acceptable, Cumulative;
    SameLength(ps, qs);
    SortsById(ps);
    SortsById(qs);
    AcceptableSorted(ps, total);
    AcceptableSorted(qs, total);
    if Acceptable(ps, total) { OneOrder(SortById(ps), SortById(qs)); }
    if Acceptable(qs, total) { OneOrder(SortById(qs), SortById(ps)); }
  }

  /** The defect at one pool that the constructor's loop stops at. */
  lemma RejectsAt(ordered: seq<Pool>, total: nat, i: nat)
    requires i < |ordered|
    requires ordered[i].stake == 0 || (i > 0 && ordered[i - 1].id == ordered[i].id) || Upto(ordered, i + 1) > total
    ensures !Accepts(ordered, total)
  {
    StakesUpto(ordered);
    UptoMonotone(ordered, i + 1, |ordered|);
  }

  predicate Checked(ordered: seq<Pool>, n: nat)
    requires n <= |ordered|
  {
    && (forall j :: 0 <= j < n ==> ordered[j].stake > 0)
    && (forall j :: 0 < j < n ==> ordered[j - 1].id != ordered[j].id)
  }

  lemma AcceptsChecked(ordered: seq<Pool>, total: nat)
    requires Sorted(ordered) && Checked(ordered, |ordered|)
    ensures Accepts(ordered, total) <==> Upto(ordered, |ordered|) == total
  {
    hide Stakes, Upto;
    StakesUpto(ordered);
    NeighboursIncrease(ordered);
  }

  /** The constructor's loop over the sorted pools. */
  method Accumulate(ordered: seq<Pool>, total: nat) returns (r: Option<Selector>)
    requires Sorted(ordered) && total < TWO_TO_64
    ensures r == if Accepts(ordered, total) then Some(Cumulative(ordered, total)) else None
  {
    hide Accepts, Sorted;
    var intervals: seq<Interval> := [];
    var cumulative := 0;
    for i := 0 to |ordered|
      invariant cumulative == Upto(ordered, i) < TWO_TO_64 && Checked(ordered, i)
      invariant intervals == Intervals(ordered, i)
    {
      var pool := ordered[i];
      if pool.stake == 0 || (i > 0 && ordered[i - 1].id == pool.id) || cumulative + pool.stake >= TWO_TO_64 {
        RejectsAt(ordered, total, i);
        return None;
      }
      cumulative := cumulative + pool.stake;
      intervals := intervals + [Interval(pool.id, cumulative)];
    }
    AcceptsChecked(ordered, total);
    if cumulative != total { return None; }
    return Some(Selector(intervals, total));
  }

  /** The constructor accepts exactly the distributions that the specification does. */
  method NewSelector(ps: seq<Pool>, total: nat) returns (r: Option<Selector>)
    requires total < TWO_TO_64
    ensures r == Prepared(ps, total)
  {
    hide SortById, Acceptable, Cumulative, Accepts;
    AcceptableSorted(ps, total);
    SortsById(ps);
    if |ps| == 0 || total == 0 { return None; }
    r := Accumulate(SortById(ps), total);
  }

  lemma NeighboursIncrease(ps: seq<Pool>)
    requires Sorted(ps) && forall j :: 0 < j < |ps| ==> ps[j - 1].id != ps[j].id
    ensures Increasing(ps)
  {
    forall i, j | 0 <= i < j < |ps| ensures ps[i].id < ps[j].id {
      assert ps[i].id <= ps[j - 1].id || i == j - 1;
      assert ps[j - 1].id != ps[j].id;
    }
  }

  // ----- choosing a leader

  function Upper(sel: Selector, i: nat): nat
    requires i < |sel.intervals|
  {
    sel.intervals[i].upper
  }

  function Lower(sel: Selector, i: nat): nat
    requires i < |sel.intervals|
  {
    if i == 0 then 0 else Upper(sel, i - 1)
  }

  /** Boundaries that increase from zero to the total. */
  predicate Proper(sel: Selector) {
    && sel.intervals != [] && sel.total > 0
    && sel.intervals[0].upper > 0 && sel.intervals[|sel.intervals| - 1].upper == sel.total
    && (forall i, j :: 0 <= i < j < |sel.intervals| ==> sel.intervals[i].upper < sel.intervals[j].upper)
  }

  /** The sample falls in the interval of pool `i`. */
  predicate Wins(sel: Selector, i: nat, sample: nat)
    requires i < |sel.intervals|
  {
    Lower(sel, i) * TWO_TO_256 <= sample * sel.total < Upper(sel, i) * TWO_TO_256
  }

  lemma CumulativeProper(ordered: seq<Pool>, total: nat)
    requires Accepts(ordered, total) && ordered != [] && total > 0
    ensures Proper(Cumulative(ordered, total))
  {
    hide Intervals, Stakes, Upto;
    var n := |ordered|;
    var sel := Cumulative(ordered, total);
    StakesUpto(ordered);
    IntervalAt(ordered, n, 0);
    IntervalAt(ordered, n, n - 1);
    UptoMonotone(ordered, 0, 1);
    forall i, j | 0 <= i < j < n ensures sel.intervals[i].upper < sel.intervals[j].upper {
      IntervalAt(ordered, n, i);
      IntervalAt(ordered, n, j);
      UptoMonotone(ordered, i + 1, j + 1);
    }
  }

  lemma CumulativeWidth(ordered: seq<Pool>, total: nat, i: nat)
    requires i < |ordered|
    ensures var sel := Cumulative(ordered, total);
            && |sel.intervals| == |ordered| && sel.intervals[i].id == ordered[i].id
            && Upper(sel, i) - Lower(sel, i) == ordered[i].stake
  {
    hide Intervals;
    IntervalAt(ordered, |ordered|, i);
    if i > 0 { IntervalAt(ordered, |ordered|, i - 1); }
  }

  /** An accepted distribution: proper boundaries, the pools in order of identifier, and each
      interval as wide as its pool's stake. */
  lemma PreparedProper(ps: seq<Pool>, total: nat)
    requires Acceptable(ps, total)
    ensures var sel := Cumulative(SortById(ps), total);
            && Proper(sel) && |sel.intervals| == |SortById(ps)| == |ps|
            && forall i :: 0 <= i < |ps| ==>
                 sel.intervals[i].id == SortById(ps)[i].id && Upper(sel, i) - Lower(sel, i) == SortById(ps)[i].stake
  {
    hide SortById, Acceptable, Cumulative, Accepts, Upper, Lower;
    var ordered := SortById(ps);
    AcceptableSorted(ps, total);
    SortsById(ps);
    SameLength(ordered, ps);
    CumulativeProper(ordered, total);
    forall i | 0 <= i < |ps|
      ensures var sel := Cumulative(ordered, total);
              && |sel.intervals| == |ordered| && sel.intervals[i].id == ordered[i].id
              && Upper(sel, i) - Lower(sel, i) == ordered[i].stake
    {
      CumulativeWidth(ordered, total, i);
    }
    CumulativeWidth(ordered, total, 0);
  }

  /** No sample falls in two intervals. */
  lemma WinnerUnique(sel: Selector, i: nat, j: nat, sample: nat)
    requires Proper(sel) && i < |sel.intervals| && j < |sel.intervals| && Wins(sel, i, sample) && Wins(sel, j, sample)
    ensures i == j
  {
    if i != j { BoundariesOrdered(sel, i, j); }
  }

  lemma BoundariesOrdered(sel: Selector, i: nat, j: nat)
    requires Proper(sel) && i < |sel.intervals| && j < |sel.intervals| && i != j
    ensures Upper(sel, i) <= Lower(sel, j) || Upper(sel, j) <= Lower(sel, i)
  {
  }

  /** Linear scan: the first interval whose upper boundary is above the sample. */
  function Scan(sel: Selector, sample: nat, from: nat): nat
    requires from <= |sel.intervals|
    decreases |sel.intervals| - from
  {
    if from == |sel.intervals| || sample * sel.total < Upper(sel, from) * TWO_TO_256 then from
    else Scan(sel, sample, from + 1)
  }

  lemma {:induction false} ScanFinds(sel: Selector, sample: nat, from: nat, i: nat)
    requires from <= i < |sel.intervals| && sample * sel.total < Upper(sel, i) * TWO_TO_256
    requires forall k :: from <= k < i ==> Upper(sel, k) * TWO_TO_256 <= sample * sel.total
    ensures Scan(sel, sample, from) == i
    decreases i - from
  {
    if from < i {
      assert Upper(sel, from) * TWO_TO_256 <= sample * sel.total;
      ScanFinds(sel, sample, from + 1, i);
    }
  }

  /** Binary search, as the library's search does it. */
  method Search(sel: Selector, sample: nat) returns (index: nat)
    requires Proper(sel) && sample < TWO_TO_256
    ensures index < |sel.intervals| && Wins(sel, index, sample) && index == Scan(sel, sample, 0)
  {
    var scaled := sample * sel.total;
    BelowTotal(sample, sel.total);
    assert scaled < Upper(sel, |sel.intervals| - 1) * TWO_TO_256;
    var i, j := 0, |sel.intervals|;
    while i < j
      invariant 0 <= i <= j <= |sel.intervals|
      invariant forall k :: 0 <= k < i ==> Upper(sel, k) * TWO_TO_256 <= scaled
      invariant j < |sel.intervals| ==> scaled < Upper(sel, j) * TWO_TO_256
      invariant i < |sel.intervals|
    {
      var h := (i + j) / 2;
      if scaled < Upper(sel, h) * TWO_TO_256 {
        j := h;
      } else {
        BoundaryPassed(sel, scaled, h);
        i := h + 1;
      }
    }
    ScanFinds(sel, sample, 0, i);
    return i;
  }

  lemma BoundaryPassed(sel: Selector, scaled: nat, h: nat)
    requires Proper(sel) && h < |sel.intervals| && Upper(sel, h) * TWO_TO_256 <= scaled < sel.total * TWO_TO_256
    ensures h < |sel.intervals| - 1
    ensures forall k :: 0 <= k <= h ==> Upper(sel, k) * TWO_TO_256 <= scaled
  {
    forall k | 0 <= k <= h ensures Upper(sel, k) * TWO_TO_256 <= scaled { assert Upper(sel, k) <= Upper(sel, h); }
  }

  lemma BelowTotal(sample: nat, total: nat)
    requires sample < TWO_TO_256 && total > 0
    ensures sample * total < total * TWO_TO_256
  {
  }

  /** The leader for a 32-byte sample; an uninitialised selector or another length is an error. */
  method LeaderForSample(sel: Selector, sample: seq<byte>) returns (r: Option<nat>)
    requires Proper(sel) || sel.intervals == [] || sel.total == 0
    ensures r.Some? <==> sel.intervals != [] && sel.total != 0 && |sample| == 32
    ensures r.Some? ==>
              var i := Scan(sel, BigEndian(sample), 0);
              i < |sel.intervals| && Wins(sel, i, BigEndian(sample)) && r.value == sel.intervals[i].id
  {
    hide Scan, Wins, Pow256, BigEndian;
    if sel.intervals == [] || sel.total == 0 || |sample| != 32 { return None; }
    Pow256Of32();
    var index := Search(sel, BigEndian(sample));
    return Some(sel.intervals[index].id);
  }

  // ----- how often each pool wins

  function CeilDiv(a: nat, t: nat): nat
    requires t > 0
  {
    (a + t - 1) / t
  }

  lemma CeilDivBounds(a: nat, t: nat)
    requires t > 0
    ensures a <= CeilDiv(a, t) * t < a + t
  {
    var n := a + t - 1;
    assert n == (n / t) * t + n % t;
  }

  lemma CeilDivLeast(a: nat, t: nat, x: nat)
    requires t > 0
    ensures a <= x * t <==> CeilDiv(a, t) <= x
  {
    var c := CeilDiv(a, t);
    CeilDivBounds(a, t);
    hide CeilDiv;
    if c <= x {
      MulLe(t, c, x);
    } else {
      MulLe(t, x + 1, c);
      assert (x + 1) * t == x * t + t;
    }
  }

  /** The first sample of pool `n`, which is the end of pool `n - 1`. */
  function Start(sel: Selector, n: nat): nat
    requires sel.total > 0 && n <= |sel.intervals|
  {
    CeilDiv((if n == 0 then 0 else Upper(sel, n - 1)) * TWO_TO_256, sel.total)
  }

  /** A pool's winning samples are consecutive. */
  lemma WinsInRange(sel: Selector, i: nat, sample: nat)
    requires Proper(sel) && i < |sel.intervals|
    ensures Wins(sel, i, sample) <==> Start(sel, i) <= sample < Start(sel, i + 1)
  {
    hide CeilDiv;
    CeilDivLeast(Lower(sel, i) * TWO_TO_256, sel.total, sample);
    CeilDivLeast(Upper(sel, i) * TWO_TO_256, sel.total, sample);
  }

  lemma StartEnds(sel: Selector)
    requires Proper(sel)
    ensures Start(sel, 0) == 0 && Start(sel, |sel.intervals|) == TWO_TO_256
  {
    hide CeilDiv;
    CeilDivLeast(0, sel.total, 0);
    CeilDivLeast(sel.total * TWO_TO_256, sel.total, TWO_TO_256);
    CeilDivBounds(sel.total * TWO_TO_256, sel.total);
    var c := CeilDiv(sel.total * TWO_TO_256, sel.total);
    if c < TWO_TO_256 { MulLe(sel.total, c + 1, TWO_TO_256); }
  }

  lemma StartOrdered(sel: Selector, i: nat)
    requires Proper(sel) && i < |sel.intervals|
    ensures Start(sel, i) <= Start(sel, i + 1) <= TWO_TO_256
  {
    hide CeilDiv;
    CeilDivBounds(Upper(sel, i) * TWO_TO_256, sel.total);
    CeilDivLeast(Lower(sel, i) * TWO_TO_256, sel.total, Start(sel, i + 1));
    ScaledOrder(Upper(sel, i), sel.total);
    CeilDivLeast(Upper(sel, i) * TWO_TO_256, sel.total, TWO_TO_256);
  }

  lemma ScaledOrder(a: nat, b: nat)
    requires a <= b
    ensures a * TWO_TO_256 <= b * TWO_TO_256
  {
  }

  ghost function Winners(sel: Selector, i: nat): set<nat>
    requires i < |sel.intervals|
  {
    set sample: nat | sample < TWO_TO_256 && Wins(sel, i, sample)
  }

  ghost function Range(lo: nat, hi: nat): set<nat>
    decreases hi
  {
    if hi <= lo then {} else Range(lo, hi - 1) + {hi - 1}
  }

  lemma {:induction false} RangeSize(lo: nat, hi: nat)
    requires lo <= hi
    ensures |Range(lo, hi)| == hi - lo && forall x: nat :: x in Range(lo, hi) <==> lo <= x < hi
    decreases hi
  {
    if lo < hi { RangeSize(lo, hi - 1); }
  }

  lemma WinnersSize(sel: Selector, i: nat)
    requires Proper(sel) && i < |sel.intervals|
    ensures |Winners(sel, i)| == Start(sel, i + 1) - Start(sel, i)
  {
    hide Wins, Start, Range;
    StartOrdered(sel, i);
    RangeSize(Start(sel, i), Start(sel, i + 1));
    forall x: nat ensures x in Winners(sel, i) <==> x in Range(Start(sel, i), Start(sel, i + 1)) {
      WinsInRange(sel, i, x);
    }
    assert Winners(sel, i) == Range(Start(sel, i), Start(sel, i + 1));
  }

  /** Exact proportion: the number of samples with which a pool wins differs from its share
      stake * 2^256 / total by less than one. */
  lemma FairShare(sel: Selector, i: nat)
    requires Proper(sel) && i < |sel.intervals|
    ensures var stake := Upper(sel, i) - Lower(sel, i);
            && |Winners(sel, i)| * sel.total < stake * TWO_TO_256 + sel.total
            && stake * TWO_TO_256 < |Winners(sel, i)| * sel.total + sel.total
  {
    hide CeilDiv, Winners;
    WinnersSize(sel, i);
    CeilDivBounds(Lower(sel, i) * TWO_TO_256, sel.total);
    CeilDivBounds(Upper(sel, i) * TWO_TO_256, sel.total);
    Distribute(Start(sel, i + 1), Start(sel, i), sel.total);
  }

  lemma Distribute(a: int, b: int, t: int)
    ensures (a - b) * t == a * t - b * t
  {
  }

  /** Winning samples of the first `n` pools. */
  ghost function WinnersUpto(sel: Selector, n: nat): nat
    requires n <= |sel.intervals|
  {
    if n == 0 then 0 else WinnersUpto(sel, n - 1) + |Winners(sel, n - 1)|
  }

  lemma {:induction false} WinnersTelescope(sel: Selector, n: nat)
    requires Proper(sel) && n <= |sel.intervals|
    ensures WinnersUpto(sel, n) == Start(sel, n)
  {
    hide Winners, Start;
    StartEnds(sel);
    if n > 0 {
      WinnersTelescope(sel, n - 1);
      WinnersSize(sel, n - 1);
    }
  }

  /** Every sample has exactly one winner: each is won by somebody, by nobody else, and the counts
      add up to 2^256. */
  lemma ExactlyOneLeader(sel: Selector, sample: nat)
    requires Proper(sel) && sample < TWO_TO_256
    ensures exists i :: 0 <= i < |sel.intervals| && Wins(sel, i, sample)
                        && forall j :: 0 <= j < |sel.intervals| && Wins(sel, j, sample) ==> j == i
    ensures WinnersUpto(sel, |sel.intervals|) == TWO_TO_256
  {
    WinnersTelescope(sel, |sel.intervals|);
    StartEnds(sel);
    hide Wins, Winners, WinnersUpto, Start;
    var i := Holder(sel, sample, |sel.intervals|);
    WinsInRange(sel, i, sample);
    forall j | 0 <= j < |sel.intervals| && Wins(sel, j, sample) ensures j == i { WinnerUnique(sel, i, j, sample); }
  }

  lemma {:induction false} Holder(sel: Selector, sample: nat, n: nat) returns (i: nat)
    requires Proper(sel) && n <= |sel.intervals| && Start(sel, 0) <= sample < Start(sel, n)
    ensures i < n && Start(sel, i) <= sample < Start(sel, i + 1)
  {
    hide Start;
    if sample >= Start(sel, n - 1) { i := n - 1; } else { i := Holder(sel, sample, n - 1); }
  }
}
