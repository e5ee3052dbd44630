/** Chain selection: the ordinary Praos rule and the Genesis density rule for deep forks. */
module Selection {
  import opened Common
  import opened Numbers

  const MAX_UINT64: nat := 0xffff_ffff_ffff_ffff

  /** A density ratio as the tip reports it, exact where it is a number. */
  datatype Density = NotANumber | MinusInfinity | Finite(value: real) | PlusInfinity

  /** A chain tip; `blockSlots` is there when the tip can count blocks in a window. */
  datatype Tip =
    | Nil
    | Tip(blockNumber: nat, vrf: seq<byte>, density: Density, blockSlots: Option<seq<nat>>)

  datatype ForkPoint = ForkPoint(slot: nat, blockNumber: nat)

  datatype Selector = Selector(securityParam: nat, windowSlots: nat)

  // ----- the ordinary rule

  function Sign(less: bool, greater: bool): int { if greater then 1 else if less then -1 else 0 }

  function CompareVrf(a: seq<byte>, b: seq<byte>): int {
    if a == [] && b == [] then 0
    else if a == [] then -1
    else if b == [] then 1
    else Sign(BigEndian(a) > BigEndian(b), BigEndian(a) < BigEndian(b))
  }

  function Compare(a: Tip, b: Tip): int {
    if a.Nil? && b.Nil? then 0
    else if a.Nil? then -1
    else if b.Nil? then 1
    else if a.blockNumber != b.blockNumber then if a.blockNumber > b.blockNumber then 1 else -1
    else CompareVrf(a.vrf, b.vrf)
  }

  // ----- the density rule

  predicate IsDeepFork(sel: Selector, fork: ForkPoint, tipBlockNumber: nat) {
    tipBlockNumber > fork.blockNumber && tipBlockNumber - fork.blockNumber > sel.securityParam
  }

  predicate InWindow(slot: nat, forkSlot: nat, windowSlots: nat) { slot > forkSlot && slot - forkSlot <= windowSlots }

  function CountInWindow(slots: seq<nat>, forkSlot: nat, windowSlots: nat): nat {
    if slots == [] then 0
    else (if InWindow(slots[0], forkSlot, windowSlots) then 1 else 0) + CountInWindow(slots[1..], forkSlot, windowSlots)
  }

  /** The loop that counts; the bound is in subtraction form, so nothing can wrap. */
  method BlocksInWindow(slots: seq<nat>, forkSlot: nat, windowSlots: nat) returns (count: nat)
    ensures count == CountInWindow(slots, forkSlot, windowSlots)
    ensures count == |set i | 0 <= i < |slots| && forkSlot < slots[i] <= forkSlot + windowSlots|
  {
    CountIsCardinality(slots, forkSlot, windowSlots);
    if windowSlots == 0 {
      CountEmptyWindow(slots, forkSlot);
      return 0;
    }
    count := 0;
    for i := 0 to |slots|
      invariant count + CountInWindow(slots[i..], forkSlot, windowSlots) == CountInWindow(slots, forkSlot, windowSlots)
    {
      assert slots[i..][1..] == slots[i + 1..];
      if slots[i] > forkSlot && slots[i] - forkSlot <= windowSlots { count := count + 1; }
    }
  }

  lemma {:induction false} CountEmptyWindow(slots: seq<nat>, forkSlot: nat)
    ensures CountInWindow(slots, forkSlot, 0) == 0
  {
    if slots != [] { CountEmptyWindow(slots[1..], forkSlot); }
  }

  ghost function Inside(slots: seq<nat>, forkSlot: nat, windowSlots: nat): set<int> {
    set i | 0 <= i < |slots| && forkSlot < slots[i] <= forkSlot + windowSlots
  }

  lemma {:induction false} CountPrefix(slots: seq<nat>, forkSlot: nat, windowSlots: nat, n: nat)
    requires n <= |slots|
    ensures CountInWindow(slots, forkSlot, windowSlots)
            == CountInWindow(slots[..n], forkSlot, windowSlots) + CountInWindow(slots[n..], forkSlot, windowSlots)
  {
    if n > 0 {
      CountPrefix(slots[1..], forkSlot, windowSlots, n - 1);
      assert slots[..n][1..] == slots[1..][..n - 1] && slots[1..][n - 1..] == slots[n..];
    }
  }

  lemma InsideLast(slots: seq<nat>, forkSlot: nat, windowSlots: nat)
    requires slots != []
    ensures var n := |slots| - 1;
            var before := Inside(slots[..n], forkSlot, windowSlots);
            && n !in before
            && Inside(slots, forkSlot, windowSlots)
               == if InWindow(slots[n], forkSlot, windowSlots) then before + {n} else before
  {
  }

  lemma CountOfOne(slot: nat, forkSlot: nat, windowSlots: nat)
    ensures CountInWindow([slot], forkSlot, windowSlots) == if InWindow(slot, forkSlot, windowSlots) then 1 else 0
  {
    assert CountInWindow([slot][1..], forkSlot, windowSlots) == 0;
  }

  lemma {:induction false} CountIsCardinality(slots: seq<nat>, forkSlot: nat, windowSlots: nat)
    ensures CountInWindow(slots, forkSlot, windowSlots) == |Inside(slots, forkSlot, windowSlots)|
  {
    if slots == [] {
      assert Inside(slots, forkSlot, windowSlots) == {};
    } else {
      hide Inside, CountInWindow, InWindow;
      var last := |slots| - 1;
      CountIsCardinality(slots[..last], forkSlot, windowSlots);
      CountPrefix(slots, forkSlot, windowSlots, last);
      assert slots[last..] == [slots[last]];
      CountOfOne(slots[last], forkSlot, windowSlots);
      InsideLast(slots, forkSlot, windowSlots);
    }
  }

  /** NaN counts as zero, so that every density has a place in the order. */
  function LegacyDensity(d: Density): Density { if d == NotANumber then Finite(0.0) else d }

  /** Nearest integer, halves away from zero, of a value that is not negative. */
  function Round(x: real): nat
    requires x >= 0.0
  {
    (x + 0.5).Floor
  }

  function Projected(d: Density, windowSlots: nat): nat {
    match LegacyDensity(d)
    case PlusInfinity => MAX_UINT64
    case Finite(value) =>
      if value <= 0.0 then 0
      else
        assert value * windowSlots as real >= 0.0;
        var projected := Round(value * windowSlots as real);
        if projected > MAX_UINT64 then MAX_UINT64 else projected
    case _ => 0
  }

  function WindowBlocks(sel: Selector, t: Tip, fork: ForkPoint): nat
    requires t.Tip?
  {
    match t.blockSlots
    case Some(slots) => CountInWindow(slots, fork.slot, sel.windowSlots)
    case None => Projected(t.density, sel.windowSlots)
  }

  predicate Sparser(a: Density, b: Density) {
    match a
    case MinusInfinity => b.Finite? || b.PlusInfinity?
    case Finite(x) => b.PlusInfinity? || (b.Finite? && x < b.value)
    case PlusInfinity => false
    case NotANumber => false
  }

  function CompareDensity(sel: Selector, a: Tip, b: Tip, fork: ForkPoint): int
    requires a.Tip? && b.Tip?
  {
    if sel.windowSlots > 0 then
      var x, y := WindowBlocks(sel, a, fork), WindowBlocks(sel, b, fork);
      Sign(x < y, x > y)
    else
      Sign(Sparser(LegacyDensity(a.density), LegacyDensity(b.density)),
           Sparser(LegacyDensity(b.density), LegacyDensity(a.density)))
  }

  function CompareWithDensity(sel: Selector, a: Tip, b: Tip, fork: ForkPoint, tipBlockNumber: nat): int {
    if a.Nil? && b.Nil? then 0
    else if a.Nil? then -1
    else if b.Nil? then 1
    else if !IsDeepFork(sel, fork, tipBlockNumber) then Compare(a, b)
    else if CompareDensity(sel, a, b, fork) != 0 then CompareDensity(sel, a, b, fork)
    else Compare(a, b)
  }

  // ----- both rules are total preorders

  /** The rule in force: the ordinary one, or the density rule for a fork and a tip height. */
  datatype Rule = Ordinary | Genesis(sel: Selector, fork: ForkPoint, tipBlockNumber: nat)

  function Prefer(rule: Rule, a: Tip, b: Tip): int {
    match rule
    case Ordinary => Compare(a, b)
    case Genesis(sel, fork, tip) => CompareWithDensity(sel, a, b, fork, tip)
  }

  /** The relation of a comparison is reflexive and antisymmetric in sign, and transitive. */
  predicate Preorder(aa: int, ab: int, ba: int, bc: int, ac: int) {
    && aa == 0 && ab == -ba
    && (ab >= 0 && bc >= 0 ==> ac >= 0)
    && (ab >= 0 && bc > 0 ==> ac > 0) && (ab > 0 && bc >= 0 ==> ac > 0)
  }

  lemma OrdinaryPreorder(a: Tip, b: Tip, c: Tip)
    ensures Preorder(Compare(a, a), Compare(a, b), Compare(b, a), Compare(b, c), Compare(a, c))
  {
    hide BigEndian;
  }

  lemma DensityPreorder(sel: Selector, a: Tip, b: Tip, c: Tip, fork: ForkPoint)
    requires a.Tip? && b.Tip? && c.Tip?
    ensures Preorder(CompareDensity(sel, a, a, fork), CompareDensity(sel, a, b, fork), CompareDensity(sel, b, a, fork),
                     CompareDensity(sel, b, c, fork), CompareDensity(sel, a, c, fork))
  {
    hide WindowBlocks;
  }

  /** Whatever the tips hold, nil tips, missing VRF outputs and NaN densities included. */
  lemma PreferPreorder(rule: Rule, a: Tip, b: Tip, c: Tip)
    ensures Preorder(Prefer(rule, a, a), Prefer(rule, a, b), Prefer(rule, b, a), Prefer(rule, b, c), Prefer(rule, a, c))
  {
    hide Compare, CompareDensity;
    OrdinaryPreorder(a, b, c);
    NilLoses(a, b);
    NilLoses(b, c);
    NilLoses(a, c);
    if rule.Genesis? {
      if a.Tip? { DensityPreorder(rule.sel, a, a, a, rule.fork); }
      if a.Tip? && b.Tip? { DensityPreorder(rule.sel, a, b, a, rule.fork); }
      if a.Tip? && b.Tip? && c.Tip? {
        DensityPreorder(rule.sel, a, b, c, rule.fork);
        DensityPreorder(rule.sel, c, b, a, rule.fork);
        DensityPreorder(rule.sel, b, c, a, rule.fork);
      }
    }
  }

  lemma NilLoses(a: Tip, b: Tip)
    ensures a.Nil? || b.Nil? ==> Compare(a, b) == if a.Nil? && b.Nil? then 0 else if a.Nil? then -1 else 1
  {
  }

  // ----- choosing among candidates

  /** Candidate `i` is the first that no other beats. */
  predicate FirstBest(rule: Rule, candidates: seq<Tip>, i: nat)
    requires i < |candidates|
  {
    && (forall j :: 0 <= j < |candidates| ==> Prefer(rule, candidates[i], candidates[j]) >= 0)
    && (forall j :: 0 <= j < i ==> Prefer(rule, candidates[i], candidates[j]) > 0)
  }

  // ----- what it means to be no worse, from the tips' own data

  /** A VRF output is no worse when it is there and its number is not greater, or when both are missing. */
  predicate VrfNoWorse(a: seq<byte>, b: seq<byte>) { b == [] || (a != [] && BigEndian(a) <= BigEndian(b)) }

  /** The ordinary rule: more blocks, and for equal length the lower VRF output. */
  predicate LongerOrSame(a: Tip, b: Tip)
    requires a.Tip? && b.Tip?
  {
    a.blockNumber > b.blockNumber || (a.blockNumber == b.blockNumber && VrfNoWorse(a.vrf, b.vrf))
  }

  /** Blocks of a tip with fork < slot <= fork + window, counted or, from a legacy tip, projected. */
  ghost function Blocks(sel: Selector, t: Tip, fork: ForkPoint): int
    requires t.Tip?
  {
    match t.blockSlots
    case Some(slots) => |Inside(slots, fork.slot, sel.windowSlots)|
    case None => Projected(t.density, sel.windowSlots)
  }

  /** A ratio that is greater: infinities at the ends, NaN where zero is. */
  predicate RatioAbove(a: Density, b: Density) {
    match a
    case MinusInfinity => false
    case PlusInfinity => !b.PlusInfinity?
    case Finite(x) => b.MinusInfinity? || (b.Finite? && x > b.value) || (b.NotANumber? && x > 0.0)
    case NotANumber => b.MinusInfinity? || (b.Finite? && b.value < 0.0)
  }

  ghost predicate DenserThan(sel: Selector, a: Tip, b: Tip, fork: ForkPoint)
    requires a.Tip? && b.Tip?
  {
    if sel.windowSlots > 0 then Blocks(sel, a, fork) > Blocks(sel, b, fork) else RatioAbove(a.density, b.density)
  }

  /** More than k blocks would have to be rolled back. */
  predicate Deep(rule: Rule) {
    rule.Genesis? && rule.tipBlockNumber > rule.fork.blockNumber + rule.sel.securityParam
  }

  /** Any tip is no worse than none. On a deep fork density decides, and the ordinary rule an exact
      tie; otherwise the ordinary rule alone. */
  ghost predicate NoWorse(rule: Rule, a: Tip, b: Tip) {
    b.Nil? || (a.Tip? &&
      if !Deep(rule) then LongerOrSame(a, b)
      else if DenserThan(rule.sel, a, b, rule.fork) || DenserThan(rule.sel, b, a, rule.fork)
      then DenserThan(rule.sel, a, b, rule.fork)
      else LongerOrSame(a, b))
  }

  lemma CompareMeans(a: Tip, b: Tip)
    requires a.Tip? && b.Tip?
    ensures Compare(a, b) >= 0 <==> LongerOrSame(a, b)
  {
    hide BigEndian;
  }

  lemma CompareDensityMeans(sel: Selector, a: Tip, b: Tip, fork: ForkPoint)
    requires a.Tip? && b.Tip?
    ensures CompareDensity(sel, a, b, fork) > 0 <==> DenserThan(sel, a, b, fork)
    ensures CompareDensity(sel, a, b, fork) < 0 <==> DenserThan(sel, b, a, fork)
  {
    hide CountInWindow, Projected, Inside;
    forall slots: seq<nat>
      ensures CountInWindow(slots, fork.slot, sel.windowSlots) == |Inside(slots, fork.slot, sel.windowSlots)|
    {
      CountIsCardinality(slots, fork.slot, sel.windowSlots);
    }
  }

  lemma PreferMeans(rule: Rule, a: Tip, b: Tip)
    ensures Prefer(rule, a, b) >= 0 <==> NoWorse(rule, a, b)
  {
    hide Compare, CompareDensity, DenserThan, LongerOrSame;
    NilLoses(a, b);
    if a.Tip? && b.Tip? {
      CompareMeans(a, b);
      if rule.Genesis? { CompareDensityMeans(rule.sel, a, b, rule.fork); }
    }
  }

  /** Which chain is chosen, from the tips alone: the first that is no worse than any other. */
  ghost predicate Chosen(rule: Rule, candidates: seq<Tip>, i: nat)
    requires i < |candidates|
  {
    && (forall j :: 0 <= j < |candidates| ==> NoWorse(rule, candidates[i], candidates[j]))
    && (forall j :: 0 <= j < i ==> !NoWorse(rule, candidates[j], candidates[i]))
  }

  lemma FirstBestMeans(rule: Rule, candidates: seq<Tip>, i: nat)
    requires i < |candidates|
    ensures FirstBest(rule, candidates, i) <==> Chosen(rule, candidates, i)
  {
    hide Prefer, NoWorse;
    forall j | 0 <= j < |candidates|
      ensures Prefer(rule, candidates[i], candidates[j]) >= 0 <==> NoWorse(rule, candidates[i], candidates[j])
      ensures Prefer(rule, candidates[i], candidates[j]) > 0 <==> !NoWorse(rule, candidates[j], candidates[i])
    {
      PreferMeans(rule, candidates[i], candidates[j]);
      PreferMeans(rule, candidates[j], candidates[i]);
      PreferPreorder(rule, candidates[i], candidates[j], candidates[i]);
    }
  }

  /** The projection of a legacy ratio is the nearest count, within what a uint64 can hold. */
  lemma ProjectedMeans(d: Density, windowSlots: nat)
    ensures d.NotANumber? || d.MinusInfinity? || (d.Finite? && d.value <= 0.0) ==> Projected(d, windowSlots) == 0
    ensures d.PlusInfinity? ==> Projected(d, windowSlots) == MAX_UINT64
    ensures d.Finite? && 0.0 < d.value && d.value * windowSlots as real <= MAX_UINT64 as real ==>
              var p := Projected(d, windowSlots) as real;
              p - 0.5 <= d.value * windowSlots as real < p + 0.5
    ensures d.Finite? && 0.0 < d.value && d.value * windowSlots as real > MAX_UINT64 as real ==>
              Projected(d, windowSlots) == MAX_UINT64
  {
  }

  /** The loop: nil for no candidates, otherwise the first chain that is no worse than any other. */
  method SelectPreferred(rule: Rule, candidates: seq<Tip>) returns (preferred: Tip, ghost at: nat)
    ensures candidates == [] ==> preferred == Nil
    ensures candidates != [] ==>
              && at < |candidates| && preferred == candidates[at]
              && FirstBest(rule, candidates, at) && Chosen(rule, candidates, at)
  {
    hide Prefer;
    at := 0;
    if |candidates| == 0 { return Nil, 0; }
    preferred := candidates[0];
    PreferPreorder(rule, preferred, preferred, preferred);
    for i := 1 to |candidates|
      invariant at < i && preferred == candidates[at]
      invariant forall j :: 0 <= j < i ==> Prefer(rule, preferred, candidates[j]) >= 0
      invariant forall j :: 0 <= j < at ==> Prefer(rule, preferred, candidates[j]) > 0
    {
      PreferPreorder(rule, candidates[i], preferred, preferred);
      if Prefer(rule, candidates[i], preferred) > 0 {
        forall j | 0 <= j < i ensures Prefer(rule, candidates[i], candidates[j]) > 0 {
          PreferPreorder(rule, candidates[i], preferred, candidates[j]);
        }
        preferred, at := candidates[i], i;
      }
    }
    FirstBestMeans(rule, candidates, at);
  }

  /** Without density: whoever is chosen is a tip if there is any, has the most blocks, and among the
      candidates of that length has a VRF output if any has, and the least. */
  lemma LongestIsChosen(rule: Rule, candidates: seq<Tip>, i: nat, j: nat)
    requires !Deep(rule) && i < |candidates| && j < |candidates| && FirstBest(rule, candidates, i)
    requires candidates[j].Tip?
    ensures candidates[i].Tip? && candidates[i].blockNumber >= candidates[j].blockNumber
    ensures candidates[i].blockNumber == candidates[j].blockNumber && candidates[j].vrf != [] ==>
              candidates[i].vrf != [] && BigEndian(candidates[i].vrf) <= BigEndian(candidates[j].vrf)
  {
    hide BigEndian;
    FirstBestMeans(rule, candidates, i);
    assert NoWorse(rule, candidates[i], candidates[j]);
  }

  /** On a deep fork with a window: whoever is chosen has the most blocks in it, and among those the
      ordinary rule decides. */
  lemma MostBlocksIsChosen(rule: Rule, candidates: seq<Tip>, i: nat, j: nat)
    requires Deep(rule) && rule.sel.windowSlots > 0
    requires i < |candidates| && j < |candidates| && FirstBest(rule, candidates, i) && candidates[j].Tip?
    ensures candidates[i].Tip?
    ensures var a, b := Blocks(rule.sel, candidates[i], rule.fork), Blocks(rule.sel, candidates[j], rule.fork);
            a >= b && (a == b ==> LongerOrSame(candidates[i], candidates[j]))
  {
    hide Blocks, LongerOrSame;
    FirstBestMeans(rule, candidates, i);
    assert NoWorse(rule, candidates[i], candidates[j]);
  }

  /** The candidate that is found is determined, not only up to equivalence. */
  lemma FirstBestUnique(rule: Rule, candidates: seq<Tip>, i: nat, j: nat)
    requires i < |candidates| && j < |candidates|
    requires FirstBest(rule, candidates, i) && FirstBest(rule, candidates, j)
    ensures i == j
  {
    hide Prefer;
    PreferPreorder(rule, candidates[i], candidates[j], candidates[i]);
  }

  /** Order independence: for the same candidates in another order the choice is equivalent, and it
      beats exactly what the other choice beats. */
  lemma PermutedChoice(rule: Rule, xs: seq<Tip>, ys: seq<Tip>, i: nat, j: nat, t: Tip)
    requires multiset(xs) == multiset(ys) && i < |xs| && j < |ys| && FirstBest(rule, xs, i) && FirstBest(rule, ys, j)
    ensures Prefer(rule, xs[i], ys[j]) == 0
    ensures (Prefer(rule, xs[i], t) > 0) == (Prefer(rule, ys[j], t) > 0)
    ensures (Prefer(rule, xs[i], t) == 0) == (Prefer(rule, ys[j], t) == 0)
  {
    hide Prefer;
    var a, b := xs[i], ys[j];
    assert a in multiset(ys) && b in multiset(xs);
    var k :| 0 <= k < |ys| && ys[k] == a;
    var l :| 0 <= l < |xs| && xs[l] == b;
    PreferPreorder(rule, a, b, t);
    PreferPreorder(rule, b, a, t);
    PreferPreorder(rule, t, a, b);
    PreferPreorder(rule, t, b, a);
    PreferPreorder(rule, a, t, a);
    PreferPreorder(rule, b, t, b);
  }

  // ----- shallow forks

  /** The same chain with other density data. */
  function WithDensity(t: Tip, density: Density, blockSlots: Option<seq<nat>>): Tip {
    if t.Nil? then t else t.(density := density, blockSlots := blockSlots)
  }

  /** On a fork of at most k blocks no density data can change a comparison, which is that of the
      ordinary rule. */
  lemma ShallowIgnoresDensity(
      rule: Rule, a: Tip, b: Tip, da: Density, db: Density, sa: Option<seq<nat>>, sb: Option<seq<nat>>)
    requires rule.Genesis? && rule.tipBlockNumber <= rule.fork.blockNumber + rule.sel.securityParam
    ensures Prefer(rule, WithDensity(a, da, sa), WithDensity(b, db, sb)) == Compare(a, b)
  {
    hide BigEndian;
  }

  /** On a deeper fork the choice is a densest candidate, and the best of those by the ordinary rule,
      so neither length nor VRF output makes up for density. */
  lemma DeepChoice(rule: Rule, candidates: seq<Tip>, i: nat, j: nat)
    requires rule.Genesis? && rule.tipBlockNumber > rule.fork.blockNumber + rule.sel.securityParam
    requires i < |candidates| && j < |candidates| && candidates[j].Tip? && FirstBest(rule, candidates, i)
    ensures candidates[i].Tip?
    ensures var density := CompareDensity(rule.sel, candidates[i], candidates[j], rule.fork);
            density > 0 || (density == 0 && Compare(candidates[i], candidates[j]) >= 0)
  {
    hide CompareDensity, Compare;
    assert Prefer(rule, candidates[i], candidates[j]) >= 0;
  }

  /** A candidate denser than every other is chosen, however short it is and wherever it stands. */
  lemma DensestWins(rule: Rule, candidates: seq<Tip>, i: nat, j: nat)
    requires rule.Genesis? && rule.tipBlockNumber > rule.fork.blockNumber + rule.sel.securityParam
    requires i < |candidates| && j < |candidates| && FirstBest(rule, candidates, i) && candidates[j].Tip?
    requires forall k :: 0 <= k < |candidates| && k != j && candidates[k].Tip? ==>
               CompareDensity(rule.sel, candidates[j], candidates[k], rule.fork) > 0
    ensures i == j
  {
    hide CompareDensity, FirstBest;
    DeepChoice(rule, candidates, i, j);
    if i != j {
      DensityPreorder(rule.sel, candidates[j], candidates[i], candidates[j], rule.fork);
    }
  }

  // ----- why NaN must have a place in the order

  /** The comparison without that rule: NaN is neither sparser nor denser than anything. */
  function RawCompare(a: Tip, b: Tip): int
    requires a.Tip? && b.Tip?
  {
    var d := Sign(Sparser(a.density, b.density), Sparser(b.density, a.density));
    if d != 0 then d else Compare(a, b)
  }

  /** It has cycles, so the choice would depend on the order of the candidates. */
  lemma RawComparisonCycles()
    ensures exists a: Tip, b: Tip, c: Tip :: a.Tip? && b.Tip? && c.Tip?
              && RawCompare(a, b) > 0 && RawCompare(b, c) > 0 && RawCompare(c, a) > 0
  {
    var a := Tip(1, [], Finite(0.5), None);
    var b := Tip(3, [], Finite(0.25), None);
    var c := Tip(2, [], NotANumber, None);
    assert RawCompare(a, b) > 0 && RawCompare(b, c) > 0 && RawCompare(c, a) > 0;
  }
}
