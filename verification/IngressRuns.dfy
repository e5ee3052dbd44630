/** All runs of a connection's ingress queues: conservation, overshoot and order. */
module IngressRuns {
  import opened Ingress
  import opened Numbers

  /** A channel with its forwarder: whether its stop was signalled and the forwarder has returned,
      the segment in the forwarder's hand, what was accepted and delivered since it was made, what
      was accepted after the forwarder had returned, and whether the oldest queued segment was
      admitted by force. */
  datatype Role = Role(
    chan: Channel, done: bool, finished: bool, hand: seq<Segment>,
    accepted: seq<Segment>, delivered: seq<Segment>, late: seq<Segment>, forced: bool)

  const NEW_ROLE := Role(NEW_CHANNEL, false, false, [], [], [], [], false)

  /** Every channel ever made, and the greatest limit the account ever had. */
  datatype Conn = Conn(account: Account, roles: seq<Role>, peak: int)

  const INIT := Conn(NEW_ACCOUNT, [], DEFAULT_BUDGET)

  datatype Action =
    | Open
    | SetBudget(budget: int)
    | SetExtension(i: nat, extra: int)
    | SetLimit(i: nat, limit: int)
    | SetBackpressure(i: nat, on: bool)
    | Enqueue(i: nat, seg: Segment)
    | Take(i: nat)
    | Deliver(i: nat)
    | Shutdown(i: nat)
    | Close(i: nat)
    | Finish(i: nat)

  predicate Enabled(s: Conn, a: Action) {
    match a
    case Open => true
    case SetBudget(_) => true
    case SetExtension(i, _) => i < |s.roles|
    case SetLimit(i, _) => i < |s.roles|
    case SetBackpressure(i, _) => i < |s.roles|
    case Enqueue(i, seg) => i < |s.roles| && Admit(s.account, s.roles[i].chan, seg) == Admitted
    case Take(i) => i < |s.roles| && !s.roles[i].finished && s.roles[i].hand == [] && s.roles[i].chan.queue != []
    case Deliver(i) => i < |s.roles| && s.roles[i].hand != []
    case Shutdown(i) => i < |s.roles|
    case Close(i) => i < |s.roles| && s.roles[i].done
    case Finish(i) =>
      i < |s.roles| && var r := s.roles[i];
      !r.finished && (if r.hand != [] then r.done else r.chan.closed && r.chan.queue == [])
  }

  /** The role after a step on it. */
  function RoleNext(s: Conn, a: Action, r: Role): Role
    requires a.Take? ==> r.chan.queue != []
  {
    match a
    case Open => r
    case SetBudget(_) => r
    case SetExtension(_, extra) => r.(chan := r.chan.(extension := Share(extra)))
    case SetLimit(_, limit) => r.(chan := r.chan.(limit := limit))
    case SetBackpressure(_, on) => r.(chan := r.chan.(backpressure := on))
    case Enqueue(_, seg) =>
      r.(chan := Appended(r.chan, seg), accepted := r.accepted + [seg],
         late := if r.finished then r.late + [seg] else r.late,
         forced := if r.chan.queue == [] then r.chan.backpressure else r.forced)
    case Take(_) => r.(chan := Taken(r.chan), hand := [r.chan.queue[0]], forced := false)
    case Deliver(_) => r.(delivered := r.delivered + r.hand, hand := [])
    case Shutdown(_) => r.(done := true)
    case Close(_) => r.(chan := r.chan.(closed := true))
    case Finish(_) =>
      r.(chan := r.chan.(queue := [], pendingBytes := 0, pendingCost := 0, extension := 0),
         hand := [], finished := true)
  }

  function AccountNext(s: Conn, a: Action): Account
    requires Enabled(s, a)
  {
    match a
    case SetBudget(budget) => WithBudget(s.account, budget)
    case SetExtension(i, extra) =>
      if Share(extra) == s.roles[i].chan.extension then s.account
      else Extended(s.account, Share(extra) - s.roles[i].chan.extension)
    case Enqueue(i, seg) => Claimed(s.account, Cost(seg), |seg.payload|)
    case Take(i) =>
      var seg := s.roles[i].chan.queue[0];
      Returned(s.account, Cost(seg), |seg.payload|)
    case Finish(i) =>
      var c := s.roles[i].chan;
      Extended(Returned(s.account, c.pendingCost, c.pendingBytes), -c.extension)
    case _ => s.account
  }

  function Next(s: Conn, a: Action): Conn
    requires Enabled(s, a)
  {
    var account := AccountNext(s, a);
    var roles := if a.Open? then s.roles + [NEW_ROLE]
                 else if a.SetBudget? then s.roles
                 else s.roles[a.i := RoleNext(s, a, s.roles[a.i])];
    Conn(account, roles, Max(s.peak, account.limit))
  }

  // ----- totals over all channels

  datatype Measure = Retained | Bytes | Extra | Force

  function Of(r: Role, m: Measure): int {
    match m
    case Retained => r.chan.pendingCost
    case Bytes => r.chan.pendingBytes
    case Extra => r.chan.extension
    case Force => if r.forced && r.chan.queue != [] then Cost(r.chan.queue[0]) else 0
  }

  function Sum(roles: seq<Role>, m: Measure): int {
    if roles == [] then 0 else Of(roles[0], m) + Sum(roles[1..], m)
  }

  lemma {:induction false} SumUpdate(roles: seq<Role>, m: Measure, i: nat, r: Role)
    requires i < |roles|
    ensures Sum(roles[i := r], m) == Sum(roles, m) - Of(roles[i], m) + Of(r, m)
  {
    if i == 0 {
      assert roles[0 := r][1..] == roles[1..];
    } else {
      SumUpdate(roles[1..], m, i - 1, r);
      assert roles[i := r][1..] == roles[1..][i - 1 := r];
    }
  }

  lemma {:induction false} SumAppend(roles: seq<Role>, m: Measure, r: Role)
    ensures Sum(roles + [r], m) == Sum(roles, m) + Of(r, m)
  {
    if roles == [] {
      assert [r][1..] == [] && roles + [r] == [r];
    } else {
      SumAppend(roles[1..], m, r);
      assert (roles + [r])[1..] == roles[1..] + [r];
    }
  }

  function QueueCost(q: seq<Segment>): nat { if q == [] then 0 else Cost(q[0]) + QueueCost(q[1..]) }

  function QueueBytes(q: seq<Segment>): nat { if q == [] then 0 else |q[0].payload| + QueueBytes(q[1..]) }

  lemma {:induction false} QueueAppend(q: seq<Segment>, s: Segment)
    ensures QueueCost(q + [s]) == QueueCost(q) + Cost(s) && QueueBytes(q + [s]) == QueueBytes(q) + |s.payload|
  {
    if q == [] {
      assert [s][1..] == [] && q + [s] == [s];
    } else {
      QueueAppend(q[1..], s);
      assert (q + [s])[1..] == q[1..] + [s];
    }
  }

  // ----- invariants

  /** A channel's counters are those of its queue, and what it accepted is what it delivered, what
      is in the forwarder's hand and what is queued, in order; once the forwarder has returned, the
      queue holds what came after that. */
  predicate RoleOk(r: Role) {
    && r.chan.pendingCost == QueueCost(r.chan.queue) && r.chan.pendingBytes == QueueBytes(r.chan.queue)
    && 0 <= r.chan.extension <= MAX_EXTENSION
    && |r.hand| <= 1
    && (if r.finished then r.hand == [] && r.delivered <= r.accepted && r.chan.queue == r.late
        else r.accepted == r.delivered + r.hand + r.chan.queue && r.late == [])
  }

  predicate RolesOk(s: Conn) { forall r :: r in s.roles ==> RoleOk(r) }

  predicate Conserved(s: Conn) {
    && s.account.used == Sum(s.roles, Retained)
    && s.account.payload == Sum(s.roles, Bytes)
    && s.account.extended == Sum(s.roles, Extra)
    && s.account.limit == LimitOf(s.account.budget, s.account.extended)
  }

  /** The retained cost passes the greatest limit only by the segments admitted by force, of which
      each role holds at most one. */
  predicate Bounded(s: Conn) { s.account.used <= s.peak + Sum(s.roles, Force) && s.account.limit <= s.peak }

  predicate Inv(s: Conn) { RolesOk(s) && Conserved(s) && Bounded(s) }

  lemma {:induction false} SumAtLeast(roles: seq<Role>, m: Measure, i: nat)
    requires i < |roles| && forall r :: r in roles ==> RoleOk(r)
    ensures 0 <= Of(roles[i], m) <= Sum(roles, m)
  {
    SumNonNegative(roles[1..], m);
    assert RoleOk(roles[0]);
    if i > 0 { SumAtLeast(roles[1..], m, i - 1); }
  }

  lemma {:induction false} SumNonNegative(roles: seq<Role>, m: Measure)
    requires forall r :: r in roles ==> RoleOk(r)
    ensures 0 <= Sum(roles, m)
  {
    if roles != [] {
      assert RoleOk(roles[0]);
      SumNonNegative(roles[1..], m);
    }
  }

  // ----- every step keeps them

  predicate OnRole(a: Action) { !a.Open? && !a.SetBudget? }

  lemma RoleKeepsOk(s: Conn, a: Action)
    requires Inv(s) && Enabled(s, a) && OnRole(a)
    ensures RoleOk(RoleNext(s, a, s.roles[a.i]))
  {
    var r := s.roles[a.i];
    assert RoleOk(r);
    if a.Enqueue? { QueueAppend(r.chan.queue, a.seg); }
  }

  /** A step changes the totals by what it changes in its own channel. */
  lemma TotalsMove(s: Conn, a: Action)
    requires Inv(s) && Enabled(s, a) && OnRole(a)
    ensures forall m :: Sum(Next(s, a).roles, m)
                        == Sum(s.roles, m) - Of(s.roles[a.i], m) + Of(RoleNext(s, a, s.roles[a.i]), m)
    ensures forall m :: 0 <= Of(s.roles[a.i], m) <= Sum(s.roles, m)
  {
    hide AccountNext, RoleNext, Of, RoleOk;
    forall m ensures Sum(Next(s, a).roles, m)
                     == Sum(s.roles, m) - Of(s.roles[a.i], m) + Of(RoleNext(s, a, s.roles[a.i]), m)
    {
      SumUpdate(s.roles, m, a.i, RoleNext(s, a, s.roles[a.i]));
    }
    forall m ensures 0 <= Of(s.roles[a.i], m) <= Sum(s.roles, m) { SumAtLeast(s.roles, m, a.i); }
  }

  /** The account's counters move by the same amounts, and never saturate at zero. */
  lemma AccountMoves(s: Conn, a: Action)
    requires Inv(s) && Enabled(s, a) && OnRole(a)
    ensures var r := s.roles[a.i];
            var t := RoleNext(s, a, r);
            var b := AccountNext(s, a);
            && b.used == s.account.used - Of(r, Retained) + Of(t, Retained)
            && b.payload == s.account.payload - Of(r, Bytes) + Of(t, Bytes)
            && b.extended == s.account.extended - Of(r, Extra) + Of(t, Extra)
            && b.budget == s.account.budget && b.limit == LimitOf(b.budget, b.extended)
  {
    hide Sum;
    TotalsMove(s, a);
    assert Of(s.roles[a.i], Retained) <= Sum(s.roles, Retained) && Of(s.roles[a.i], Bytes) <= Sum(s.roles, Bytes);
    assert Of(s.roles[a.i], Extra) <= Sum(s.roles, Extra);
    assert RoleOk(s.roles[a.i]);
  }

  /** The retained cost, less the forced segments, grows only where it fits the limit. */
  lemma ForceMoves(s: Conn, a: Action)
    requires Inv(s) && Enabled(s, a) && OnRole(a)
    ensures var r := s.roles[a.i];
            var t := RoleNext(s, a, r);
            var spare := Of(t, Retained) - Of(t, Force);
            || spare <= Of(r, Retained) - Of(r, Force)
            || s.account.used - Of(r, Retained) + Of(t, Retained) <= s.account.limit
  {
    assert RoleOk(s.roles[a.i]);
  }

  lemma RoleStepKeepsInv(s: Conn, a: Action)
    requires Inv(s) && Enabled(s, a) && OnRole(a)
    ensures Inv(Next(s, a))
  {
    hide Sum, Of, RoleOk, RoleNext, AccountNext;
    RoleKeepsOk(s, a);
    TotalsMove(s, a);
    AccountMoves(s, a);
    ForceMoves(s, a);
    var t := Next(s, a);
    forall r | r in t.roles ensures RoleOk(r) {
      var k :| 0 <= k < |t.roles| && t.roles[k] == r;
      if k != a.i { assert s.roles[k] in s.roles; }
    }
    SumNonNegative(t.roles, Force);
    assert Conserved(t);
  }

  lemma StepKeepsInv(s: Conn, a: Action)
    requires Inv(s) && Enabled(s, a)
    ensures Inv(Next(s, a))
  {
    if OnRole(a) {
      RoleStepKeepsInv(s, a);
    } else if a.Open? {
      forall m ensures Sum(s.roles + [NEW_ROLE], m) == Sum(s.roles, m) { SumAppend(s.roles, m, NEW_ROLE); }
    }
  }

  ghost predicate IsRun(states: seq<Conn>, actions: seq<Action>) {
    && |states| == |actions| + 1 && states[0] == INIT
    && forall i {:trigger actions[i]} :: 0 <= i < |actions| ==>
         Enabled(states[i], actions[i]) && states[i + 1] == Next(states[i], actions[i])
  }

  lemma InitKeepsInv()
    ensures Inv(INIT)
  {
  }

  lemma {:induction false} RunKeepsInv(states: seq<Conn>, actions: seq<Action>, i: nat)
    requires IsRun(states, actions) && i < |states|
    ensures Inv(states[i])
  {
    hide Inv, Next, Enabled;
    if i == 0 {
      InitKeepsInv();
    } else {
      RunKeepsInv(states, actions, i - 1);
      var a := actions[i - 1];
      StepKeepsInv(states[i - 1], a);
    }
  }

  /** Conservation over every run: the account's retained cost, payload and extension are the sums
      of the channels' own counters, which are those of their queues. */
  lemma Conservation(states: seq<Conn>, actions: seq<Action>, i: nat)
    requires IsRun(states, actions) && i < |states|
    ensures var s := states[i];
            && s.account.used == Sum(s.roles, Retained)
            && s.account.payload == Sum(s.roles, Bytes)
            && s.account.extended == Sum(s.roles, Extra)
            && s.account.limit == Min(s.account.budget + s.account.extended, MAX_INT)
            && forall r :: r in s.roles ==>
                 r.chan.pendingCost == QueueCost(r.chan.queue) && r.chan.pendingBytes == QueueBytes(r.chan.queue)
  {
    hide Sum;
    RunKeepsInv(states, actions, i);
  }

  /** Each channel delivers, in order, a prefix of what it accepted; until its forwarder returns
      nothing accepted is lost. */
  lemma FifoPrefix(states: seq<Conn>, actions: seq<Action>, i: nat, k: nat)
    requires IsRun(states, actions) && i < |states| && k < |states[i].roles|
    ensures var r := states[i].roles[k];
            && r.delivered <= r.accepted
            && (!r.finished ==> r.accepted == r.delivered + r.hand + r.chan.queue)
  {
    hide Sum, QueueCost, QueueBytes;
    RunKeepsInv(states, actions, i);
    assert RoleOk(states[i].roles[k]);
  }

  /** The forwarder is never stuck before it returns: what is in its hand can be delivered, otherwise
      the oldest queued segment can be taken and delivered next, and on a closed channel with nothing
      left it can return. */
  lemma ForwarderMoves(s: Conn, k: nat)
    requires k < |s.roles| && !s.roles[k].finished && |s.roles[k].hand| <= 1
    ensures var r := s.roles[k];
            if r.hand != [] then
              Enabled(s, Deliver(k)) && Next(s, Deliver(k)).roles[k].delivered == r.delivered + r.hand
            else if r.chan.queue != [] then
              && Enabled(s, Take(k)) && Enabled(Next(s, Take(k)), Deliver(k))
              && Next(Next(s, Take(k)), Deliver(k)).roles[k].delivered == r.delivered + [r.chan.queue[0]]
            else r.chan.closed ==> Enabled(s, Finish(k))
  {
    hide AccountNext;
  }

  // ----- the channel's own limit

  /** The queued payload keeps to a bound, but for a single segment admitted by force. */
  predicate KeepsTo(r: Role, bound: int) {
    r.chan.queue == [] || (|r.chan.queue| == 1 && r.forced) || QueueBytes(r.chan.queue) <= bound
  }

  /** The limit of channel `k` was at most `bound` from the time it was made. */
  ghost predicate LimitAtMost(states: seq<Conn>, i: nat, k: nat, bound: int)
    requires i < |states|
  {
    forall j {:trigger states[j]} :: 0 <= j <= i && k < |states[j].roles| ==> states[j].roles[k].chan.limit <= bound
  }

  lemma RoleStepKeepsTo(s: Conn, a: Action, r: Role, bound: int)
    requires RoleOk(r) && KeepsTo(r, bound) && r.chan.limit <= bound
    requires a.Take? ==> r.chan.queue != []
    requires a.Enqueue? ==> Admit(s.account, r.chan, a.seg) == Admitted
    ensures KeepsTo(RoleNext(s, a, r), bound)
  {
    if a.Enqueue? { QueueAppend(r.chan.queue, a.seg); }
  }

  /** At every moment of every run a channel's queued payload is within the greatest limit it has had,
      unless it is one segment that came first under backpressure. */
  lemma {:induction false} QueueWithinOwnLimit(states: seq<Conn>, actions: seq<Action>, i: nat, k: nat, bound: int)
    requires IsRun(states, actions) && i < |states| && k < |states[i].roles| && LimitAtMost(states, i, k, bound)
    ensures var c := states[i].roles[k].chan;
            c.queue == [] || (|c.queue| == 1 && states[i].roles[k].forced) || c.pendingBytes <= bound
    ensures KeepsTo(states[i].roles[k], bound)
  {
    hide Inv, Enabled, AccountNext, RoleNext, KeepsTo;
    assert RoleOk(states[i].roles[k]) by { RunKeepsInv(states, actions, i); InvRole(states[i], k); }
    if i > 0 {
      var s, a := states[i - 1], actions[i - 1];
      if OnRole(a) { EnabledOnRole(s, a); }
      assert states[i] == Next(s, a);
      if k < |s.roles| {
        QueueWithinOwnLimit(states, actions, i - 1, k, bound);
        RunKeepsInv(states, actions, i - 1);
        InvRole(s, k);
        if OnRole(a) && a.i == k { RoleStepKeepsTo(s, a, s.roles[k], bound); }
      } else {
        assert states[i].roles[k] == NEW_ROLE;
      }
    }
    Unfold(states[i].roles[k], bound);
  }

  lemma InvRole(s: Conn, k: nat)
    requires Inv(s) && k < |s.roles|
    ensures RoleOk(s.roles[k])
  {
  }

  lemma EnabledOnRole(s: Conn, a: Action)
    requires Enabled(s, a) && OnRole(a)
    ensures a.i < |s.roles|
    ensures a.Take? ==> s.roles[a.i].chan.queue != []
    ensures a.Enqueue? ==> Admit(s.account, s.roles[a.i].chan, a.seg) == Admitted
  {
  }

  lemma Unfold(r: Role, bound: int)
    requires RoleOk(r)
    ensures r.chan.queue == [] ==> KeepsTo(r, bound)
    ensures KeepsTo(r, bound) ==>
              r.chan.queue == [] || (|r.chan.queue| == 1 && r.forced) || r.chan.pendingBytes <= bound
  {
  }

  ghost predicate NeverLowered(states: seq<Conn>, i: nat)
    requires i < |states|
  {
    forall k {:trigger states[k]} :: 0 < k <= i ==> states[k - 1].account.limit <= states[k].account.limit
  }

  lemma {:induction false} PeakIsLimit(states: seq<Conn>, actions: seq<Action>, i: nat)
    requires IsRun(states, actions) && i < |states| && NeverLowered(states, i)
    ensures states[i].peak == states[i].account.limit
  {
    hide Enabled, AccountNext, RoleNext;
    if i > 0 {
      PeakIsLimit(states, actions, i - 1);
      var a := actions[i - 1];
      assert states[i] == Next(states[i - 1], a);
    }
  }

  /** Overshoot: the retained cost passes the greatest limit so far, which is the limit itself when
      it was never lowered, by at most one segment per role, each the oldest of its queue and
      admitted under backpressure into an empty queue. */
  lemma Overshoot(states: seq<Conn>, actions: seq<Action>, i: nat)
    requires IsRun(states, actions) && i < |states|
    ensures states[i].account.used <= states[i].peak + Sum(states[i].roles, Force)
    ensures NeverLowered(states, i) ==>
              states[i].account.used <= states[i].account.limit + Sum(states[i].roles, Force)
  {
    hide Sum, Next, Enabled;
    RunKeepsInv(states, actions, i);
    if NeverLowered(states, i) { PeakIsLimit(states, actions, i); }
  }

  /** The retained cost is within the limit but for the segments admitted by force. */
  predicate WithinLimit(s: Conn) { s.account.used <= s.account.limit + Sum(s.roles, Force) }

  /** A step that does not lower the limit keeps that. */
  lemma WithinLimitKept(s: Conn, a: Action)
    requires Inv(s) && WithinLimit(s) && Enabled(s, a) && AccountNext(s, a).limit >= s.account.limit
    ensures WithinLimit(Next(s, a))
  {
    hide Sum, Of, RoleOk, RoleNext, AccountNext;
    if OnRole(a) {
      TotalsMove(s, a);
      AccountMoves(s, a);
      ForceMoves(s, a);
      RoleStepKeepsInv(s, a);
      SumNonNegative(Next(s, a).roles, Force);
    } else {
      BudgetMoves(s, a);
    }
  }

  lemma BudgetMoves(s: Conn, a: Action)
    requires Enabled(s, a) && !OnRole(a)
    ensures Sum(Next(s, a).roles, Force) == Sum(s.roles, Force) && Next(s, a).account.used == s.account.used
  {
    if a.Open? { SumAppend(s.roles, Force, NEW_ROLE); }
  }

  /** Only three steps lower the limit: the two setters, and a forwarder that returns and withdraws
      its role's extension. */
  lemma OnlyThreeLower(s: Conn, a: Action)
    requires Inv(s) && Enabled(s, a) && !a.SetBudget? && !a.SetExtension? && !a.Finish?
    ensures AccountNext(s, a).limit == s.account.limit
  {
  }

  /** Each of them keeps the bound exactly when what is still retained fits the new limit, which the
      caller can work out beforehand. */
  lemma LoweringExact(s: Conn, a: Action)
    requires Inv(s) && Enabled(s, a)
    ensures a.SetBudget? ==>
              var limit := LimitOf(if a.budget <= 0 then DEFAULT_BUDGET else a.budget, s.account.extended);
              WithinLimit(Next(s, a)) <==> s.account.used <= limit + Sum(s.roles, Force)
    ensures a.SetExtension? ==>
              var extended := s.account.extended + Share(a.extra) - s.roles[a.i].chan.extension;
              WithinLimit(Next(s, a)) <==> s.account.used <= LimitOf(s.account.budget, extended) + Sum(s.roles, Force)
    ensures a.Finish? ==>
              var r := s.roles[a.i];
              var limit := LimitOf(s.account.budget, s.account.extended - r.chan.extension);
              WithinLimit(Next(s, a)) <==>
              s.account.used - r.chan.pendingCost <= limit + Sum(s.roles, Force) - Of(r, Force)
  {
    hide Sum, RoleOk;
    if a.SetBudget? {
      BudgetMoves(s, a);
    } else if OnRole(a) {
      TotalsMove(s, a);
      AccountMoves(s, a);
      assert Sum(Next(s, a).roles, Force)
             == Sum(s.roles, Force) - Of(s.roles[a.i], Force) + Of(RoleNext(s, a, s.roles[a.i]), Force);
    }
  }

  // ----- particular runs

  /** Some run with these actions ends in `t`. */
  ghost predicate Reaches(actions: seq<Action>, t: Conn) {
    exists states :: IsRun(states, actions) && states[|actions|] == t
  }

  lemma ReachesInit()
    ensures Reaches([], INIT)
  {
    assert IsRun([INIT], []);
  }

  lemma ReachesStep(actions: seq<Action>, s: Conn, a: Action, t: Conn)
    requires Reaches(actions, s) && Enabled(s, a) && Next(s, a) == t
    ensures Reaches(actions + [a], t)
  {
    hide Enabled, Next;
    var states :| IsRun(states, actions) && states[|actions|] == s;
    var longer, more := states + [t], actions + [a];
    forall i | 0 <= i < |more| ensures Enabled(longer[i], more[i]) && longer[i + 1] == Next(longer[i], more[i]) {
      if i < |actions| { assert more[i] == actions[i]; }
    }
    assert IsRun(longer, more) && longer[|more|] == t;
  }

  /** One byte in an allocation of one byte. */
  const BYTE := Segment([0], 1)
  const COST: int := 1 + SEGMENT_OVERHEAD

  const QUEUED := Appended(NEW_CHANNEL, BYTE)
  const SHARED := NEW_ROLE.(chan := NEW_CHANNEL.(extension := 100))
  const HOLDING := NEW_ROLE.(chan := QUEUED, accepted := [BYTE])
  const ENDED := NEW_ROLE.(chan := NEW_CHANNEL.(closed := true), done := true, finished := true)

  function Small(extended: int, used: int, roles: seq<Role>): Conn {
    Conn(Account(10, extended, 10 + extended, used, if used == 0 then 0 else 1), roles, DEFAULT_BUDGET)
  }

  lemma SmallBudget()
    ensures Enabled(INIT, SetBudget(10)) && Next(INIT, SetBudget(10)) == Small(0, 0, [])
    ensures Enabled(Small(0, 0, []), Open) && Next(Small(0, 0, []), Open) == Small(0, 0, [NEW_ROLE])
  {
    assert [] + [NEW_ROLE] == [NEW_ROLE];
  }

  lemma ExtendStep(rest: seq<Role>)
    ensures var s := Small(0, 0, [NEW_ROLE] + rest);
            Enabled(s, SetExtension(0, 100)) && Next(s, SetExtension(0, 100)) == Small(100, 0, [SHARED] + rest)
  {
    assert ([NEW_ROLE] + rest)[0 := SHARED] == [SHARED] + rest;
  }

  const FULL := SHARED.(chan := Appended(SHARED.chan, BYTE), accepted := [BYTE])

  lemma WithdrawSteps()
    ensures Enabled(Small(100, 0, [SHARED]), Enqueue(0, BYTE))
    ensures Next(Small(100, 0, [SHARED]), Enqueue(0, BYTE)) == Small(100, COST, [FULL])
    ensures Enabled(Small(100, COST, [FULL]), SetExtension(0, 0))
    ensures Next(Small(100, COST, [FULL]), SetExtension(0, 0)) == Small(0, COST, [HOLDING])
  {
    assert SHARED.accepted + [BYTE] == [BYTE] && SHARED.chan.queue + [BYTE] == [BYTE];
    assert RoleNext(INIT, Enqueue(0, BYTE), SHARED) == FULL;
    assert RoleNext(INIT, SetExtension(0, 0), FULL) == HOLDING;
    assert [SHARED][0 := FULL] == [FULL] && [FULL][0 := HOLDING] == [HOLDING];
  }

  lemma NothingForced(rest: seq<Role>)
    requires rest == [] || rest == [ENDED]
    ensures Sum(rest + [HOLDING], Force) == 0
  {
    SumAppend(rest, Force, HOLDING);
    assert [ENDED][1..] == [];
  }

  /** An untouched budget is not enough: set once before anything is queued, with one segment of one
      byte and nothing forced, withdrawing an extension leaves more retained than the limit allows. */
  lemma WithdrawnExtension()
    ensures exists t ::
              && Reaches([SetBudget(10), Open, SetExtension(0, 100), Enqueue(0, BYTE), SetExtension(0, 0)], t)
              && !WithinLimit(t) && Sum(t.roles, Force) == 0
  {
    hide Enabled, Next, Reaches, Sum;
    SmallBudget();
    ExtendStep([]);
    WithdrawSteps();
    assert [NEW_ROLE] + [] == [NEW_ROLE] && [SHARED] + [] == [SHARED] && [] + [HOLDING] == [HOLDING];
    var t := Small(0, COST, [HOLDING]);
    ReachesInit();
    var a1 := [] + [SetBudget(10)];
    ReachesStep([], INIT, SetBudget(10), Small(0, 0, []));
    var a2 := a1 + [Open];
    ReachesStep(a1, Small(0, 0, []), Open, Small(0, 0, [NEW_ROLE]));
    var a3 := a2 + [SetExtension(0, 100)];
    ReachesStep(a2, Small(0, 0, [NEW_ROLE]), SetExtension(0, 100), Small(100, 0, [SHARED]));
    var a4 := a3 + [Enqueue(0, BYTE)];
    ReachesStep(a3, Small(100, 0, [SHARED]), Enqueue(0, BYTE), Small(100, COST, [FULL]));
    ReachesStep(a4, Small(100, COST, [FULL]), SetExtension(0, 0), t);
    assert a4 + [SetExtension(0, 0)]
           == [SetBudget(10), Open, SetExtension(0, 100), Enqueue(0, BYTE), SetExtension(0, 0)];
    NothingForced([]);
    assert !WithinLimit(t);
  }

  const SIGNALLED := SHARED.(done := true)
  const CLOSED := SIGNALLED.(chan := SIGNALLED.chan.(closed := true))

  lemma StopSteps()
    ensures var s := Small(100, COST, [SHARED, HOLDING]);
            Enabled(s, Shutdown(0)) && Next(s, Shutdown(0)) == Small(100, COST, [SIGNALLED, HOLDING])
    ensures var s := Small(100, COST, [SIGNALLED, HOLDING]);
            Enabled(s, Close(0)) && Next(s, Close(0)) == Small(100, COST, [CLOSED, HOLDING])
    ensures var s := Small(100, COST, [CLOSED, HOLDING]);
            Enabled(s, Finish(0)) && Next(s, Finish(0)) == Small(0, COST, [ENDED, HOLDING])
  {
    assert RoleNext(INIT, Finish(0), CLOSED) == ENDED;
    assert [SHARED, HOLDING][0 := SIGNALLED] == [SIGNALLED, HOLDING];
    assert [SIGNALLED, HOLDING][0 := CLOSED] == [CLOSED, HOLDING];
    assert [CLOSED, HOLDING][0 := ENDED] == [ENDED, HOLDING];
  }

  lemma SecondRole()
    ensures var s := Small(0, 0, [NEW_ROLE]); Enabled(s, Open) && Next(s, Open) == Small(0, 0, [NEW_ROLE, NEW_ROLE])
    ensures var s := Small(100, 0, [SHARED, NEW_ROLE]);
            Enabled(s, Enqueue(1, BYTE)) && Next(s, Enqueue(1, BYTE)) == Small(100, COST, [SHARED, HOLDING])
  {
    assert [NEW_ROLE] + [NEW_ROLE] == [NEW_ROLE, NEW_ROLE];
    assert NEW_ROLE.accepted + [BYTE] == [BYTE] && NEW_CHANNEL.queue + [BYTE] == [BYTE];
    assert RoleNext(INIT, Enqueue(1, BYTE), NEW_ROLE) == HOLDING;
    assert [SHARED, NEW_ROLE][1 := HOLDING] == [SHARED, HOLDING];
  }

  /** Neither setter is needed: the forwarder of an idle role that returns takes its extension with
      it, while another role holds a segment that the extension made room for. */
  lemma FinishedExtension()
    ensures exists t ::
              && Reaches([SetBudget(10), Open, Open, SetExtension(0, 100), Enqueue(1, BYTE),
                          Shutdown(0), Close(0), Finish(0)], t)
              && !WithinLimit(t) && Sum(t.roles, Force) == 0
  {
    hide Enabled, Next, Reaches, Sum;
    SmallBudget();
    SecondRole();
    ExtendStep([NEW_ROLE]);
    StopSteps();
    assert [NEW_ROLE] + [NEW_ROLE] == [NEW_ROLE, NEW_ROLE] && [SHARED] + [NEW_ROLE] == [SHARED, NEW_ROLE];
    assert [ENDED] + [HOLDING] == [ENDED, HOLDING];
    var t := Small(0, COST, [ENDED, HOLDING]);
    ReachesInit();
    var a1 := [] + [SetBudget(10)];
    ReachesStep([], INIT, SetBudget(10), Small(0, 0, []));
    var a2 := a1 + [Open];
    ReachesStep(a1, Small(0, 0, []), Open, Small(0, 0, [NEW_ROLE]));
    var a3 := a2 + [Open];
    ReachesStep(a2, Small(0, 0, [NEW_ROLE]), Open, Small(0, 0, [NEW_ROLE, NEW_ROLE]));
    var a4 := a3 + [SetExtension(0, 100)];
    ReachesStep(a3, Small(0, 0, [NEW_ROLE, NEW_ROLE]), SetExtension(0, 100), Small(100, 0, [SHARED, NEW_ROLE]));
    var a5 := a4 + [Enqueue(1, BYTE)];
    ReachesStep(a4, Small(100, 0, [SHARED, NEW_ROLE]), Enqueue(1, BYTE), Small(100, COST, [SHARED, HOLDING]));
    var a6 := a5 + [Shutdown(0)];
    ReachesStep(a5, Small(100, COST, [SHARED, HOLDING]), Shutdown(0), Small(100, COST, [SIGNALLED, HOLDING]));
    var a7 := a6 + [Close(0)];
    ReachesStep(a6, Small(100, COST, [SIGNALLED, HOLDING]), Close(0), Small(100, COST, [CLOSED, HOLDING]));
    ReachesStep(a7, Small(100, COST, [CLOSED, HOLDING]), Finish(0), t);
    assert a7 + [Finish(0)] == [SetBudget(10), Open, Open, SetExtension(0, 100), Enqueue(1, BYTE),
                                Shutdown(0), Close(0), Finish(0)];
    NothingForced([ENDED]);
    assert !WithinLimit(t);
  }

  // ----- what stays behind

  ghost predicate AllFinished(s: Conn) { forall r :: r in s.roles ==> r.finished }

  lemma {:induction false} SumZero(roles: seq<Role>, m: Measure)
    requires forall r :: r in roles ==> RoleOk(r)
    ensures Sum(roles, m) == 0 <==> forall r :: r in roles ==> Of(r, m) == 0
  {
    hide RoleOk, Of;
    if roles != [] {
      var first, rest := roles[0], roles[1..];
      SumZero(rest, m);
      SumNonNegative(rest, m);
      SumAtLeast(roles, m, 0);
      assert roles == [first] + rest;
      if Sum(roles, m) == 0 {
        forall r | r in roles ensures Of(r, m) == 0 { assert r == first || r in rest; }
      } else if Of(first, m) == 0 {
        assert Sum(rest, m) != 0;
      }
    }
  }

  /** When every forwarder has returned, what the account still holds is what was accepted after that;
      it is back to zero exactly when nothing was. */
  lemma LeftBehind(states: seq<Conn>, actions: seq<Action>, i: nat)
    requires IsRun(states, actions) && i < |states| && AllFinished(states[i])
    ensures var s := states[i];
            && s.account.used == Sum(s.roles, Retained)
            && (forall r :: r in s.roles ==> r.chan.pendingCost == QueueCost(r.late))
            && (s.account.used == 0 <==> forall r :: r in s.roles ==> r.late == [])
  {
    RunKeepsInv(states, actions, i);
    hide Sum, Next, Enabled;
    var s := states[i];
    SumZero(s.roles, Retained);
    forall r | r in s.roles
      ensures r.chan.pendingCost == QueueCost(r.late) && (Of(r, Retained) == 0 <==> r.late == [])
    {
      assert RoleOk(r);
    }
  }

  /** A segment is accepted late only between the forwarder's return and the closing of the channel … */
  lemma LateInTheGap(s: Conn, a: Action, k: nat)
    requires Inv(s) && Enabled(s, a) && k < |s.roles|
    ensures k < |Next(s, a).roles|
    ensures var r, t := s.roles[k], Next(s, a).roles[k];
            t.late != r.late <==> a.Enqueue? && a.i == k && r.finished && !r.chan.closed
  {
    hide AccountNext;
  }

  /** … and what is left when both have happened stays for good. */
  lemma LeftForGood(s: Conn, a: Action, k: nat)
    requires Inv(s) && Enabled(s, a) && k < |s.roles| && s.roles[k].finished && s.roles[k].chan.closed
    ensures k < |Next(s, a).roles|
    ensures var r, t := s.roles[k], Next(s, a).roles[k];
            t.finished && t.chan.closed && t.chan.queue == r.chan.queue && t.chan.pendingCost == r.chan.pendingCost
  {
    hide AccountNext;
  }

  function Default(used: int, roles: seq<Role>): Conn {
    Conn(NEW_ACCOUNT.(used := used, payload := if used == 0 then 0 else 1), roles, DEFAULT_BUDGET)
  }

  const TAKEN := HOLDING.(chan := NEW_CHANNEL, hand := [BYTE])
  const STOPPING := TAKEN.(done := true)
  const RETURNED := STOPPING.(hand := [], finished := true)
  const REFILLED := RETURNED.(chan := QUEUED, accepted := [BYTE, BYTE], late := [BYTE])
  const SHUT := REFILLED.(chan := QUEUED.(closed := true))

  lemma FirstSteps()
    ensures Enabled(INIT, Open) && Next(INIT, Open) == Default(0, [NEW_ROLE])
    ensures var s := Default(0, [NEW_ROLE]);
            Enabled(s, Enqueue(0, BYTE)) && Next(s, Enqueue(0, BYTE)) == Default(COST, [HOLDING])
    ensures var s := Default(COST, [HOLDING]); Enabled(s, Take(0)) && Next(s, Take(0)) == Default(0, [TAKEN])
  {
    assert [] + [NEW_ROLE] == [NEW_ROLE] && [NEW_ROLE][0 := HOLDING] == [HOLDING] && [HOLDING][0 := TAKEN] == [TAKEN];
    assert NEW_ROLE.accepted + [BYTE] == [BYTE] && NEW_CHANNEL.queue + [BYTE] == [BYTE] && [BYTE][1..] == [];
    assert RoleNext(INIT, Enqueue(0, BYTE), NEW_ROLE) == HOLDING;
    assert RoleNext(INIT, Take(0), HOLDING) == TAKEN;
  }

  lemma ReturnSteps()
    ensures var s := Default(0, [TAKEN]); Enabled(s, Shutdown(0)) && Next(s, Shutdown(0)) == Default(0, [STOPPING])
    ensures var s := Default(0, [STOPPING]); Enabled(s, Finish(0)) && Next(s, Finish(0)) == Default(0, [RETURNED])
  {
    assert [TAKEN][0 := STOPPING] == [STOPPING] && [STOPPING][0 := RETURNED] == [RETURNED];
    assert RoleNext(INIT, Finish(0), STOPPING) == RETURNED;
  }

  lemma LateSteps()
    ensures var s := Default(0, [RETURNED]);
            Enabled(s, Enqueue(0, BYTE)) && Next(s, Enqueue(0, BYTE)) == Default(COST, [REFILLED])
    ensures var s := Default(COST, [REFILLED]); Enabled(s, Close(0)) && Next(s, Close(0)) == Default(COST, [SHUT])
  {
    assert [RETURNED][0 := REFILLED] == [REFILLED] && [REFILLED][0 := SHUT] == [SHUT];
    assert RETURNED.accepted + [BYTE] == [BYTE, BYTE] && [] + [BYTE] == [BYTE] && RETURNED.late + [BYTE] == [BYTE];
    assert RoleNext(INIT, Enqueue(0, BYTE), RETURNED) == REFILLED;
  }

  /** Stopping signals the forwarder before it closes the channel. A segment that arrives in between
      is accepted by a channel nobody serves, and its cost is never returned. */
  lemma SegmentLeftBehind()
    ensures exists t ::
              && Reaches([Open, Enqueue(0, BYTE), Take(0), Shutdown(0), Finish(0), Enqueue(0, BYTE), Close(0)], t)
              && AllFinished(t) && (forall r :: r in t.roles ==> r.chan.closed) && t.account.used == COST
  {
    hide Enabled, Next, Reaches;
    FirstSteps();
    ReturnSteps();
    LateSteps();
    var t := Default(COST, [SHUT]);
    ReachesInit();
    var a1 := [] + [Open];
    ReachesStep([], INIT, Open, Default(0, [NEW_ROLE]));
    var a2 := a1 + [Enqueue(0, BYTE)];
    ReachesStep(a1, Default(0, [NEW_ROLE]), Enqueue(0, BYTE), Default(COST, [HOLDING]));
    var a3 := a2 + [Take(0)];
    ReachesStep(a2, Default(COST, [HOLDING]), Take(0), Default(0, [TAKEN]));
    var a4 := a3 + [Shutdown(0)];
    ReachesStep(a3, Default(0, [TAKEN]), Shutdown(0), Default(0, [STOPPING]));
    var a5 := a4 + [Finish(0)];
    ReachesStep(a4, Default(0, [STOPPING]), Finish(0), Default(0, [RETURNED]));
    var a6 := a5 + [Enqueue(0, BYTE)];
    ReachesStep(a5, Default(0, [RETURNED]), Enqueue(0, BYTE), Default(COST, [REFILLED]));
    ReachesStep(a6, Default(COST, [REFILLED]), Close(0), t);
    assert a6 + [Close(0)]
           == [Open, Enqueue(0, BYTE), Take(0), Shutdown(0), Finish(0), Enqueue(0, BYTE), Close(0)];
    assert t.roles == [SHUT];
  }
}
