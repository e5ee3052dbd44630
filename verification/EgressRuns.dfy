/** All runs of the writers that share the scheduler: one owner, order within a class, and how
    long each class can wait. */
module EgressRuns {
  import opened Common
  import opened Egress
  import opened Numbers

  /** Where a writer is inside acquire and release: it took the free turn; it waits; its grant was
      signalled; it writes; it is about to release; it saw the shutdown and is about to leave the
      queue; it left too late and must hand the turn on. A writer outside is absent. */
  datatype At = Took | Waiting | Signalled | Writing | Releasing | Leaving | Handing

  /** `turn` remembers who last took or was granted the turn. */
  datatype System = System(turns: Turns, at: map<nat, At>, turn: Option<nat>, done: bool)

  const INIT := System(NEW, map[], None, false)

  datatype Action =
    | Join(w: nat, protocolId: nat)
    | Check(w: nat)
    | GiveUp(w: nat)
    | Leave(w: nat)
    | HandOn(w: nat)
    | Free(w: nat)
    | Shutdown

  predicate Stands(s: System, w: nat, places: set<At>) { w in s.at && s.at[w] in places }

  predicate Enabled(s: System, a: Action) {
    match a
    case Join(w, _) => w !in s.at
    case Check(w) => Stands(s, w, {Took, Signalled})
    case GiveUp(w) => s.done && Stands(s, w, {Waiting, Signalled})
    case Leave(w) => Stands(s, w, {Leaving})
    case HandOn(w) => Stands(s, w, {Handing})
    case Free(w) => Stands(s, w, {Writing, Releasing})
    case Shutdown => true
  }

  /** The granted writer, unless it is already leaving, finds its channel closed. */
  function Signal(at: map<nat, At>, granted: Option<nat>): map<nat, At> {
    if granted.Some? && granted.value in at && at[granted.value] == Waiting
    then at[granted.value := Signalled] else at
  }

  function Next(s: System, a: Action): System
    requires Enabled(s, a)
  {
    match a
    case Join(w, protocolId) =>
      s.(turns := Enter(s.turns, w, ClassOf(protocolId)), at := s.at[w := if s.turns.busy then Waiting else Took],
         turn := if s.turns.busy then s.turn else Some(w))
    case Check(w) => s.(at := s.at[w := if s.done then Releasing else Writing])
    case GiveUp(w) => s.(at := s.at[w := Leaving])
    case Leave(w) =>
      if Queued(s.turns, w) then s.(turns := Remove(s.turns, w), at := s.at - {w})
      else s.(at := s.at[w := Handing])
    case HandOn(w) => s.(at := s.at[w := Releasing])
    case Free(w) =>
      s.(turns := Release(s.turns), at := Signal(s.at - {w}, Granted(s.turns)), turn := Granted(s.turns))
    case Shutdown => s.(done := true)
  }

  // ----- who owns the turn

  predicate Owns(s: System, w: nat) {
    w in s.at && s.at[w] != Waiting && (s.at[w] == Leaving ==> !Queued(s.turns, w))
  }

  /** The waiters are those in a queue; some of them are already leaving. */
  ghost predicate Waiters(s: System) {
    && (forall w: nat :: Queued(s.turns, w) ==> w in s.at && (s.at[w] == Waiting || s.at[w] == Leaving))
    && (forall w :: w in s.at && s.at[w] == Waiting ==> Queued(s.turns, w))
  }

  /** Whoever is inside and not in a queue has the turn. */
  ghost predicate OneOwner(s: System) {
    && (s.turns.busy ==> s.turn.Some? && s.turn.value in s.at && !Queued(s.turns, s.turn.value))
    && (forall w :: w in s.at && !Queued(s.turns, w) ==> s.turns.busy && s.turn == Some(w))
  }

  ghost predicate Inv(s: System) { Sound(s.turns) && Waiters(s) && OneOwner(s) }

  lemma FreeKeepsInv(s: System, w: nat)
    requires Inv(s) && Enabled(s, Free(w))
    ensures Inv(Next(s, Free(w)))
  {
    hide Sound, Queued, Release, Granted;
    ReleaseQueues(s.turns);
  }

  lemma LeaveKeepsInv(s: System, w: nat)
    requires Inv(s) && Enabled(s, Leave(w))
    ensures Inv(Next(s, Leave(w)))
  {
    hide Sound, Queued, Remove;
    RemoveQueues(s.turns, w);
  }

  lemma JoinKeepsInv(s: System, w: nat, protocolId: nat)
    requires Inv(s) && Enabled(s, Join(w, protocolId))
    ensures Inv(Next(s, Join(w, protocolId)))
  {
    hide Sound, Queued, Enter;
    EnterQueues(s.turns, w, ClassOf(protocolId));
  }

  lemma MoveKeepsInv(s: System, a: Action)
    requires Inv(s) && Enabled(s, a) && (a.Check? || a.GiveUp? || a.HandOn? || a.Shutdown?)
    ensures Inv(Next(s, a))
  {
    hide Sound, Queued;
  }

  lemma StepKeepsInv(s: System, a: Action)
    requires Inv(s) && Enabled(s, a)
    ensures Inv(Next(s, a))
  {
    hide Inv, Next, Enabled;
    match a
    case Join(w, protocolId) => JoinKeepsInv(s, w, protocolId);
    case Leave(w) => LeaveKeepsInv(s, w);
    case Free(w) => FreeKeepsInv(s, w);
    case Check(_) | GiveUp(_) | HandOn(_) | Shutdown => MoveKeepsInv(s, a);
  }

  ghost predicate IsRun(states: seq<System>, actions: seq<Action>) {
    && |states| == |actions| + 1 && states[0] == INIT
    && forall i {:trigger actions[i]} :: 0 <= i < |actions| ==>
         Enabled(states[i], actions[i]) && states[i + 1] == Next(states[i], actions[i])
  }

  lemma InitKeepsInv()
    ensures Inv(INIT)
  {
  }

  lemma {:induction false} RunKeepsInv(states: seq<System>, actions: seq<Action>, i: nat)
    requires IsRun(states, actions) && i < |states|
    ensures Inv(states[i])
  {
    hide Inv, Next, Enabled;
    if i == 0 {
      InitKeepsInv();
    } else {
      RunKeepsInv(states, actions, i - 1);
      var a := actions[i - 1];
      StepKeepsInv(states[i - 1], a);
    }
  }

  /** In every reachable state: when busy exactly one writer owns the turn, shutdown hand-back
      included; when not, nobody owns it and both queues are empty. */
  lemma ExactlyOneOwner(states: seq<System>, actions: seq<Action>, i: nat)
    requires IsRun(states, actions) && i < |states|
    ensures var s := states[i];
            if s.turns.busy then exists o: nat :: Owns(s, o) && forall w: nat :: Owns(s, w) ==> w == o
            else s.turns.praos == [] && s.turns.leios == [] && forall w: nat :: !Owns(s, w)
  {
    RunKeepsInv(states, actions, i);
    var s := states[i];
    if s.turns.busy { assert Owns(s, s.turn.value); }
  }

  /** The step the owner of the turn, or a writer on its way out, takes next. */
  function NextStep(s: System, w: nat): Action
    requires w in s.at
  {
    match s.at[w]
    case Took | Signalled => Check(w)
    case Writing | Releasing => Free(w)
    case Leaving => Leave(w)
    case Handing => HandOn(w)
    case Waiting => GiveUp(w)
  }

  /** No deadlock: in every reachable state with anybody inside, somebody who does not wait can move,
      and shutdown can come at any time and lets every waiter go. */
  lemma NoDeadlock(states: seq<System>, actions: seq<Action>, i: nat, w: nat)
    requires IsRun(states, actions) && i < |states| && w in states[i].at
    ensures var s := states[i];
            && (exists o :: o in s.at && s.at[o] != Waiting && Enabled(s, NextStep(s, o)))
            && Enabled(s, Shutdown) && Next(s, Shutdown).at == s.at
            && Enabled(Next(s, Shutdown), NextStep(s, w))
  {
    RunKeepsInv(states, actions, i);
    var s := states[i];
    var o := s.turn.value;
    assert o in s.at && s.at[o] != Waiting && Enabled(s, NextStep(s, o));
  }

  // ----- order within a class

  /** `x` stands before `y` in the queue of the class. */
  predicate Before(t: Turns, c: Class, x: nat, y: nat) {
    x in Queue(t, c) && y in Queue(t, c) && IndexOf(Queue(t, c), x) < IndexOf(Queue(t, c), y)
  }

  /** Whether a step takes somebody ahead of `x` out of its queue. */
  predicate Overtakes(s: System, a: Action, c: Class, x: nat)
    requires x in Queue(s.turns, c)
  {
    var q := Queue(s.turns, c);
    || (a.Leave? && a.w in q && IndexOf(q, a.w) < IndexOf(q, x))
    || (a.Free? && Granted(s.turns).Some? && Granted(s.turns).value in q)
  }

  /** A waiter that stays moves up by exactly the one place that a step frees ahead of it. */
  lemma StepMoves(s: System, a: Action, c: Class, x: nat)
    requires Inv(s) && Enabled(s, a)
    requires x in Queue(s.turns, c) && x in Queue(Next(s, a).turns, c)
    ensures IndexOf(Queue(Next(s, a).turns, c), x) ==
            if Overtakes(s, a, c, x) then IndexOf(Queue(s.turns, c), x) - 1 else IndexOf(Queue(s.turns, c), x)
  {
    hide Enter, Remove, Release, Granted, IndexOf, Sound, Waiters, OneOwner;
    match a
    case Join(w, protocolId) => EnterIndex(s.turns, w, ClassOf(protocolId), c, x);
    case Leave(w) => if Queued(s.turns, w) { RemoveIndex(s.turns, w, c, x); }
    case Free(_) => ReleaseIndex(s.turns, c, x);
    case Check(_) | GiveUp(_) | HandOn(_) | Shutdown =>
  }

  /** `x` is in the queue of the class at every moment from `i` to `j`. */
  ghost predicate Stays(states: seq<System>, c: Class, x: nat, i: nat, j: nat) {
    i <= j < |states| && forall k :: i <= k <= j ==> x in Queue(states[k].turns, c)
  }

  /** First come, first served: while both wait nobody overtakes, so `y` is not granted the turn
      before `x`, which arrived earlier in the same class. */
  lemma {:induction false} NoOvertaking(
      states: seq<System>, actions: seq<Action>, c: Class, x: nat, y: nat, i: nat, j: nat)
    requires IsRun(states, actions) && Stays(states, c, x, i, j) && Stays(states, c, y, i, j)
    requires Before(states[i].turns, c, x, y)
    ensures Before(states[j].turns, c, x, y) && Granted(states[j].turns) != Some(y)
    decreases j
  {
    hide Next, Enabled, Inv, Before;
    RunKeepsInv(states, actions, j);
    if i < j {
      NoOvertaking(states, actions, c, x, y, i, j - 1);
      RunKeepsInv(states, actions, j - 1);
      var a := actions[j - 1];
      OrderStep(states[j - 1], a, c, x, y);
    }
    FrontGranted(states[j], c, x, y);
  }

  lemma OrderStep(s: System, a: Action, c: Class, x: nat, y: nat)
    requires Inv(s) && Enabled(s, a) && Before(s.turns, c, x, y)
    requires x in Queue(Next(s, a).turns, c) && y in Queue(Next(s, a).turns, c)
    ensures Before(Next(s, a).turns, c, x, y)
  {
    hide Next, Enabled, IndexOf, Overtakes, Inv;
    StepMoves(s, a, c, x);
    StepMoves(s, a, c, y);
    OvertakesBoth(s, a, c, x, y);
  }

  lemma OvertakesBoth(s: System, a: Action, c: Class, x: nat, y: nat)
    requires Inv(s) && Enabled(s, a) && Before(s.turns, c, x, y) && x in Queue(Next(s, a).turns, c)
    ensures Overtakes(s, a, c, x) ==> Overtakes(s, a, c, y)
    ensures Overtakes(s, a, c, y) && !Overtakes(s, a, c, x) ==>
              IndexOf(Queue(s.turns, c), x) + 1 < IndexOf(Queue(s.turns, c), y)
  {
    hide IndexOf;
    var q := Queue(s.turns, c);
    if a.Leave? && a.w in q && !Overtakes(s, a, c, x) {
      if a.w == x { WithoutMembers(q, x); }
    }
  }

  lemma FrontGranted(s: System, c: Class, x: nat, y: nat)
    requires Inv(s) && Before(s.turns, c, x, y)
    ensures Granted(s.turns) != Some(y)
  {
  }

  // ----- bounded waiting

  /** How many releases a Leios waiter can still see before its own. */
  function LeiosRank(t: Turns, w: nat): nat
    requires w in t.leios
  {
    9 * IndexOf(t.leios, w) + 9 - Min(t.praosRun, PRAOS_BURST)
  }

  /** How many Leios grants a Praos waiter can still see before its own. */
  function PraosRank(t: Turns, w: nat): nat
    requires w in t.praos
  {
    (IndexOf(t.praos, w) + t.praosRun) / PRAOS_BURST
  }

  predicate LeiosGrant(s: System, a: Action) { a.Free? && LeiosNext(s.turns) }

  function Releases(actions: seq<Action>, i: nat, j: nat): nat
    requires i <= j <= |actions|
    decreases j
  {
    if i == j then 0 else Releases(actions, i, j - 1) + if actions[j - 1].Free? then 1 else 0
  }

  function LeiosGrants(states: seq<System>, actions: seq<Action>, i: nat, j: nat): nat
    requires i <= j <= |actions| <= |states|
    decreases j
  {
    if i == j then 0
    else LeiosGrants(states, actions, i, j - 1) + if LeiosGrant(states[j - 1], actions[j - 1]) then 1 else 0
  }

  lemma LeiosStep(s: System, a: Action, w: nat)
    requires Inv(s) && Enabled(s, a) && w in s.turns.leios && w in Next(s, a).turns.leios
    ensures LeiosRank(Next(s, a).turns, w) + (if a.Free? then 1 else 0) <= LeiosRank(s.turns, w)
  {
    hide IndexOf, Waiters, OneOwner;
    StepMoves(s, a, Leios, w);
  }

  lemma PraosStep(s: System, a: Action, w: nat)
    requires Inv(s) && Enabled(s, a) && w in s.turns.praos && w in Next(s, a).turns.praos
    ensures PraosRank(Next(s, a).turns, w) + (if LeiosGrant(s, a) then 1 else 0) <= PraosRank(s.turns, w)
  {
    hide IndexOf, Waiters, OneOwner;
    StepMoves(s, a, Praos, w);
  }

  lemma {:induction false} LeiosCount(states: seq<System>, actions: seq<Action>, w: nat, i: nat, j: nat)
    requires IsRun(states, actions) && Stays(states, Leios, w, i, j)
    ensures Releases(actions, i, j) + LeiosRank(states[j].turns, w) <= LeiosRank(states[i].turns, w)
    decreases j
  {
    hide Next, Enabled, Inv, LeiosRank;
    if i < j {
      assert w in Queue(states[j - 1].turns, Leios) && w in Queue(states[j].turns, Leios);
      LeiosCount(states, actions, w, i, j - 1);
      RunKeepsInv(states, actions, j - 1);
      var a := actions[j - 1];
      LeiosStep(states[j - 1], a, w);
    }
  }

  lemma {:induction false} PraosCount(states: seq<System>, actions: seq<Action>, w: nat, i: nat, j: nat)
    requires IsRun(states, actions) && Stays(states, Praos, w, i, j)
    ensures LeiosGrants(states, actions, i, j) + PraosRank(states[j].turns, w) <= PraosRank(states[i].turns, w)
    decreases j
  {
    hide Next, Enabled, Inv, PraosRank, LeiosGrant;
    if i < j {
      assert w in Queue(states[j - 1].turns, Praos) && w in Queue(states[j].turns, Praos);
      PraosCount(states, actions, w, i, j - 1);
      RunKeepsInv(states, actions, j - 1);
      var a := actions[j - 1];
      PraosStep(states[j - 1], a, w);
    }
  }

  /** A Leios waiter at position `p` is granted within 9(p + 1) releases, whoever arrives or leaves:
      after that many it no longer waits. */
  lemma LeiosBound(states: seq<System>, actions: seq<Action>, w: nat, i: nat, j: nat)
    requires IsRun(states, actions) && Stays(states, Leios, w, i, j)
    ensures Releases(actions, i, j) < 9 * (IndexOf(states[i].turns.leios, w) + 1)
  {
    hide IndexOf, Releases;
    LeiosCount(states, actions, w, i, j);
  }

  /** A Praos waiter at position `p` sees at most p/8 + 1 Leios grants. */
  lemma PraosBound(states: seq<System>, actions: seq<Action>, w: nat, i: nat, j: nat)
    requires IsRun(states, actions) && Stays(states, Praos, w, i, j)
    ensures LeiosGrants(states, actions, i, j) <= IndexOf(states[i].turns.praos, w) / 8 + 1
  {
    hide IndexOf, LeiosGrants;
    PraosCount(states, actions, w, i, j);
    RunKeepsInv(states, actions, i);
  }
}
