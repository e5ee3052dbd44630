/** The scheduler that serialises writes to the connection: Praos first, each class in arrival
    order, and one Leios segment after a burst of Praos segments. */
module Egress {
  import opened Common

  const PRAOS_BURST := 8

  datatype Class = Praos | Leios

  /** Outbound traffic class of a mini-protocol number. */
  function ClassOf(protocolId: nat): Class {
    if protocolId in {18, 19, 20} then Leios else Praos
  }

  /** The fields of the scheduler; waiters are named by numbers. */
  datatype Turns = Turns(busy: bool, praos: seq<nat>, leios: seq<nat>, praosRun: nat)

  const NEW := Turns(false, [], [], 0)

  /** Join the queue of a class, or take the free turn. */
  function Enter(t: Turns, w: nat, c: Class): Turns {
    if !t.busy then t.(busy := true)
    else if c == Leios then t.(leios := t.leios + [w])
    else t.(praos := t.praos + [w])
  }

  function Remove(t: Turns, w: nat): Turns {
    if w in t.praos then t.(praos := Without(t.praos, w)) else t.(leios := Without(t.leios, w))
  }

  predicate Queued(t: Turns, w: nat) { w in t.praos || w in t.leios }

  predicate LeiosNext(t: Turns) { t.leios != [] && (t.praos == [] || t.praosRun >= PRAOS_BURST) }

  /** Who gets the turn when it is released. */
  function Granted(t: Turns): Option<nat> {
    if LeiosNext(t) then Some(t.leios[0]) else if t.praos != [] then Some(t.praos[0]) else None
  }

  function Release(t: Turns): Turns {
    if LeiosNext(t) then t.(leios := t.leios[1..], praosRun := 0)
    else if t.praos != [] then
      t.(praos := t.praos[1..], praosRun := if t.leios != [] then t.praosRun + 1 else t.praosRun)
    else Turns(false, [], [], 0)
  }

  // ----- the scheduler as an object

  class Scheduler {
    var busy: bool
    var praos: seq<nat>
    var leios: seq<nat>
    var praosRun: nat

    constructor ()
      ensures State() == NEW
    {
      busy, praos, leios, praosRun := false, [], [], 0;
    }

    function State(): Turns
      reads this
    {
      Turns(busy, praos, leios, praosRun)
    }

    /** The locked part of acquire: true when the turn was free. */
    method Acquire(w: nat, protocolId: nat) returns (taken: bool)
      modifies this
      ensures taken == !old(busy) && State() == Enter(old(State()), w, ClassOf(protocolId))
      ensures busy && praosRun == old(praosRun)
      ensures leios == if old(busy) && 18 <= protocolId <= 20 then old(leios) + [w] else old(leios)
      ensures praos == if old(busy) && !(18 <= protocolId <= 20) then old(praos) + [w] else old(praos)
    {
      if !busy {
        busy := true;
        return true;
      }
      if ClassOf(protocolId) == Leios { leios := leios + [w]; } else { praos := praos + [w]; }
      return false;
    }

    method RemoveWaiter(w: nat) returns (queued: bool)
      modifies this
      ensures queued == Queued(old(State()), w) && State() == Remove(old(State()), w)
    {
      var i := Find(praos, w);
      if i < |praos| {
        praos := praos[..i] + praos[i + 1..];
        return true;
      }
      i := Find(leios, w);
      queued := i < |leios|;
      if queued { leios := leios[..i] + leios[i + 1..]; }
    }

    /** Hands the turn on, or frees it. */
    method ReleaseTurn() returns (granted: Option<nat>)
      modifies this
      ensures granted == Granted(old(State())) && State() == Release(old(State()))
    {
      if |leios| == 0 && |praos| == 0 {
        busy, praosRun := false, 0;
        return None;
      }
      if |leios| > 0 && (|praos| == 0 || praosRun >= PRAOS_BURST) {
        granted := Some(leios[0]);
        leios, praosRun := leios[1..], 0;
      } else {
        granted := Some(praos[0]);
        praos := praos[1..];
        if |leios| > 0 { praosRun := praosRun + 1; }
      }
    }
  }

  /** The first index that holds `w`, or the length. */
  method Find(q: seq<nat>, w: nat) returns (i: nat)
    ensures i <= |q| && (i < |q| <==> w in q)
    ensures i < |q| ==> q[i] == w && Without(q, w) == q[..i] + q[i + 1..]
    ensures i == |q| ==> Without(q, w) == q
  {
    i := 0;
    while i < |q|
      invariant i <= |q| && w !in q[..i] && Without(q, w) == q[..i] + Without(q[i..], w)
    {
      if q[i] == w { return; }
      assert q[i..][1..] == q[i + 1..];
      i := i + 1;
    }
  }

  // ----- positions and order

  function IndexOf(q: seq<nat>, w: nat): (i: nat)
    requires w in q
    ensures i < |q| && q[i] == w && w !in q[..i]
  {
    if q[0] == w then 0 else 1 + IndexOf(q[1..], w)
  }

  /** Leaving the queue keeps the others in order, and only those behind move up. */
  lemma {:induction false} WithoutIndex(q: seq<nat>, w: nat, x: nat)
    requires Distinct(q) && x in q && x != w
    ensures x in Without(q, w)
    ensures IndexOf(Without(q, w), x) ==
            if w in q && IndexOf(q, w) < IndexOf(q, x) then IndexOf(q, x) - 1 else IndexOf(q, x)
  {
    if q[0] != w && q[0] != x { WithoutIndex(q[1..], w, x); }
    WithoutMembers(q, w);
  }

  lemma {:induction false} AppendIndex(q: seq<nat>, w: nat, x: nat)
    requires x in q
    ensures IndexOf(q + [w], x) == IndexOf(q, x)
  {
    if q[0] != x {
      AppendIndex(q[1..], w, x);
      assert (q + [w])[1..] == q[1..] + [w];
    }
  }

  // ----- what each operation does to the set of waiters

  /** Nobody waits twice; nobody waits while the turn is free; the burst count is bounded. */
  predicate Sound(t: Turns) {
    && Distinct(t.praos) && Distinct(t.leios)
    && (forall w :: w in t.praos ==> w !in t.leios)
    && (!t.busy ==> t.praos == [] && t.leios == [])
    && t.praosRun <= PRAOS_BURST
  }

  lemma EnterQueues(t: Turns, w: nat, c: Class)
    requires Sound(t) && !Queued(t, w)
    ensures Sound(Enter(t, w, c)) && Enter(t, w, c).busy
    ensures forall x: nat :: Queued(Enter(t, w, c), x) <==> Queued(t, x) || (t.busy && x == w)
  {
  }

  lemma RemoveQueues(t: Turns, w: nat)
    requires Sound(t)
    ensures Sound(Remove(t, w)) && Remove(t, w).busy == t.busy
    ensures forall x: nat :: Queued(Remove(t, w), x) <==> Queued(t, x) && x != w
  {
    hide Without;
    WithoutMembers(t.praos, w);
    WithoutMembers(t.leios, w);
    if !t.busy { WithoutAbsent([], w); }
  }

  lemma ReleaseQueues(t: Turns)
    requires Sound(t)
    ensures Sound(Release(t)) && Release(t).busy == Granted(t).Some?
    ensures forall x: nat :: Queued(Release(t), x) <==> Queued(t, x) && Granted(t) != Some(x)
    ensures Granted(t).Some? ==> Queued(t, Granted(t).value)
  {
  }

  // ----- what each operation does to the place of a waiter

  function Queue(t: Turns, c: Class): seq<nat> { if c == Leios then t.leios else t.praos }

  lemma EnterIndex(t: Turns, w: nat, to: Class, c: Class, x: nat)
    requires x in Queue(t, c)
    ensures x in Queue(Enter(t, w, to), c) && IndexOf(Queue(Enter(t, w, to), c), x) == IndexOf(Queue(t, c), x)
  {
    AppendIndex(Queue(t, c), w, x);
  }

  lemma RemoveIndex(t: Turns, w: nat, c: Class, x: nat)
    requires Sound(t) && x in Queue(t, c) && x in Queue(Remove(t, w), c)
    ensures var q := Queue(t, c);
            IndexOf(Queue(Remove(t, w), c), x) ==
            if w in q && IndexOf(q, w) < IndexOf(q, x) then IndexOf(q, x) - 1 else IndexOf(q, x)
  {
    hide Without, IndexOf;
    var q := Queue(t, c);
    WithoutMembers(q, w);
    if x != w { WithoutIndex(q, w, x); }
    if w !in q { WithoutAbsent(q, w); }
  }

  lemma ReleaseIndex(t: Turns, c: Class, x: nat)
    requires Sound(t) && x in Queue(t, c) && x in Queue(Release(t), c)
    ensures var q := Queue(t, c);
            IndexOf(Queue(Release(t), c), x) ==
            if Granted(t).Some? && Granted(t).value in q then IndexOf(q, x) - 1 else IndexOf(q, x)
  {
  }
}
