/** The ordered block pipeline as a step system: submitters that hold the gate, workers that
    permute what was submitted, the one apply runner, fences, and cancellation at any moment. */
module Pipeline {
  import opened ApplyStage

  /** A loop that waits until `completed` reaches `target`, as Fence and Submit's backpressure do. */
  datatype Wait = Wait(target: nat, at: WaitAt)

  /** About to check; holding the completion lock after a check that failed; waiting on the
      completion channel of generation `gen`; through. */
  datatype WaitAt = Checking | Armed | Parked(gen: nat) | Released

  /** The submit gate: free; held by a submitter waiting for capacity; held by one whose item is
      in the queue but whose sequence number is not committed yet. */
  datatype Gate = Free | Held(wait: Wait) | Sent

  /** The runner: at its input; about to store the completed sequence; about to replace the
      completion channel; returned. `fatal` tells that it will return instead of going on. */
  datatype Runner = Idle | Marking(target: nat, fatal: bool) | Closing(fatal: bool) | Stopped

  datatype State = State(
    submitted: nat,
    flying: map<nat, Item>,
    dropped: set<nat>,
    stage: Stage,
    log: seq<Item>,
    completed: nat,
    gen: nat,
    cancelled: bool,
    runner: Runner,
    gate: Gate,
    fences: map<nat, Wait>,
    overflowed: bool)

  const INIT := State(0, map[], {}, Stage(map[], 0), [], 0, 0, false, Idle, Free, map[], false)

  datatype WaitAction = Peek | Probe | Park | Wake

  datatype Action =
    | Lock
    | Unlock
    | Send(item: Item)
    | Commit
    | GateWait(step: WaitAction)
    | Fence(id: nat)
    | FenceWait(id: nat, step: WaitAction)
    | FenceEnd(id: nat)
    | Receive(key: nat, fuse: Fuse)
    | Store
    | Close
    | Drop(key: nat)
    | Cancel
    | Stop

  // ----- steps

  /** The completed sequence that leaves room for one more submission. */
  function Needed(cfg: Config, submitted: nat): nat {
    if cfg.maxPending <= 0 || submitted <= cfg.maxPending then 0 else submitted - cfg.maxPending
  }

  predicate GateArmed(s: State) { s.gate.Held? && s.gate.wait.at == Armed }

  /** Nobody holds the completion lock. */
  predicate Unlocked(s: State) {
    !GateArmed(s) && forall id :: id in s.fences ==> s.fences[id].at != Armed
  }

  predicate WaitEnabled(s: State, w: Wait, a: WaitAction) {
    match a
    case Peek => w.at == Checking && s.completed >= w.target
    case Probe => w.at == Checking && Unlocked(s)
    case Park => w.at == Armed
    case Wake => w.at.Parked? && s.gen > w.at.gen
  }

  function WaitNext(s: State, w: Wait, a: WaitAction): Wait {
    match a
    case Peek => w.(at := Released)
    case Probe => w.(at := if s.completed >= w.target then Released else Armed)
    case Park => w.(at := Parked(s.gen))
    case Wake => w.(at := Checking)
  }

  predicate Enabled(cfg: Config, s: State, a: Action) {
    match a
    case Lock => s.gate == Free
    case Unlock => s.gate.Held? && s.gate.wait.at != Armed
    case Send(item) => s.gate.Held? && s.gate.wait.at == Released && item.sequence == s.submitted
    case Commit => s.gate == Sent
    case GateWait(step) => s.gate.Held? && WaitEnabled(s, s.gate.wait, step)
    case Fence(id) => s.gate == Free && id !in s.fences
    case FenceWait(id, step) => id in s.fences && WaitEnabled(s, s.fences[id], step)
    case FenceEnd(id) => id in s.fences && s.fences[id].at != Armed
    case Receive(key, fuse) => s.runner == Idle && key in s.flying && (s.cancelled ==> Done(fuse))
    case Store => s.runner.Marking?
    case Close => s.runner.Closing? && Unlocked(s)
    case Drop(key) => key in s.flying
    case Cancel => true
    case Stop => s.runner == Idle
  }

  predicate FatalFailure(f: Failure) { f == ItemRejected || f == PendingLimitExceeded }

  /** The runner after a call: first account for what was processed, then fail or go on. */
  function AfterCall(r: Result): Runner {
    if r.processed != [] then Marking(r.processed[|r.processed| - 1].sequence + 1, FatalFailure(r.failure))
    else if FatalFailure(r.failure) then Stopped
    else Idle
  }

  function Received(cfg: Config, s: State, key: nat, fuse: Fuse): State
    requires key in s.flying
  {
    var r := Process(cfg, s.stage, fuse, s.flying[key]);
    s.(flying := s.flying - {key}, stage := r.stage, log := s.log + r.processed, runner := AfterCall(r),
       cancelled := s.cancelled || Done(r.fuse) || AfterCall(r) == Stopped,
       overflowed := s.overflowed || r.failure == PendingLimitExceeded)
  }

  function Next(cfg: Config, s: State, a: Action): State
    requires Enabled(cfg, s, a)
  {
    match a
    case Lock => s.(gate := Held(Wait(Needed(cfg, s.submitted), Checking)))
    case Unlock => s.(gate := Free)
    case Send(item) => s.(gate := Sent, flying := s.flying[s.submitted := item])
    case Commit => s.(gate := Free, submitted := s.submitted + 1)
    case GateWait(step) => s.(gate := Held(WaitNext(s, s.gate.wait, step)))
    case Fence(id) => s.(fences := s.fences[id := Wait(s.submitted, Checking)])
    case FenceWait(id, step) => s.(fences := s.fences[id := WaitNext(s, s.fences[id], step)])
    case FenceEnd(id) => s.(fences := s.fences - {id})
    case Receive(key, fuse) => Received(cfg, s, key, fuse)
    case Store => s.(completed := s.runner.target, runner := Closing(s.runner.fatal))
    case Close =>
      s.(gen := s.gen + 1, runner := if s.runner.fatal then Stopped else Idle,
         cancelled := s.cancelled || s.runner.fatal)
    case Drop(key) => s.(flying := s.flying - {key}, dropped := s.dropped + {key})
    case Cancel => s.(cancelled := true)
    case Stop => s.(runner := Stopped)
  }

  // ----- invariants

  /** Sequence numbers handed out, the one being committed included. */
  function Issued(s: State): nat { if s.gate.Sent? then s.submitted + 1 else s.submitted }

  predicate Fatal(s: State) { s.runner.Stopped? || (!s.runner.Idle? && s.runner.fatal) }

  /** No further item can be processed. */
  predicate Dead(s: State) { s.cancelled || Fatal(s) }

  /** What was processed is 0, 1, 2, … in order; the stage is at the next number, or one past it
      when an item was lost, and then nothing more is processed. */
  predicate InOrder(s: State) {
    && Consecutive(s.log, 0) && Ordered(s.stage)
    && |s.log| <= s.stage.next <= |s.log| + 1
    && (!Dead(s) ==> s.stage.next == |s.log| && s.stage.next !in s.stage.pending)
  }

  /** Numbers in flight, buffered and dropped are distinct, issued, and not passed by the stage. */
  predicate Accounted(s: State) {
    && s.stage.next <= Issued(s)
    && (forall k :: k in s.flying ==> s.flying[k].sequence == k && s.stage.next <= k < Issued(s)
                                      && k !in s.stage.pending && k !in s.dropped)
    && (forall k :: k in s.stage.pending ==> k < Issued(s) && k !in s.dropped)
    && (forall k :: k in s.dropped ==> s.stage.next <= k < Issued(s))
    && (!Dead(s) ==>
          forall k :: s.stage.next <= k < Issued(s) ==> k in s.flying || k in s.stage.pending || k in s.dropped)
  }

  /** The completed sequence is what was processed, up to the runner's own bookkeeping. */
  predicate Completion(s: State) {
    && s.completed <= |s.log|
    && (if s.runner.Marking? then s.runner.target == |s.log| else s.completed == |s.log|)
  }

  predicate Capacity(cfg: Config, s: State) {
    && (cfg.maxPending > 0 ==> Issued(s) <= s.completed + cfg.maxPending + 1)
    && (s.gate.Held? ==> s.gate.wait.target == Needed(cfg, s.submitted))
    && !s.overflowed
  }

  /** A waiter that is through has what it waited for; one that waits for what is already there is
      on a replaced channel, or the runner is about to replace it. */
  predicate WaitOk(s: State, w: Wait) {
    match w.at
    case Checking => true
    case Released => s.completed >= w.target
    case Armed => s.completed >= w.target ==> s.runner.Closing?
    case Parked(k) => k <= s.gen && (s.completed >= w.target && k == s.gen ==> s.runner.Closing?)
  }

  predicate Waits(s: State) {
    && (s.gate.Held? ==> WaitOk(s, s.gate.wait))
    && (forall id :: id in s.fences ==> WaitOk(s, s.fences[id]) && s.fences[id].target <= s.submitted)
  }

  predicate Inv(cfg: Config, s: State) {
    InOrder(s) && Accounted(s) && Completion(s) && Capacity(cfg, s) && Waits(s)
  }

  // ----- every step keeps them

  lemma {:induction false} Bounded(keys: set<nat>, lo: nat, hi: nat)
    requires lo <= hi && forall k :: k in keys ==> lo <= k < hi
    ensures |keys| <= hi - lo
    decreases hi - lo
  {
    if lo < hi {
      Bounded(keys - {lo}, lo + 1, hi);
    } else {
      assert keys == {};
    }
  }

  /** The admission rule leaves room in the buffer for every number that is in flight. */
  lemma RoomForPending(cfg: Config, s: State, key: nat)
    requires Inv(cfg, s) && !Dead(s) && s.runner == Idle && key in s.flying && key != s.stage.next
    ensures cfg.maxPending > 0 ==> |s.stage.pending| < cfg.maxPending
  {
    var keys := s.stage.pending.Keys + {key};
    Bounded(keys, s.stage.next + 1, Issued(s));
    assert |keys| == |s.stage.pending| + 1;
  }

  lemma ProcessBuffers(cfg: Config, st: Stage, fuse: Fuse, item: Item)
    requires !Done(fuse) && item.sequence != st.next && (cfg.maxPending > 0 ==> |st.pending| < cfg.maxPending)
    ensures Process(cfg, st, fuse, item) ==
            Result(st.(pending := st.pending[item.sequence := item]), Burn(fuse), [], NoFailure)
  {
  }

  /** The state after an item that is not next is buffered. */
  function Buffered(s: State, key: nat, fuse: Fuse): State
    requires key in s.flying
  {
    s.(flying := s.flying - {key}, stage := s.stage.(pending := s.stage.pending[key := s.flying[key]]),
       cancelled := s.cancelled || Done(Burn(fuse)))
  }

  lemma BufferNext(cfg: Config, s: State, key: nat, fuse: Fuse)
    requires Inv(cfg, s) && Enabled(cfg, s, Receive(key, fuse)) && !Done(fuse) && key != s.stage.next
    ensures Next(cfg, s, Receive(key, fuse)) == Buffered(s, key, fuse)
  {
    hide Process;
    RoomForPending(cfg, s, key);
    ProcessBuffers(cfg, s.stage, fuse, s.flying[key]);
  }

  lemma BufferKeepsInv(cfg: Config, s: State, key: nat, fuse: Fuse)
    requires Inv(cfg, s) && Enabled(cfg, s, Receive(key, fuse)) && !Done(fuse) && key != s.stage.next
    ensures Inv(cfg, Next(cfg, s, Receive(key, fuse)))
  {
    hide Next, Needed;
    BufferNext(cfg, s, key, fuse);
    assert Inv(cfg, Buffered(s, key, fuse));
  }

  lemma AdvanceAccounts(cfg: Config, s: State, fuse: Fuse)
    requires Inv(cfg, s) && Enabled(cfg, s, Receive(s.stage.next, fuse)) && !Done(fuse)
    requires var r := Process(cfg, s.stage, fuse, s.flying[s.stage.next]);
             Advanced(s.stage, r) && r.stage.next > s.stage.next
    ensures Accounted(Next(cfg, s, Receive(s.stage.next, fuse)))
  {
    hide Process, Waits, Capacity;
    var t := Next(cfg, s, Receive(s.stage.next, fuse));
    if t.stage.next > s.stage.next + 1 { assert t.stage.next - 1 in s.stage.pending; }
    forall k | k in s.dropped ensures k >= t.stage.next { assert k !in s.stage.pending && k !in s.flying; }
    if !Dead(t) {
      forall k | t.stage.next <= k < Issued(t) ensures k in t.flying || k in t.stage.pending || k in t.dropped {
        assert k in s.flying || k in s.stage.pending || k in s.dropped;
      }
    }
  }

  /** Processing the next item and those it releases. */
  lemma AdvanceKeepsInv(cfg: Config, s: State, fuse: Fuse)
    requires Inv(cfg, s) && Enabled(cfg, s, Receive(s.stage.next, fuse)) && !Done(fuse)
    ensures Inv(cfg, Next(cfg, s, Receive(s.stage.next, fuse)))
  {
    hide Process;
    ProcessAdvances(cfg, s.stage, fuse, s.flying[s.stage.next]);
    AdvanceAccounts(cfg, s, fuse);
  }

  lemma ReceiveKeepsInv(cfg: Config, s: State, key: nat, fuse: Fuse)
    requires Inv(cfg, s) && Enabled(cfg, s, Receive(key, fuse))
    ensures Inv(cfg, Next(cfg, s, Receive(key, fuse)))
  {
    if !Done(fuse) {
      if key == s.stage.next { AdvanceKeepsInv(cfg, s, fuse); } else { BufferKeepsInv(cfg, s, key, fuse); }
    }
  }

  lemma WaitKeepsOk(cfg: Config, s: State, w: Wait, a: WaitAction)
    requires Inv(cfg, s) && WaitOk(s, w) && WaitEnabled(s, w, a)
    ensures WaitOk(s, WaitNext(s, w, a)) && WaitNext(s, w, a).target == w.target
  {
  }

  lemma GateKeepsInv(cfg: Config, s: State, a: Action)
    requires Inv(cfg, s) && Enabled(cfg, s, a) && (a.Lock? || a.Unlock?)
    ensures Inv(cfg, Next(cfg, s, a))
  {
    hide Received;
  }

  lemma GateWaitKeepsInv(cfg: Config, s: State, a: Action)
    requires Inv(cfg, s) && Enabled(cfg, s, a) && a.GateWait?
    ensures Inv(cfg, Next(cfg, s, a))
  {
    hide Received, Needed;
    WaitKeepsOk(cfg, s, s.gate.wait, a.step);
  }

  lemma SendKeepsInv(cfg: Config, s: State, a: Action)
    requires Inv(cfg, s) && Enabled(cfg, s, a) && (a.Send? || a.Commit?)
    ensures Inv(cfg, Next(cfg, s, a))
  {
    hide Received;
  }

  lemma FenceKeepsInv(cfg: Config, s: State, a: Action)
    requires Inv(cfg, s) && Enabled(cfg, s, a) && (a.Fence? || a.FenceEnd?)
    ensures Inv(cfg, Next(cfg, s, a))
  {
    hide Received;
  }

  lemma FenceWaitKeepsInv(cfg: Config, s: State, a: Action)
    requires Inv(cfg, s) && Enabled(cfg, s, a) && a.FenceWait?
    ensures Inv(cfg, Next(cfg, s, a))
  {
    hide Received;
    WaitKeepsOk(cfg, s, s.fences[a.id], a.step);
  }

  lemma RunnerKeepsInv(cfg: Config, s: State, a: Action)
    requires Inv(cfg, s) && Enabled(cfg, s, a) && (a.Store? || a.Close?)
    ensures Inv(cfg, Next(cfg, s, a))
  {
    hide Received;
  }

  lemma LossKeepsInv(cfg: Config, s: State, a: Action)
    requires Inv(cfg, s) && Enabled(cfg, s, a) && (a.Drop? || a.Cancel? || a.Stop?)
    ensures Inv(cfg, Next(cfg, s, a))
  {
    hide Received;
  }

  lemma StepKeepsInv(cfg: Config, s: State, a: Action)
    requires Inv(cfg, s) && Enabled(cfg, s, a)
    ensures Inv(cfg, Next(cfg, s, a))
  {
    hide Inv, Next, Enabled;
    match a
    case Receive(key, fuse) => ReceiveKeepsInv(cfg, s, key, fuse);
    case Lock | Unlock => GateKeepsInv(cfg, s, a);
    case GateWait(_) => GateWaitKeepsInv(cfg, s, a);
    case Send(_) | Commit => SendKeepsInv(cfg, s, a);
    case Fence(_) | FenceEnd(_) => FenceKeepsInv(cfg, s, a);
    case FenceWait(_, _) => FenceWaitKeepsInv(cfg, s, a);
    case Store | Close => RunnerKeepsInv(cfg, s, a);
    case Drop(_) | Cancel | Stop => LossKeepsInv(cfg, s, a);
  }

  // ----- whole runs

  /** A run: states joined by enabled actions, from the initial state. */
  ghost predicate IsRun(cfg: Config, states: seq<State>, actions: seq<Action>) {
    && |states| == |actions| + 1 && states[0] == INIT
    && forall i {:trigger actions[i]} :: 0 <= i < |actions| ==>
         Enabled(cfg, states[i], actions[i]) && states[i + 1] == Next(cfg, states[i], actions[i])
  }

  lemma InitKeepsInv(cfg: Config)
    ensures Inv(cfg, INIT)
  {
  }

  lemma {:induction false} RunKeepsInv(cfg: Config, states: seq<State>, actions: seq<Action>, i: nat)
    requires IsRun(cfg, states, actions) && i < |states|
    ensures Inv(cfg, states[i])
  {
    hide Next, Enabled, Inv;
    if i == 0 {
      InitKeepsInv(cfg);
    } else {
      RunKeepsInv(cfg, states, actions, i - 1);
      var a := actions[i - 1];
      StepKeepsInv(cfg, states[i - 1], a);
    }
  }

  /** Once the context is cancelled or the runner has failed, nothing more is ever processed. */
  lemma DeadStaysDead(cfg: Config, s: State, a: Action)
    requires Inv(cfg, s) && Enabled(cfg, s, a) && Dead(s)
    ensures Dead(Next(cfg, s, a)) && Next(cfg, s, a).log == s.log
  {
    hide Drain, Try;
  }

  lemma LogGrows(cfg: Config, s: State, a: Action)
    requires Inv(cfg, s) && Enabled(cfg, s, a)
    ensures var t := Next(cfg, s, a);
            s.log <= t.log && s.completed <= t.completed && s.gen <= t.gen && (Dead(s) ==> Dead(t) && t.log == s.log)
  {
    if Dead(s) { DeadStaysDead(cfg, s, a); }
    hide Process;
  }

  lemma {:induction false} RunGrows(cfg: Config, states: seq<State>, actions: seq<Action>, i: nat, j: nat)
    requires IsRun(cfg, states, actions) && i <= j < |states|
    ensures states[i].log <= states[j].log && states[i].completed <= states[j].completed
    ensures Dead(states[i]) ==> states[j].log == states[i].log
    ensures Dead(states[i]) ==> Dead(states[j])
    decreases j
  {
    hide Next, Enabled, Dead, Inv;
    if i < j {
      RunGrows(cfg, states, actions, i, j - 1);
      RunKeepsInv(cfg, states, actions, j - 1);
      var a := actions[j - 1];
      LogGrows(cfg, states[j - 1], a);
    }
  }

  /** Gapless ordered application. At every moment of every run the processed blocks are 0..n-1 in
      order, once each; the completed sequence never passes an unprocessed block and, when the
      runner is at its input, is exactly n; and until the pipeline dies n is the first number that
      has not reached the runner. */
  lemma GaplessInOrder(cfg: Config, states: seq<State>, actions: seq<Action>, i: nat)
    requires IsRun(cfg, states, actions) && i < |states|
    ensures var s := states[i];
            && (forall k :: 0 <= k < |s.log| ==> s.log[k].sequence == k)
            && s.completed <= |s.log|
            && (s.runner == Idle ==> s.completed == |s.log|)
            && (!Dead(s) ==> |s.log| == s.stage.next && |s.log| !in s.stage.pending)
            && (forall k :: k in s.stage.pending || k in s.flying ==> k >= |s.log|)
  {
    RunKeepsInv(cfg, states, actions, i);
  }

  lemma StepAcceptable(cfg: Config, s: State, a: Action)
    requires Inv(cfg, s) && Enabled(cfg, s, a) && forall p :: p in s.log ==> Acceptable(cfg, p)
    ensures forall p :: p in Next(cfg, s, a).log ==> Acceptable(cfg, p)
  {
    hide Process, Acceptable;
    if a.Receive? {
      if Dead(s) { DeadStaysDead(cfg, s, a); } else { ProcessedAcceptable(cfg, s.stage, a.fuse, s.flying[a.key]); }
    }
  }

  /** At every moment of every run, every block processed so far was acceptable. */
  lemma {:induction false} OnlyAcceptable(cfg: Config, states: seq<State>, actions: seq<Action>, i: nat)
    requires IsRun(cfg, states, actions) && i < |states|
    ensures forall p :: p in states[i].log ==> Acceptable(cfg, p)
  {
    hide Next, Enabled, Inv, Acceptable;
    if i > 0 {
      OnlyAcceptable(cfg, states, actions, i - 1);
      RunKeepsInv(cfg, states, actions, i - 1);
      var a := actions[i - 1];
      StepAcceptable(cfg, states[i - 1], a);
    }
  }

  /** And in a live pipeline the next block, if it is acceptable, is processed when it reaches the
      runner before the context is cancelled. */
  lemma AcceptableGetsIn(cfg: Config, states: seq<State>, actions: seq<Action>, i: nat)
    requires IsRun(cfg, states, actions) && i < |actions| && !Dead(states[i])
    requires actions[i].Receive? && actions[i].key == |states[i].log|
    requires !Done(actions[i].fuse) && !Done(Burn(actions[i].fuse))
    requires actions[i].key in states[i].flying && Acceptable(cfg, states[i].flying[actions[i].key])
    ensures var n := |states[i].log|; |states[i + 1].log| > n && states[i + 1].log[n] == states[i].flying[n]
  {
    hide Process, Acceptable;
    RunKeepsInv(cfg, states, actions, i);
    var s, a := states[i], actions[i];
    AcceptableProcessed(cfg, s.stage, a.fuse, s.flying[a.key]);
  }

  /** Backpressure: the apply stage never reports a full buffer, however the workers reorder. */
  lemma OverflowUnreachable(cfg: Config, states: seq<State>, actions: seq<Action>, i: nat)
    requires IsRun(cfg, states, actions) && i < |states|
    ensures var s := states[i];
            && !s.overflowed
            && (forall key, fuse :: Enabled(cfg, s, Receive(key, fuse)) ==>
                  Process(cfg, s.stage, fuse, s.flying[key]).failure != PendingLimitExceeded)
  {
    RunKeepsInv(cfg, states, actions, i);
    var s := states[i];
    forall key, fuse | Enabled(cfg, s, Receive(key, fuse))
      ensures Process(cfg, s.stage, fuse, s.flying[key]).failure != PendingLimitExceeded
    {
      ReceiveKeepsInv(cfg, s, key, fuse);
    }
  }

  /** The fence installed by step `i` is there at `j`, and waits for what was submitted by then. */
  lemma {:induction false} FenceBoundary(
      cfg: Config, states: seq<State>, actions: seq<Action>, i: nat, j: nat, id: nat)
    requires IsRun(cfg, states, actions) && i < j <= |actions| && actions[i] == Fence(id)
    requires forall k :: i < k < j ==> actions[k] != FenceEnd(id)
    ensures id in states[j].fences && states[j].fences[id].target == states[i].submitted
    decreases j
  {
    var a := actions[j - 1];
    if i + 1 < j {
      hide Next, Enabled;
      FenceBoundary(cfg, states, actions, i, j - 1, id);
      FenceStands(cfg, states[j - 1], a, id);
    }
  }

  lemma FenceStands(cfg: Config, s: State, a: Action, id: nat)
    requires Enabled(cfg, s, a) && id in s.fences && a != FenceEnd(id)
    ensures id in Next(cfg, s, a).fences && Next(cfg, s, a).fences[id].target == s.fences[id].target
  {
    hide Process;
  }

  /** A fence returns only after every block submitted before it was installed has been processed. */
  lemma FenceReturnsAfter(
      cfg: Config, states: seq<State>, actions: seq<Action>, i: nat, j: nat, id: nat)
    requires IsRun(cfg, states, actions) && i < j <= |actions| && actions[i] == Fence(id)
    requires forall k :: i < k < j ==> actions[k] != FenceEnd(id)
    requires id in states[j].fences && states[j].fences[id].at == Released
    ensures |states[j].log| >= states[i].submitted
    ensures forall k :: 0 <= k < states[i].submitted ==> states[j].log[k].sequence == k
  {
    hide Next, Enabled;
    FenceBoundary(cfg, states, actions, i, j, id);
    FenceSound(cfg, states, actions, j, id);
  }

  /** And it waits for nothing else: once those blocks have reached the runner of a live pipeline that
      is back at its input, the fence gets through from where it stands, whatever came after it. */
  lemma FenceGetsThrough(
      cfg: Config, states: seq<State>, actions: seq<Action>, i: nat, j: nat, id: nat)
    requires IsRun(cfg, states, actions) && i < j <= |actions| && actions[i] == Fence(id)
    requires forall k :: i < k < j ==> actions[k] != FenceEnd(id)
    requires !Dead(states[j]) && states[j].runner == Idle
    requires forall k :: 0 <= k < states[i].submitted ==> k !in states[j].flying && k !in states[j].dropped
    ensures id in states[j].fences
    ensures states[j].fences[id].at == Checking ==> Enabled(cfg, states[j], FenceWait(id, Peek))
    ensures states[j].fences[id].at.Parked? ==> Enabled(cfg, states[j], FenceWait(id, Wake))
    ensures states[j].fences[id].at != Armed
  {
    FenceBoundary(cfg, states, actions, i, j, id);
    FenceReached(cfg, states, actions, j, id);
    RunKeepsInv(cfg, states, actions, j);
    hide Next;
  }

  /** A submitter is let through exactly when at most MaxPendingBlocks accepted blocks are incomplete,
      or no limit is set; and only then is anything enqueued. */
  lemma CapacityExact(cfg: Config, states: seq<State>, actions: seq<Action>, i: nat)
    requires IsRun(cfg, states, actions) && i < |states| && states[i].gate.Held?
    ensures var s := states[i];
            var room := cfg.maxPending <= 0 || s.submitted - s.completed <= cfg.maxPending;
            && (s.gate.wait.at == Checking ==> (Enabled(cfg, s, GateWait(Peek)) <==> room))
            && (s.gate.wait.at == Released ==> room)
  {
    RunKeepsInv(cfg, states, actions, i);
    hide Next;
  }

  /** A fence that is through: every block below the boundary it captured was processed. */
  lemma FenceSound(cfg: Config, states: seq<State>, actions: seq<Action>, i: nat, id: nat)
    requires IsRun(cfg, states, actions) && i < |states|
    requires id in states[i].fences && states[i].fences[id].at == Released
    ensures var s := states[i];
            && s.fences[id].target <= s.completed <= |s.log|
            && forall k: nat :: k < s.fences[id].target ==> s.log[k].sequence == k
  {
    RunKeepsInv(cfg, states, actions, i);
  }

  /** No lost wakeup: a fence that waits although its boundary is complete can wake up now, or the
      runner is between its store and its close, and after the close the fence can wake up. */
  lemma NoLostWakeup(cfg: Config, states: seq<State>, actions: seq<Action>, i: nat, id: nat)
    requires IsRun(cfg, states, actions) && i < |states| && id in states[i].fences
    requires var s := states[i]; s.fences[id].at.Parked? && s.completed >= s.fences[id].target
    ensures var s := states[i];
            || Enabled(cfg, s, FenceWait(id, Wake))
            || (s.runner.Closing? && (Unlocked(s) ==> Enabled(cfg, Next(cfg, s, Close), FenceWait(id, Wake))))
  {
    RunKeepsInv(cfg, states, actions, i);
  }

  /** Nor is the completion lock held for good: a fence that has to look again under the lock can do
      so now, or the one who holds the lock can go to sleep and release it. Cancellation can come at
      any time, and is final. */
  lemma LockIsReleased(cfg: Config, states: seq<State>, actions: seq<Action>, i: nat, id: nat)
    requires IsRun(cfg, states, actions) && i < |states| && id in states[i].fences
    requires states[i].fences[id].at == Checking
    ensures var s := states[i];
            || Enabled(cfg, s, FenceWait(id, Probe))
            || Enabled(cfg, s, GateWait(Park))
            || exists other :: other in s.fences && other != id && Enabled(cfg, s, FenceWait(other, Park))
    ensures Enabled(cfg, states[i], Cancel) && Dead(Next(cfg, states[i], Cancel))
  {
    var s := states[i];
    if !Unlocked(s) && !GateArmed(s) {
      var other :| other in s.fences && s.fences[other].at == Armed;
      assert Enabled(cfg, s, FenceWait(other, Park));
    }
  }

  lemma GenStep(cfg: Config, s: State, a: Action)
    requires Enabled(cfg, s, a)
    ensures Next(cfg, s, a).gen == if a == Close then s.gen + 1 else s.gen
  {
    hide Process;
  }

  lemma {:induction false} GenCounts(cfg: Config, states: seq<State>, actions: seq<Action>, i: nat, j: nat)
    requires IsRun(cfg, states, actions) && i <= j < |states|
    ensures states[i].gen <= states[j].gen
    ensures states[i].gen < states[j].gen <==> exists k :: i <= k < j && actions[k] == Close
    decreases j
  {
    hide Next, Enabled;
    if i < j {
      GenCounts(cfg, states, actions, i, j - 1);
      var a := actions[j - 1];
      GenStep(cfg, states[j - 1], a);
    }
  }

  lemma ParkedStands(cfg: Config, s: State, a: Action, id: nat)
    requires Enabled(cfg, s, a) && id in s.fences && s.fences[id].at.Parked?
    requires a != FenceWait(id, Wake) && a != FenceEnd(id)
    ensures id in Next(cfg, s, a).fences && Next(cfg, s, a).fences[id] == s.fences[id]
  {
    hide Process;
  }

  lemma {:induction false} ParkedSince(
      cfg: Config, states: seq<State>, actions: seq<Action>, i: nat, j: nat, id: nat)
    requires IsRun(cfg, states, actions) && i < j < |states| && actions[i] == FenceWait(id, Park)
    requires forall k :: i < k < j ==> actions[k] != FenceWait(id, Wake) && actions[k] != FenceEnd(id)
    ensures id in states[j].fences && states[j].fences[id].at == Parked(states[i].gen)
    decreases j
  {
    hide Enabled, Process;
    if j == i + 1 {
      assert states[j] == Next(cfg, states[i], actions[i]);
    } else {
      ParkedSince(cfg, states, actions, i, j - 1, id);
      var a := actions[j - 1];
      hide Next;
      ParkedStands(cfg, states[j - 1], a, id);
    }
  }

  /** A fence that went to sleep can wake up exactly when the runner has closed the completion channel
      since. */
  lemma WakesAfterClose(cfg: Config, states: seq<State>, actions: seq<Action>, i: nat, j: nat, id: nat)
    requires IsRun(cfg, states, actions) && i < j < |states| && actions[i] == FenceWait(id, Park)
    requires forall k :: i < k < j ==> actions[k] != FenceWait(id, Wake) && actions[k] != FenceEnd(id)
    ensures Enabled(cfg, states[j], FenceWait(id, Wake)) <==> exists k :: i < k < j && actions[k] == Close
  {
    ParkedSince(cfg, states, actions, i, j, id);
    GenCounts(cfg, states, actions, i, j);
    hide Next;
    if k :| i < k < j && actions[k] == Close { assert i <= k < j; }
  }

  /** The submission lock is never held for good: free, it can be taken and fences installed; with a
      block sent, the block can be counted; held by a submitter, that one can send if it was let
      through, and give up unless it holds the completion lock, which it can release. */
  lemma GateMoves(cfg: Config, s: State, id: nat, item: Item)
    requires id !in s.fences && item.sequence == s.submitted
    ensures match s.gate
            case Free => Enabled(cfg, s, Lock) && Enabled(cfg, s, Fence(id))
            case Sent => Enabled(cfg, s, Commit) && Next(cfg, s, Commit).submitted == s.submitted + 1
            case Held(w) =>
              && (w.at == Released ==> Enabled(cfg, s, Send(item)))
              && (if w.at == Armed then Enabled(cfg, s, GateWait(Park)) else Enabled(cfg, s, Unlock))
  {
    hide Process;
  }

  /** The same for a submitter that waits for capacity. */
  lemma NoLostCapacity(cfg: Config, states: seq<State>, actions: seq<Action>, i: nat)
    requires IsRun(cfg, states, actions) && i < |states| && states[i].gate.Held?
    requires var s := states[i]; s.gate.wait.at.Parked? && s.completed >= s.gate.wait.target
    ensures var s := states[i];
            || Enabled(cfg, s, GateWait(Wake))
            || (s.runner.Closing? && (Unlocked(s) ==> Enabled(cfg, Next(cfg, s, Close), GateWait(Wake))))
  {
    RunKeepsInv(cfg, states, actions, i);
  }

  /** A fence waits for nothing but its boundary: once every block below it has reached the runner,
      and the runner is back at its input in a live pipeline, the boundary is complete. */
  lemma FenceReached(cfg: Config, states: seq<State>, actions: seq<Action>, i: nat, id: nat)
    requires IsRun(cfg, states, actions) && i < |states| && id in states[i].fences
    requires var s := states[i];
             !Dead(s) && s.runner == Idle && forall k :: k in s.flying || k in s.dropped ==> k >= s.fences[id].target
    ensures states[i].completed >= states[i].fences[id].target
  {
    RunKeepsInv(cfg, states, actions, i);
    var s := states[i];
    var n := s.stage.next;
    assert n < Issued(s) ==> n in s.flying || n in s.stage.pending || n in s.dropped;
  }

  /** Stickiness is needed: with a context that comes back to life after it cost an item, the next
      block is processed over the gap. */
  lemma FreshContextLeavesGap(cfg: Config, zero: Item, one: Item)
    requires zero.sequence == 0 && one.sequence == 1
    requires Judge(cfg, zero) == Due && Judge(cfg, one) == Due && one.applyOk
    ensures var lost := Process(cfg, Stage(map[], 0), After(1), zero);
            && lost.processed == [] && lost.failure == ContextDone
            && Process(cfg, lost.stage, Never, one).processed == [one]
  {
    hide Judge;
    DrainStep(cfg, Stage(map[], 2), Never);
  }
}
