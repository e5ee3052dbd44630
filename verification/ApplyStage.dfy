/** The apply stage: buffers blocks that arrive out of order and applies them in sequence. */
module ApplyStage {

  /** A block with its sequence number and the answers it gets: decoding and validation results,
      and what the chain-context validator, the ordered validator and the apply function return
      for it (an error or a contained panic counts as not ok). */
  datatype Item = Item(
    sequence: nat,
    decodeError: bool,
    validationError: bool,
    valid: bool,
    contextOk: bool,
    orderedOk: bool,
    applyOk: bool)

  datatype Config = Config(
    trustedDecodeOnly: bool,
    headerOnly: bool,
    requireValidation: bool,
    hasContextValidator: bool,
    hasOrderedValidator: bool,
    maxPending: int)
  {
    predicate CallsApply() { !trustedDecodeOnly && !headerOnly }
  }

  /** A context as its holder sees it: cancelled from some poll on, or never. */
  datatype Fuse = Never | After(polls: nat)

  predicate Done(f: Fuse) { f == After(0) }

  function Burn(f: Fuse): Fuse { if f.After? && f.polls > 0 then After(f.polls - 1) else f }

  datatype Judgement = Skipped | Refused | Due

  /** What is decided about an ordered item before the apply function is called. */
  function Judge(cfg: Config, item: Item): Judgement {
    if item.decodeError then if cfg.trustedDecodeOnly then Skipped else Refused
    else if item.validationError then Refused
    else if cfg.requireValidation && !item.valid then Refused
    else if cfg.trustedDecodeOnly || cfg.headerOnly then Skipped
    else if !cfg.hasContextValidator || !item.contextOk then Refused
    else if cfg.hasOrderedValidator && !item.orderedOk then Refused
    else Due
  }

  datatype Attempt = Accepted | Rejected | Cancelled

  function Try(cfg: Config, item: Item, fuse: Fuse): (Attempt, Fuse) {
    match Judge(cfg, item)
    case Skipped => (Accepted, fuse)
    case Refused => (Rejected, fuse)
    case Due =>
      if Done(fuse) then (Cancelled, fuse) else (if item.applyOk then Accepted else Rejected, Burn(fuse))
  }

  datatype Stage = Stage(pending: map<nat, Item>, next: nat)

  datatype Failure = NoFailure | ContextDone | ItemRejected | PendingLimitExceeded

  /** The outcome of a call: the new state, the fuse left, the items processed in order. */
  datatype Result = Result(stage: Stage, fuse: Fuse, processed: seq<Item>, failure: Failure)

  function Failed(attempt: Attempt): Failure {
    match attempt
    case Accepted => NoFailure
    case Rejected => ItemRejected
    case Cancelled => ContextDone
  }

  /** Applying the buffered items that have become next. */
  function Drain(cfg: Config, st: Stage, fuse: Fuse): Result
    decreases |st.pending|
  {
    if Done(fuse) then Result(st, fuse, [], ContextDone)
    else if st.next !in st.pending then Result(st, Burn(fuse), [], NoFailure)
    else
      var item := st.pending[st.next];
      var rest := Stage(st.pending - {st.next}, st.next + 1);
      var (attempt, left) := Try(cfg, item, Burn(fuse));
      if attempt != Accepted then Result(rest, left, [], Failed(attempt))
      else
        assert st.pending.Keys == rest.pending.Keys + {st.next};
        var r := Drain(cfg, rest, left);
        r.(processed := [item] + r.processed)
  }

  function Process(cfg: Config, st: Stage, fuse: Fuse, item: Item): Result {
    if Done(fuse) then Result(st, fuse, [], ContextDone)
    else if item.sequence == st.next then
      var rest := st.(next := st.next + 1);
      var (attempt, left) := Try(cfg, item, Burn(fuse));
      if attempt != Accepted then Result(rest, left, [], Failed(attempt))
      else
        var r := Drain(cfg, rest, left);
        r.(processed := [item] + r.processed)
    else if cfg.maxPending > 0 && |st.pending| >= cfg.maxPending then Result(st, Burn(fuse), [], PendingLimitExceeded)
    else Result(st.(pending := st.pending[item.sequence := item]), Burn(fuse), [], NoFailure)
  }

  function Sequences(items: seq<Item>): seq<nat> {
    seq(|items|, i requires 0 <= i < |items| => items[i].sequence)
  }

  // ----- what a call does to the order

  /** Every buffered item stands at its own sequence number, at or above the next one. */
  predicate Ordered(st: Stage) {
    forall k :: k in st.pending ==> k >= st.next && st.pending[k].sequence == k
  }

  /** The items are consecutive from `first`. */
  predicate Consecutive(items: seq<Item>, first: nat) {
    forall i :: 0 <= i < |items| ==> items[i].sequence == first + i
  }

  /** A call processes consecutive items from the next sequence number, each but the first out of
      the buffer, and leaves in the buffer exactly the numbers it has not passed. Without a failure
      it stops only at a number that has not
      arrived; a failure may lose the one item it was about, and then the context is done or the
      item was rejected. */
  ghost predicate Advanced(st: Stage, r: Result) {
    && Ordered(r.stage)
    && Consecutive(r.processed, st.next)
    && st.next + |r.processed| <= r.stage.next <= st.next + |r.processed| + 1
    && (forall k :: st.next < k < r.stage.next ==> k in st.pending)
    && (forall k :: k in r.stage.pending <==> k in st.pending && k >= r.stage.next)
    && (forall k :: k in r.stage.pending ==> r.stage.pending[k] == st.pending[k])
    && (r.failure == ContextDone ==> Done(r.fuse))
    && (r.failure == NoFailure ==> r.stage.next == st.next + |r.processed| && r.stage.next !in r.stage.pending)
    && r.failure != PendingLimitExceeded
  }

  /** One turn of the loop. */
  lemma DrainStep(cfg: Config, st: Stage, fuse: Fuse)
    ensures Drain(cfg, st, fuse) ==
            if Done(fuse) then Result(st, fuse, [], ContextDone)
            else if st.next !in st.pending then Result(st, Burn(fuse), [], NoFailure)
            else
              var rest := Stage(st.pending - {st.next}, st.next + 1);
              var (attempt, left) := Try(cfg, st.pending[st.next], Burn(fuse));
              if attempt != Accepted then Result(rest, left, [], Failed(attempt))
              else
                var r := Drain(cfg, rest, left);
                r.(processed := [st.pending[st.next]] + r.processed)
  {
  }

  lemma Taken(pending: map<nat, Item>, k: nat)
    requires k in pending
    ensures |pending - {k}| == |pending| - 1
  {
    assert pending.Keys == (pending - {k}).Keys + {k};
  }

  /** Passing one buffered item and going on. */
  lemma AdvancedCons(st: Stage, r: Result)
    requires Ordered(st) && st.next in st.pending
    requires Advanced(Stage(st.pending - {st.next}, st.next + 1), r)
    requires r.stage.next > st.next + 1 ==> st.next + 1 in st.pending
    ensures Advanced(st, r.(processed := [st.pending[st.next]] + r.processed))
  {
    var rest := Stage(st.pending - {st.next}, st.next + 1);
    forall k | st.next < k < r.stage.next ensures k in st.pending {
      if k > st.next + 1 { assert k in rest.pending; }
    }
    forall k ensures k in r.stage.pending <==> k in st.pending && k >= r.stage.next {
      assert k in rest.pending <==> k in st.pending && k != st.next;
    }
  }

  lemma CancelledMeansDone(cfg: Config, item: Item, fuse: Fuse)
    ensures Try(cfg, item, fuse).0 == Cancelled ==> Done(Try(cfg, item, fuse).1)
  {
  }

  lemma {:induction false} DrainAdvances(cfg: Config, st: Stage, fuse: Fuse)
    requires Ordered(st)
    ensures Advanced(st, Drain(cfg, st, fuse))
    ensures Drain(cfg, st, fuse).stage.next > st.next ==> st.next in st.pending
    decreases |st.pending|
  {
    hide Drain, Try;
    DrainStep(cfg, st, fuse);
    if !Done(fuse) && st.next in st.pending {
      var rest := Stage(st.pending - {st.next}, st.next + 1);
      var (attempt, left) := Try(cfg, st.pending[st.next], Burn(fuse));
      CancelledMeansDone(cfg, st.pending[st.next], Burn(fuse));
      if attempt == Accepted {
        Taken(st.pending, st.next);
        DrainAdvances(cfg, rest, left);
        AdvancedCons(st, Drain(cfg, rest, left));
      }
    }
  }

  lemma ProcessAdvances(cfg: Config, st: Stage, fuse: Fuse, item: Item)
    requires Ordered(st) && item.sequence == st.next && st.next !in st.pending
    ensures Advanced(st, Process(cfg, st, fuse, item))
    ensures !Done(fuse) ==> Process(cfg, st, fuse, item).stage.next > st.next
  {
    hide Drain, Judge;
    if !Done(fuse) {
      var rest := st.(next := st.next + 1);
      var (attempt, left) := Try(cfg, item, Burn(fuse));
      if attempt == Accepted { DrainAdvances(cfg, rest, left); }
    }
  }

  // ----- which blocks are processed

  /** The block passed validation, where that is required of it. */
  predicate Validated(cfg: Config, item: Item) {
    !item.validationError && (cfg.requireValidation ==> item.valid)
  }

  /** A block that may be processed. Outside the trusted and header-only modes it decoded, is
      validated, was accepted by a chain-context validator that exists and by the ordered validator if
      there is one, and its application succeeded. In header-only mode nothing is applied and the
      first two suffice. In trusted mode a block that did not decode is passed over as well. */
  predicate Acceptable(cfg: Config, item: Item) {
    if cfg.CallsApply() then
      && !item.decodeError && Validated(cfg, item)
      && cfg.hasContextValidator && item.contextOk
      && (cfg.hasOrderedValidator ==> item.orderedOk)
      && item.applyOk
    else if cfg.trustedDecodeOnly then item.decodeError || Validated(cfg, item)
    else !item.decodeError && Validated(cfg, item)
  }

  /** An attempt succeeds exactly on an acceptable block, if the context is live where the block has
      to be applied; a cancelled context is reported only of a block that would have been applied. */
  lemma TryMeans(cfg: Config, item: Item, fuse: Fuse)
    ensures Try(cfg, item, fuse).0 == Accepted <==> Acceptable(cfg, item) && (cfg.CallsApply() ==> !Done(fuse))
    ensures Try(cfg, item, fuse).0 == Cancelled <==>
            cfg.CallsApply() && Done(fuse) && Acceptable(cfg, item.(applyOk := true))
  {
  }

  /** The item with number `n` that a call has at hand: the one it brings, or a buffered one. */
  function AtHand(st: Stage, item: Item, n: nat): Item
    requires n == st.next || n in st.pending
  {
    if n == st.next then item else st.pending[n]
  }

  lemma {:induction false} DrainAcceptable(cfg: Config, st: Stage, fuse: Fuse)
    requires Ordered(st)
    ensures var r := Drain(cfg, st, fuse);
            && (forall p :: p in r.processed ==> Acceptable(cfg, p))
            && (r.failure == ItemRejected ==>
                  var n := st.next + |r.processed|; n in st.pending && !Acceptable(cfg, st.pending[n]))
    decreases |st.pending|
  {
    hide Drain, Try, Acceptable;
    DrainStep(cfg, st, fuse);
    if !Done(fuse) && st.next in st.pending {
      TryMeans(cfg, st.pending[st.next], Burn(fuse));
      var rest := Stage(st.pending - {st.next}, st.next + 1);
      var (attempt, left) := Try(cfg, st.pending[st.next], Burn(fuse));
      if attempt == Rejected { RejectedMeans(cfg, st.pending[st.next], Burn(fuse)); }
      if attempt == Accepted {
        Taken(st.pending, st.next);
        DrainAcceptable(cfg, rest, left);
      }
    }
  }

  lemma RejectedMeans(cfg: Config, item: Item, fuse: Fuse)
    requires Try(cfg, item, fuse).0 == Rejected
    ensures !Acceptable(cfg, item)
  {
  }

  /** Only acceptable blocks are processed, and a call that rejects stops at one that is not. */
  lemma ProcessedAcceptable(cfg: Config, st: Stage, fuse: Fuse, item: Item)
    requires Ordered(st) && st.next !in st.pending
    ensures var r := Process(cfg, st, fuse, item);
            && (forall p :: p in r.processed ==> Acceptable(cfg, p))
            && (r.failure == ItemRejected ==>
                  var n := st.next + |r.processed|;
                  && item.sequence == st.next && (n == st.next || n in st.pending)
                  && !Acceptable(cfg, AtHand(st, item, n)))
  {
    hide Drain, Try, Acceptable;
    if !Done(fuse) && item.sequence == st.next {
      TryMeans(cfg, item, Burn(fuse));
      var rest := st.(next := st.next + 1);
      var (attempt, left) := Try(cfg, item, Burn(fuse));
      if attempt == Rejected { RejectedMeans(cfg, item, Burn(fuse)); }
      if attempt == Accepted { DrainAcceptable(cfg, rest, left); }
    }
  }

  /** And the next block, if it is acceptable and the context live, is processed. */
  lemma AcceptableProcessed(cfg: Config, st: Stage, fuse: Fuse, item: Item)
    requires item.sequence == st.next && Acceptable(cfg, item) && !Done(fuse) && !Done(Burn(fuse))
    ensures var r := Process(cfg, st, fuse, item); r.processed != [] && r.processed[0] == item
  {
    hide Drain, Try, Acceptable;
    TryMeans(cfg, item, Burn(fuse));
  }

  /** A block that is not next is buffered, unless a limit is set and reached; the buffer never
      outgrows the limit. */
  lemma BufferedWithinLimit(cfg: Config, st: Stage, fuse: Fuse, item: Item)
    requires item.sequence != st.next && !Done(fuse)
    ensures var r := Process(cfg, st, fuse, item);
            && (r.failure == PendingLimitExceeded <==> 0 < cfg.maxPending <= |st.pending|)
            && r.stage.next == st.next && r.processed == []
            && (if r.failure == PendingLimitExceeded then r.stage == st
                else
                  && r.stage.pending.Keys == st.pending.Keys + {item.sequence}
                  && r.stage.pending[item.sequence] == item
                  && forall k :: k in st.pending && k != item.sequence ==> r.stage.pending[k] == st.pending[k])
            && (0 < cfg.maxPending && |st.pending| <= cfg.maxPending ==> |r.stage.pending| <= cfg.maxPending)
  {
    hide Drain, Try;
    var r := Process(cfg, st, fuse, item);
    assert r.stage.pending.Keys <= st.pending.Keys + {item.sequence};
    KeysAtMost(r.stage.pending, st.pending, item.sequence);
  }

  lemma KeysAtMost(a: map<nat, Item>, b: map<nat, Item>, k: nat)
    requires a.Keys <= b.Keys + {k}
    ensures |a| <= |b| + 1
  {
    SubsetSize(a.Keys, b.Keys + {k});
  }

  lemma {:induction false} SubsetSize(a: set<nat>, b: set<nat>)
    requires a <= b
    ensures |a| <= |b|
  {
    if a != {} {
      var x :| x in a;
      SubsetSize(a - {x}, b - {x});
    }
  }

  // ----- the stage as an object

  class Context {
    var fuse: Fuse

    constructor (f: Fuse)
      ensures fuse == f
    {
      fuse := f;
    }

    method Poll() returns (done: bool)
      modifies this
      ensures done == Done(old(fuse)) && fuse == Burn(old(fuse))
    {
      done := Done(fuse);
      fuse := Burn(fuse);
    }
  }

  class ApplyStage {
    const cfg: Config
    var pending: map<nat, Item>
    var nextSequence: nat
    var inFlight: int
    /** The sequence numbers for which the apply function has succeeded. */
    var applied: seq<nat>

    constructor (cfg: Config)
      ensures this.cfg == cfg && State() == Stage(map[], 0) && applied == [] && inFlight == 0
    {
      this.cfg := cfg;
      pending, nextSequence, applied, inFlight := map[], 0, [], 0;
    }

    function State(): Stage
      reads this
    {
      Stage(pending, nextSequence)
    }

    function Effect(processed: seq<Item>): seq<nat> {
      if cfg.CallsApply() then Sequences(processed) else []
    }

    method MaybeApply(ctx: Context, item: Item) returns (attempt: Attempt)
      modifies this`applied, this`inFlight, ctx
      ensures (attempt, ctx.fuse) == Try(cfg, item, old(ctx.fuse)) && inFlight == old(inFlight)
      ensures attempt == Accepted <==> Acceptable(cfg, item) && (cfg.CallsApply() ==> !Done(old(ctx.fuse)))
      ensures applied == old(applied) + if attempt == Accepted then Effect([item]) else []
      ensures cfg.trustedDecodeOnly || cfg.headerOnly ==> applied == old(applied)
    {
      if item.decodeError { return if cfg.trustedDecodeOnly then Accepted else Rejected; }
      if item.validationError { return Rejected; }
      if cfg.requireValidation && !item.valid { return Rejected; }
      if cfg.trustedDecodeOnly || cfg.headerOnly { return Accepted; }
      inFlight := inFlight + 1;
      attempt := Rejected;
      if cfg.hasContextValidator && item.contextOk && (!cfg.hasOrderedValidator || item.orderedOk) {
        attempt := ApplyItem(ctx, item);
      }
      inFlight := inFlight - 1;
    }

    method ApplyItem(ctx: Context, item: Item) returns (attempt: Attempt)
      modifies this`applied, ctx
      ensures ctx.fuse == Burn(old(ctx.fuse))
      ensures attempt == if Done(old(ctx.fuse)) then Cancelled else if item.applyOk then Accepted else Rejected
      ensures applied == old(applied) + if attempt == Accepted then [item.sequence] else []
    {
      var done := ctx.Poll();
      if done { return Cancelled; }
      if !item.applyOk { return Rejected; }
      applied := applied + [item.sequence];
      return Accepted;
    }

    method ApplyPending(ctx: Context) returns (processed: seq<Item>, failure: Failure)
      modifies this`pending, this`nextSequence, this`applied, this`inFlight, ctx
      ensures Result(State(), ctx.fuse, processed, failure) == Drain(cfg, old(State()), old(ctx.fuse))
      ensures applied == old(applied) + Effect(processed) && inFlight == old(inFlight)
    {
      hide Drain, Try;
      processed := [];
      while true
        invariant applied == old(applied) + Effect(processed) && inFlight == old(inFlight)
        invariant var r := Drain(cfg, State(), ctx.fuse);
                  Drain(cfg, old(State()), old(ctx.fuse)) == r.(processed := processed + r.processed)
        decreases |pending|
      {
        DrainStep(cfg, State(), ctx.fuse);
        var done := ctx.Poll();
        if done { return processed, ContextDone; }
        if nextSequence !in pending { return processed, NoFailure; }
        var item := pending[nextSequence];
        Taken(pending, nextSequence);
        pending := pending - {nextSequence};
        nextSequence := nextSequence + 1;
        var attempt := MaybeApply(ctx, item);
        if attempt != Accepted { return processed, Failed(attempt); }
        processed := processed + [item];
      }
    }

    method ProcessWithStatus(ctx: Context, item: Item) returns (processed: seq<Item>, failure: Failure)
      modifies this`pending, this`nextSequence, this`applied, this`inFlight, ctx
      ensures Result(State(), ctx.fuse, processed, failure) == Process(cfg, old(State()), old(ctx.fuse), item)
      ensures applied == old(applied) + Effect(processed) && inFlight == old(inFlight)
      ensures if cfg.trustedDecodeOnly || cfg.headerOnly then applied == old(applied)
              else
                && |applied| == |old(applied)| + |processed|
                && forall k :: 0 <= k < |processed| ==> applied[|old(applied)| + k] == processed[k].sequence
    {
      hide Drain, Try;
      var done := ctx.Poll();
      if done { return [], ContextDone; }
      if item.sequence == nextSequence {
        nextSequence := nextSequence + 1;
        var attempt := MaybeApply(ctx, item);
        if attempt != Accepted { return [], Failed(attempt); }
        var buffered;
        buffered, failure := ApplyPending(ctx);
        processed := [item] + buffered;
        return;
      }
      if cfg.maxPending > 0 && |pending| >= cfg.maxPending { return [], PendingLimitExceeded; }
      pending := pending[item.sequence := item];
      return [], NoFailure;
    }
  }
}
