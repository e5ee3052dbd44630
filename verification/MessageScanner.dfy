/** The scanner as the object that is updated in place, call after call. */
module MessageScanner {
  import opened Cbor
  import opened Numbers
  import opened Scanner
  import opened ScannerGrammar

  datatype ScanResult = ScanResult(
    messageType: nat, hasMessageType: bool, started: bool, messageLength: nat, complete: bool, oversized: bool)

  /** What a scanner in the state `s` reports. */
  function Report(s: Scan, l: Limits): ScanResult {
    ScanResult(s.messageType, s.hasType, s.started, s.offset, s.complete, Exceeds(s, l))
  }

  /** Whether the loop goes on, or returns. */
  datatype Signal = Go | Stop(verdict: Verdict)

  function Signalled(s: Scan, signal: Signal): Step {
    match signal
    case Go => Settle(s)
    case Stop(v) => Return(s, v)
  }

  /** The outcome of one call on `data`. */
  function Called(s: Scan, data: seq<byte>, l: Limits): Outcome {
    if s.complete then Outcome(s, Complete)
    else if s.offset > |data| then Outcome(s, Failed)
    else Loop(s, data, l)
  }

  class MessageScanner {
    var offset: nat
    var frames: seq<Frame>
    var started: bool
    var complete: bool
    var pendingBytes: nat
    var rootItems: nat
    var messageType: nat
    var hasMessageType: bool

    constructor ()
      ensures State() == NEW_SCAN
    {
      offset, frames, started, complete := 0, [], false, false;
      pendingBytes, rootItems, messageType, hasMessageType := 0, 0, 0, false;
    }

    function State(): Scan
      reads this
    {
      Scanner.Scan.Scan(offset, frames, started, complete, pendingBytes, rootItems, messageType, hasMessageType)
    }

    method FinishItem()
      modifies this`frames, this`complete
      ensures State() == Finish(old(State()))
    {
      while frames != []
        invariant Finish(State()) == Finish(old(State())) && complete == old(complete)
        decreases |frames|
      {
        var frame := frames[|frames| - 1];
        if frame.indefinite || frame.remaining > 0 { return; }
        frames := frames[..|frames| - 1];
      }
      complete := true;
    }

    method PushFrame(frame: Frame, l: Limits) returns (ok: bool)
      modifies this`frames
      ensures ok == (|old(frames)| < l.maxFrames)
      ensures frames == if ok then old(frames) + [frame] else old(frames)
    {
      if |frames| >= l.maxFrames { return false; }
      frames := frames + [frame];
      return true;
    }

    /** The switch over the major type, on an item already charged to its frame. */
    method ReadBody(head: Head, l: Limits) returns (ok: bool)
      requires !complete && pendingBytes == 0
      modifies this`frames, this`complete, this`pendingBytes
      ensures StepBody(old(State()), head, l) == if ok then Settle(State()) else Return(State(), Failed)
    {
      hide Finish;
      ok := true;
      if head.IsBreak() { return false; }
      if head.major == 0 || head.major == 1 || head.major == 7 {
        FinishItem();
      } else if head.major == 2 || head.major == 3 {
        if head.Indefinite() {
          ok := PushFrame(Frame(0, true), l);
          KeepsOpen(State());
        } else {
          pendingBytes := head.arg;
          if pendingBytes == 0 { FinishItem(); }
        }
      } else if head.major == 6 {
        ok := PushFrame(Frame(1, false), l);
        KeepsOpen(State());
      } else {
        if head.major == 5 && !head.Indefinite() && head.arg > (TWO_TO_64 - 1) / 2 { return false; }
        ok := PushFrame(Frame(Declared(head), head.Indefinite()), l);
        if ok { FinishItem(); }
      }
    }

    /** Bytes of a definite string. */
    method ReadPayload(data: seq<byte>) returns (signal: Signal)
      requires !complete && pendingBytes > 0 && offset <= |data|
      modifies this`offset, this`frames, this`complete, this`pendingBytes
      ensures StepPayload(old(State()), data) == Signalled(State(), signal)
    {
      hide Finish;
      var available := |data| - offset;
      var consumed := if available < pendingBytes then available else pendingBytes;
      offset := offset + consumed;
      pendingBytes := pendingBytes - consumed;
      if pendingBytes > 0 { return Stop(Starved); }
      FinishItem();
      return Go;
    }

    /** The header of the message's own array. */
    method ReadStart(data: seq<byte>, l: Limits) returns (signal: Signal)
      requires !complete && !started && pendingBytes == 0 && offset <= |data|
      modifies this`offset, this`frames, this`complete, this`started
      ensures StepStart(old(State()), data, l) == Signalled(State(), signal)
    {
      hide Finish, ReadHead;
      match ReadHead(data, offset)
      case Bad => return Stop(Failed);
      case Short => return Stop(Starved);
      case Got(head) =>
        if head.major != 4 || head.IsBreak() { return Stop(Failed); }
        offset := offset + head.size;
        if Exceeds(State(), l) { return Stop(Oversized); }
        started := true;
        var ok := PushFrame(Frame(head.arg, head.Indefinite()), l);
        if !ok { return Stop(Failed); }
        FinishItem();
        return Go;
    }

    /** A break, or the header of an item of the innermost frame. */
    method ReadItem(data: seq<byte>, l: Limits) returns (signal: Signal)
      requires !complete && pendingBytes == 0 && frames != [] && offset < |data|
      modifies this
      ensures StepItem(old(State()), data, l) == Signalled(State(), signal)
    {
      hide Finish, ReadHead, StepHeader;
      var parent := frames[|frames| - 1];
      if parent.indefinite && data[offset] == BREAK {
        offset := offset + 1;
        frames := frames[..|frames| - 1];
        FinishItem();
        return Go;
      }
      if !parent.indefinite && parent.remaining == 0 {
        frames := frames[..|frames| - 1];
        FinishItem();
        return Go;
      }
      match ReadHead(data, offset)
      case Bad => return Stop(Failed);
      case Short => return Stop(Starved);
      case Got(head) => signal := ReadHeader(head, l);
    }

    /** The header of an item of the innermost frame. */
    method ReadHeader(head: Head, l: Limits) returns (signal: Signal)
      requires !complete && pendingBytes == 0 && frames != [] && !Closed(Top(frames))
      modifies this
      ensures StepHeader(old(State()), head, l) == Signalled(State(), signal)
    {
      hide Finish, StepBody;
      var parent := frames[|frames| - 1];
      var first := |frames| == 1 && rootItems == 0;
      if first {
        if head.major != 0 || head.Indefinite() || head.IsBreak() { return Stop(Failed); }
        messageType, hasMessageType := head.arg, true;
      }
      if |frames| == 1 { rootItems := rootItems + 1; }
      if !parent.indefinite { frames := frames[|frames| - 1 := Frame(parent.remaining - 1, false)]; }
      offset := offset + head.size;
      assert State() == Charge(old(State()), head);
      hide Charge;
      if Exceeds(State(), l) { return Stop(Oversized); }
      BodyKeepsOffset(State(), head, l);
      var ok := ReadBody(head, l);
      return if !ok then Stop(Failed) else if first then Stop(if complete then Complete else TypeRead) else Go;
    }

    /** One call: afterwards the state and the report are those of the outcome, and only a malformed
        message, or a buffer that shrank, is an error. */
    method Scan(data: seq<byte>, l: Limits) returns (result: ScanResult, failed: bool)
      modifies this
      ensures var o := Called(old(State()), data, l);
              State() == o.scan && failed == (o.verdict == Failed) && result == Report(o.scan, l)
    {
      hide StepPayload, StepStart, StepItem, Report;
      if complete { return Report(State(), l), false; }
      if offset > |data| { return Report(State(), l), true; }
      while true
        invariant offset <= |data| && !complete && Loop(State(), data, l) == Loop(old(State()), data, l)
        decreases |data| - offset, |frames|
      {
        StepProgress(State(), data, l);
        var signal;
        if Exceeds(State(), l) {
          signal := Stop(Oversized);
        } else if pendingBytes > 0 {
          signal := ReadPayload(data);
        } else if !started {
          signal := ReadStart(data, l);
        } else if frames == [] {
          complete, signal := true, Stop(Complete);
        } else if offset >= |data| {
          signal := Stop(Starved);
        } else {
          signal := ReadItem(data, l);
        }
        if signal.Stop? || complete { return Report(State(), l), signal == Stop(Failed); }
      }
    }
  }

  lemma KeepsOpen(s: Scan)
    ensures s.frames != [] && !Closed(Top(s.frames)) ==> Finish(s) == s
  {
  }

  // ----- reading a message

  lemma {:induction false} FinishKeepsType(s: Scan)
    ensures Finish(s).rootItems == s.rootItems && Finish(s).hasType == s.hasType
    decreases |s.frames|
  {
    if s.frames != [] && Closed(Top(s.frames)) { FinishKeepsType(s.(frames := Pop(s.frames))); }
  }

  lemma BodyKeepsType(c: Scan, h: Head, l: Limits)
    ensures var r := StepBody(c, h, l);
            && r.scan.rootItems == c.rootItems && r.scan.hasType == c.hasType
            && (r.Return? ==> r.verdict in {Complete, Failed})
  {
    hide Finish;
    forall t: Scan ensures Finish(t).rootItems == t.rootItems && Finish(t).hasType == t.hasType { FinishKeepsType(t); }
  }

  /** The message type is reported once, and only learnt in the iteration that reports it; a call
      that wants more or passed the limit is not complete. */
  predicate TypeOnce(s: Scan, r: Step, l: Limits) {
    && (r.Continue? ==> r.scan.rootItems >= s.rootItems && (r.scan.hasType ==> s.hasType))
    && (r.Return? && r.verdict == TypeRead ==> s.rootItems == 0 && r.scan.rootItems > 0 && r.scan.hasType)
    && (r.Return? && r.verdict == Starved ==> !r.scan.complete && (r.scan.hasType ==> s.hasType))
    && (r.Return? && r.verdict == Oversized ==> !r.scan.complete && Exceeds(r.scan, l))
  }

  lemma ItemTypeOnce(s: Scan, data: seq<byte>, l: Limits)
    requires s.frames != [] && s.offset < |data| && !s.complete
    ensures TypeOnce(s, StepItem(s, data, l), l)
  {
    hide ReadHead, Finish, StepBody;
    forall t: Scan ensures Finish(t).rootItems == t.rootItems && Finish(t).hasType == t.hasType { FinishKeepsType(t); }
    if ReadHead(data, s.offset).Got? && !Closed(Top(s.frames)) {
      var h := ReadHead(data, s.offset).head;
      BodyKeepsType(Charge(s, h), h, l);
    }
  }

  lemma StepTypeOnce(s: Scan, data: seq<byte>, l: Limits)
    requires s.offset <= |data| && !s.complete
    ensures TypeOnce(s, StepOf(s, data, l), l)
  {
    hide StepItem, ReadHead, Finish;
    forall t: Scan ensures Finish(t).rootItems == t.rootItems && Finish(t).hasType == t.hasType { FinishKeepsType(t); }
    if s.frames != [] && s.offset < |data| { ItemTypeOnce(s, data, l); }
  }

  lemma {:induction false} LoopTypeOnce(s: Scan, data: seq<byte>, l: Limits)
    requires s.offset <= |data| && !s.complete
    ensures var o := Loop(s, data, l);
            && (o.verdict == TypeRead ==> s.rootItems == 0 && o.scan.rootItems > 0 && o.scan.hasType)
            && (o.verdict == Starved ==> !o.scan.complete && (o.scan.hasType ==> s.hasType))
            && (o.verdict == Oversized ==> !o.scan.complete && Exceeds(o.scan, l))
    decreases |data| - s.offset, |s.frames|
  {
    hide StepOf, Exceeds;
    StepProgress(s, data, l);
    StepTypeOnce(s, data, l);
    match StepOf(s, data, l)
    case Continue(t) => LoopTypeOnce(t, data, l);
    case Return(_, _) =>
  }

  /** The outcome of a first call and, once the message type is known, of a second one. */
  function CalledTwice(data: seq<byte>, l: Limits): Outcome {
    var o := Called(NEW_SCAN, data, l);
    if o.verdict == Failed || !o.scan.hasType then o else Called(o.scan, data, l)
  }

  /** Two calls are all it takes on one buffer. */
  lemma TwoCallsDrive(data: seq<byte>, l: Limits)
    ensures var (o, d) := (CalledTwice(data, l), Drive(NEW_SCAN, data, l));
            && (o.verdict == Complete <==> d.verdict == Complete) && (o.verdict == Complete ==> o == d)
            && (o.verdict == Complete ==> o.scan.complete)
            && (o.scan.complete && o.verdict != Failed ==> o.verdict == Complete)
  {
    hide Loop, Drive, Exceeds;
    LoopTypeOnce(NEW_SCAN, data, l);
    DriveIsScanning(NEW_SCAN, data, l);
    DriveOffset(NEW_SCAN, data, l);
    var o := Loop(NEW_SCAN, data, l);
    if o.verdict == TypeRead {
      LoopTypeOnce(o.scan, data, l);
      DriveIsScanning(o.scan, data, l);
    } else if o.verdict == Oversized && o.scan.hasType && o.scan.offset <= |data| {
      StaysOversized(o.scan, data, l);
    }
  }

  lemma StaysOversized(s: Scan, data: seq<byte>, l: Limits)
    requires s.offset <= |data| && !s.complete && Exceeds(s, l)
    ensures Loop(s, data, l) == Outcome(s, Oversized)
  {
    assert StepOf(s, data, l) == Return(s, Oversized);
  }

  /** A new scanner on a buffer, called again once the type is known: it reports a complete message
      exactly when the buffer starts with one that nests within the limit and whose end is reached,
      and then that message's length and type, oversized exactly when it is longer than the limit. */
  method ReadMessage(data: seq<byte>, l: Limits) returns (result: ScanResult, failed: bool)
    requires |data| < TWO_TO_64
    ensures var p := ParseItem(data, 0);
            !failed && result.complete <==>
              p.OneItem? && IsMessage(p.item) && Nest(p.item) <= l.maxFrames && Reaches(p.end, EndsInBreak(p.item), l)
    ensures var p := ParseItem(data, 0);
            !failed && result.complete && p.OneItem? && IsMessage(p.item) ==>
              && result.messageLength == p.end && WellFormed(p.item) && data[..p.end] == Encode(p.item)
              && result.started && (result.hasMessageType <==> p.item.kids != [])
              && (p.item.kids != [] ==> result.messageType == p.item.kids[0].head.arg)
              && (result.oversized <==> 0 < l.maxBytes < result.messageLength)
  {
    hide Loop, Drive, ParseItem, Encode, WellFormed, Nest, EndsInBreak;
    var scanner := new MessageScanner();
    result, failed := scanner.Scan(data, l);
    if !failed && result.hasMessageType { result, failed := scanner.Scan(data, l); }
    TwoCallsDrive(data, l);
    CompletesExactly(data, l);
    if ParseItem(data, 0).OneItem? { ParsedIsEncoded(data, 0); }
  }
}
