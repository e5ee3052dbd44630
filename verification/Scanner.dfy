/** The incremental scanner that finds where one protocol message ends in a growing buffer. */
module Scanner {
  import opened Cbor
  import opened Numbers

  datatype Frame = Frame(remaining: nat, indefinite: bool)

  /** The scanner's fields. */
  datatype Scan = Scan(
    offset: nat,
    frames: seq<Frame>,
    started: bool,
    complete: bool,
    pending: nat,
    rootItems: nat,
    messageType: nat,
    hasType: bool)

  const NEW_SCAN := Scan(0, [], false, false, 0, 0, 0, false)

  /** Why `scan` returned: it wants more bytes, passed the byte limit, finished the message, has
      just learnt the message type, or found malformed input. */
  datatype Verdict = Starved | Oversized | Complete | TypeRead | Failed

  datatype Step = Continue(scan: Scan) | Return(scan: Scan, verdict: Verdict)

  /** Byte and nesting limits; a byte limit of zero or less means none. */
  datatype Limits = Limits(maxBytes: int, maxFrames: nat)

  function Pop(frames: seq<Frame>): seq<Frame>
    requires frames != []
  {
    frames[..|frames| - 1]
  }

  function Top(frames: seq<Frame>): Frame
    requires frames != []
  {
    frames[|frames| - 1]
  }

  predicate Closed(f: Frame) { !f.indefinite && f.remaining == 0 }

  /** One child fewer is owed, unless the frame is indefinite. */
  function Owe(f: Frame): Frame
    requires !Closed(f)
  {
    if f.indefinite then f else f.(remaining := f.remaining - 1)
  }

  /** `finishItem`: drop the frames that owe nothing; the message is complete when none is left. */
  function Finish(s: Scan): Scan
    decreases |s.frames|
  {
    if s.frames == [] then s.(complete := true)
    else if !Closed(Top(s.frames)) then s
    else Finish(s.(frames := Pop(s.frames)))
  }

  predicate Exceeds(s: Scan, l: Limits) {
    l.maxBytes > 0 && (s.offset > l.maxBytes || s.pending > l.maxBytes - s.offset)
  }

  function Settle(s: Scan): Step {
    if s.complete then Return(s, Complete) else Continue(s)
  }

  /** Push a frame and settle it: an empty definite frame closes at once. */
  function Push(s: Scan, f: Frame, l: Limits): Step {
    if |s.frames| >= l.maxFrames then Return(s, Failed)
    else Settle(Finish(s.(frames := s.frames + [f])))
  }

  function StepPayload(s: Scan, data: seq<byte>): Step
    requires s.pending > 0 && s.offset <= |data|
  {
    var consumed := if |data| - s.offset < s.pending then |data| - s.offset else s.pending;
    var t := s.(offset := s.offset + consumed, pending := s.pending - consumed);
    if t.pending > 0 then Return(t, Starved) else Settle(Finish(t))
  }

  function StepStart(s: Scan, data: seq<byte>, l: Limits): Step {
    match ReadHead(data, s.offset)
    case Bad => Return(s, Failed)
    case Short => Return(s, Starved)
    case Got(h) =>
      if h.major != 4 || h.IsBreak() then Return(s, Failed)
      else
        var t := s.(offset := s.offset + h.size);
        if Exceeds(t, l) then Return(t, Oversized)
        else Push(t.(started := true), Frame(h.arg, h.Indefinite()), l)
  }

  /** The effect of a header once its item has been charged to the parent. */
  function StepBody(s: Scan, h: Head, l: Limits): Step {
    if h.IsBreak() then Return(s, Failed)
    else if h.major in {0, 1, 7} then Settle(Finish(s))
    else if h.major in {2, 3} && !h.Indefinite() then
      if h.arg == 0 then Settle(Finish(s)) else Continue(s.(pending := h.arg))
    else if h.major in {2, 3} then Push(s, Frame(0, true), l)
    else if h.major == 6 then Push(s, Frame(1, false), l)
    else if h.major == 5 && !h.Indefinite() && h.arg > (TWO_TO_64 - 1) / 2 then Return(s, Failed)
    else Push(s, Frame(Declared(h), h.Indefinite()), l)
  }

  predicate FirstRootItem(s: Scan) { |s.frames| == 1 && s.rootItems == 0 }

  /** Charge one item with header `h` to the innermost frame. */
  function Charge(s: Scan, h: Head): Scan
    requires s.frames != [] && !Closed(Top(s.frames))
  {
    s.(frames := Pop(s.frames) + [Owe(Top(s.frames))],
       offset := s.offset + h.size,
       rootItems := if |s.frames| == 1 then s.rootItems + 1 else s.rootItems,
       messageType := if FirstRootItem(s) then h.arg else s.messageType,
       hasType := s.hasType || FirstRootItem(s))
  }

  /** A header read inside the innermost frame. */
  function StepHeader(s: Scan, h: Head, l: Limits): Step
    requires s.frames != [] && !Closed(Top(s.frames))
  {
    if FirstRootItem(s) && (h.major != 0 || h.Indefinite() || h.IsBreak()) then Return(s, Failed)
    else
      var t := Charge(s, h);
      if Exceeds(t, l) then Return(t, Oversized)
      else
        match StepBody(t, h, l)
        case Return(u, v) => Return(u, v)
        case Continue(u) => if FirstRootItem(s) then Return(u, TypeRead) else Continue(u)
  }

  function StepItem(s: Scan, data: seq<byte>, l: Limits): Step
    requires s.frames != [] && s.offset < |data|
  {
    var parent := Top(s.frames);
    if parent.indefinite && data[s.offset] == BREAK then
      Settle(Finish(s.(offset := s.offset + 1, frames := Pop(s.frames))))
    else if Closed(parent) then Settle(Finish(s.(frames := Pop(s.frames))))
    else
      match ReadHead(data, s.offset)
      case Bad => Return(s, Failed)
      case Short => Return(s, Starved)
      case Got(h) => StepHeader(s, h, l)
  }

  /** One iteration of the scan loop. */
  function StepOf(s: Scan, data: seq<byte>, l: Limits): (r: Step)
    requires s.offset <= |data|
  {
    if Exceeds(s, l) then Return(s, Oversized)
    else if s.pending > 0 then StepPayload(s, data)
    else if !s.started then StepStart(s, data, l)
    else if s.frames == [] then Return(s.(complete := true), Complete)
    else if s.offset >= |data| then Return(s, Starved)
    else StepItem(s, data, l)
  }

  lemma {:induction false} FinishKeeps(s: Scan)
    ensures Finish(s).offset == s.offset && Finish(s).pending == s.pending && Finish(s).started == s.started
    ensures |Finish(s).frames| <= |s.frames| && (s.complete ==> Finish(s).complete)
    decreases |s.frames|
  {
    if s.frames != [] && Closed(Top(s.frames)) { FinishKeeps(s.(frames := Pop(s.frames))); }
  }

  /** What a header does leaves the offset where it is. */
  lemma BodyKeepsOffset(c: Scan, h: Head, l: Limits)
    ensures var r := StepBody(c, h, l);
            && r.scan.offset == c.offset
            && (r.Continue? ==> !r.scan.complete || c.complete)
            && (r.Return? ==> r.verdict in {Complete, Failed} && (r.verdict == Complete ==> r.scan.complete))
  {
    hide Finish;
    forall t: Scan ensures Finish(t).offset == t.offset { FinishKeeps(t); }
  }

  lemma ItemProgress(s: Scan, data: seq<byte>, l: Limits)
    requires s.frames != [] && s.offset < |data| && !s.complete
    ensures Advances(s, StepItem(s, data, l), data)
  {
    hide ReadHead, Finish, StepBody;
    var popped := s.(frames := Pop(s.frames));
    FinishKeeps(popped);
    FinishKeeps(popped.(offset := s.offset + 1));
    if ReadHead(data, s.offset).Got? && !Closed(Top(s.frames)) {
      var h := ReadHead(data, s.offset).head;
      BodyKeepsOffset(Charge(s, h), h, l);
    }
  }

  lemma StartProgress(s: Scan, data: seq<byte>, l: Limits)
    requires s.offset <= |data| && !s.complete
    ensures Advances(s, StepStart(s, data, l), data)
  {
    hide ReadHead, Finish;
    forall t: Scan ensures Finish(t).offset == t.offset { FinishKeeps(t); }
  }

  lemma PayloadProgress(s: Scan, data: seq<byte>)
    requires s.pending > 0 && s.offset <= |data| && !s.complete
    ensures Advances(s, StepPayload(s, data), data)
  {
    hide Finish;
    FinishKeeps(s.(offset := s.offset + s.pending, pending := 0));
  }

  /** Nothing is read twice; an iteration that goes on has consumed input or popped a frame. */
  predicate Advances(s: Scan, r: Step, data: seq<byte>) {
    && s.offset <= r.scan.offset <= |data|
    && (r.Continue? ==> !r.scan.complete && (s.offset < r.scan.offset || |r.scan.frames| < |s.frames|))
    && (r.Return? && r.verdict == TypeRead ==> !r.scan.complete && s.offset < r.scan.offset)
    && (r.Return? && r.verdict == Complete ==> r.scan.complete)
  }

  lemma StepProgress(s: Scan, data: seq<byte>, l: Limits)
    requires s.offset <= |data| && !s.complete
    ensures Advances(s, StepOf(s, data, l), data)
  {
    hide StepItem, StepStart, StepPayload;
    StartProgress(s, data, l);
    if s.pending > 0 { PayloadProgress(s, data); }
    if s.frames != [] && s.offset < |data| { ItemProgress(s, data, l); }
  }

  // ----- runs

  datatype Outcome = Outcome(scan: Scan, verdict: Verdict)

  /** The scan loop from a state that is not complete. */
  function Loop(s: Scan, data: seq<byte>, l: Limits): Outcome
    requires s.offset <= |data| && !s.complete
    decreases |data| - s.offset, |s.frames|
  {
    StepProgress(s, data, l);
    match StepOf(s, data, l)
    case Continue(t) => Loop(t, data, l)
    case Return(t, v) => Outcome(t, v)
  }

  /** `scan` called again for as long as it only reports the message type. */
  function Drive(s: Scan, data: seq<byte>, l: Limits): Outcome
    requires s.offset <= |data|
    decreases |data| - s.offset, |s.frames|
  {
    if s.complete then Outcome(s, Complete)
    else
      StepProgress(s, data, l);
      match StepOf(s, data, l)
      case Continue(t) => Drive(t, data, l)
      case Return(t, v) => if v == TypeRead then Drive(t, data, l) else Outcome(t, v)
  }

  /** Driving to `d` goes on after a call that came to `o`, if that only read the message type. */
  predicate Continues(s: Scan, o: Outcome, d: Outcome, data: seq<byte>, l: Limits) {
    if o.verdict != TypeRead then d == o
    else !o.scan.complete && s.offset < o.scan.offset <= |data| && d == Drive(o.scan, data, l)
  }

  /** Driving is scanning, and scanning again after each message type. */
  lemma {:induction false} DriveIsScanning(s: Scan, data: seq<byte>, l: Limits)
    requires s.offset <= |data| && !s.complete
    ensures Continues(s, Loop(s, data, l), Drive(s, data, l), data, l)
    decreases |data| - s.offset, |s.frames|
  {
    hide StepOf;
    StepProgress(s, data, l);
    match StepOf(s, data, l)
    case Continue(t) => DriveIsScanning(t, data, l);
    case Return(_, _) =>
  }

  lemma {:induction false} DriveOffset(s: Scan, data: seq<byte>, l: Limits)
    requires s.offset <= |data|
    ensures s.offset <= Drive(s, data, l).scan.offset <= |data|
    ensures Drive(s, data, l).verdict != TypeRead
    ensures Drive(s, data, l).verdict == Complete ==> Drive(s, data, l).scan.complete
    decreases |data| - s.offset, |s.frames|
  {
    hide StepOf;
    if !s.complete {
      StepProgress(s, data, l);
      match StepOf(s, data, l)
      case Continue(t) => DriveOffset(t, data, l);
      case Return(t, v) => if v == TypeRead { DriveOffset(t, data, l); }
    }
  }

  // ----- growing the buffer

  lemma HeadStable(d: seq<byte>, e: seq<byte>, pos: nat)
    requires !ReadHead(d, pos).Short?
    ensures ReadHead(d + e, pos) == ReadHead(d, pos)
  {
    hide BigEndian;
    var info := d[pos] % 32;
    if 24 <= info < 28 && ReadHead(d, pos).Got? {
      var n := ArgumentSize(info);
      assert (d + e)[pos + 1..pos + 1 + n] == d[pos + 1..pos + 1 + n];
    }
  }

  /** More bytes do not change an iteration that did not run out of them. */
  lemma StepStable(s: Scan, d: seq<byte>, e: seq<byte>, l: Limits)
    requires s.offset <= |d| && !s.complete
    requires StepOf(s, d, l).Continue? || StepOf(s, d, l).verdict != Starved
    ensures StepOf(s, d + e, l) == StepOf(s, d, l)
  {
    hide ReadHead, Finish, Charge, StepBody, Push;
    if !ReadHead(d, s.offset).Short? { HeadStable(d, e, s.offset); }
  }

  /** An iteration that ran out of bytes has lost nothing: going on from the state it left is
      going on from the state before it. */
  lemma StarvedResumes(s: Scan, d: seq<byte>, e: seq<byte>, l: Limits)
    requires s.offset <= |d| && !s.complete && StepOf(s, d, l).Return? && StepOf(s, d, l).verdict == Starved
    ensures var t := StepOf(s, d, l).scan;
            t.offset <= |d| && !t.complete && StepOf(t, d + e, l) == StepOf(s, d + e, l)
  {
    hide ReadHead, Finish, Charge;
    StepProgress(s, d, l);
    if s.pending > 0 && !Exceeds(s, l) {
      var t := StepOf(s, d, l).scan;
      assert t == s.(offset := |d|, pending := s.pending - (|d| - s.offset));
    }
  }

  lemma {:induction false} DriveExtends(s: Scan, d: seq<byte>, e: seq<byte>, l: Limits)
    requires s.offset <= |d|
    ensures var o := Drive(s, d, l);
            && o.scan.offset <= |d|
            && Drive(s, d + e, l) == if o.verdict == Starved then Drive(o.scan, d + e, l) else o
    decreases |d| - s.offset, |s.frames|
  {
    hide StepOf;
    DriveOffset(s, d, l);
    if !s.complete {
      StepProgress(s, d, l);
      match StepOf(s, d, l)
      case Continue(t) =>
        StepStable(s, d, e, l);
        DriveExtends(t, d, e, l);
      case Return(t, v) =>
        if v == Starved {
          StarvedResumes(s, d, e, l);
        } else {
          StepStable(s, d, e, l);
          if v == TypeRead { DriveExtends(t, d, e, l); }
        }
    }
  }

  function Concat(chunks: seq<seq<byte>>): seq<byte> {
    if chunks == [] then [] else chunks[0] + Concat(chunks[1..])
  }

  /** Driving the scanner after every chunk that arrives, until it is no longer starved. */
  function Feed(s: Scan, data: seq<byte>, chunks: seq<seq<byte>>, l: Limits): Outcome
    requires s.offset <= |data|
    decreases |chunks|
  {
    var o := Drive(s, data, l);
    DriveOffset(s, data, l);
    if chunks == [] || o.verdict != Starved then o else Feed(o.scan, data + chunks[0], chunks[1..], l)
  }

  /** However the stream is cut into chunks, the scanner ends in the same state with the same
      verdict as on the whole buffer. */
  lemma {:induction false} ChunkedEqualsWhole(s: Scan, data: seq<byte>, chunks: seq<seq<byte>>, l: Limits)
    requires s.offset <= |data|
    ensures Feed(s, data, chunks, l) == Drive(s, data + Concat(chunks), l)
    decreases |chunks|
  {
    hide Drive;
    DriveOffset(s, data, l);
    DriveExtends(s, data, Concat(chunks), l);
    if chunks == [] {
      assert data + Concat(chunks) == data;
    } else if Drive(s, data, l).verdict == Starved {
      ChunkedEqualsWhole(Drive(s, data, l).scan, data + chunks[0], chunks[1..], l);
      assert data + chunks[0] + Concat(chunks[1..]) == data + Concat(chunks);
    }
  }
}
