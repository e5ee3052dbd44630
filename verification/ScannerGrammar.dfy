/** The scanner completes exactly at the end of one well-formed message: an array whose first
    item, if any, is an unsigned integer. */
module ScannerGrammar {
  import opened Cbor
  import opened Numbers
  import opened Scanner

  // ----- the byte limit only stops a run

  function Unlimited(l: Limits): Limits { l.(maxBytes := 0) }

  predicate Within(offset: nat, l: Limits) { l.maxBytes <= 0 || offset <= l.maxBytes }

  lemma StepWithin(s: Scan, data: seq<byte>, l: Limits)
    requires s.offset <= |data| && !s.complete
    ensures !(StepOf(s, data, l).Return? && StepOf(s, data, l).verdict == Oversized) ==>
              StepOf(s, data, l) == StepOf(s, data, Unlimited(l))
    ensures !Exceeds(s, l) && Within(StepOf(s, data, Unlimited(l)).scan.offset, l) ==>
              StepOf(s, data, l) == StepOf(s, data, Unlimited(l))
  {
    hide ReadHead, Finish;
    forall t: Scan ensures Finish(t).offset == t.offset { FinishKeeps(t); }
  }

  lemma {:induction false} LimitStops(s: Scan, data: seq<byte>, l: Limits)
    requires s.offset <= |data| && Drive(s, data, l).verdict == Complete
    ensures Drive(s, data, Unlimited(l)) == Drive(s, data, l)
    decreases |data| - s.offset, |s.frames|
  {
    hide StepOf;
    if !s.complete {
      StepProgress(s, data, l);
      StepWithin(s, data, l);
      match StepOf(s, data, l)
      case Continue(t) => LimitStops(t, data, l);
      case Return(t, v) => if v == TypeRead { LimitStops(t, data, l); }
    }
  }

  /** Bytes owed to a payload are consumed before a run completes. */
  lemma PayloadConsumed(s: Scan, data: seq<byte>, l: Limits)
    requires s.offset <= |data| && !s.complete && Drive(s, data, l).verdict == Complete
    ensures s.offset + s.pending <= Drive(s, data, l).scan.offset
  {
    StepProgress(s, data, l);
    var r := StepOf(s, data, l);
    if r.Continue? { DriveOffset(r.scan, data, l); }
    if s.pending > 0 && !Exceeds(s, l) {
      FinishKeeps(s.(offset := s.offset + s.pending, pending := 0));
    } else {
      DriveOffset(s, data, l);
    }
  }

  // ----- whether the last step is a break

  /** The next iteration consumes the break of an indefinite-length item. */
  predicate AtBreak(s: Scan, data: seq<byte>) {
    && s.pending == 0 && s.started && s.frames != [] && Top(s.frames).indefinite
    && s.offset < |data| && data[s.offset] == BREAK
  }

  datatype Walk = Walk(outcome: Outcome, broke: bool)

  /** `Drive`, remembering whether the last iteration consumed a break. */
  function Walked(s: Scan, broke: bool, data: seq<byte>, l: Limits): Walk
    requires s.offset <= |data|
    decreases |data| - s.offset, |s.frames|
  {
    if s.complete then Walk(Outcome(s, Complete), broke)
    else
      StepProgress(s, data, l);
      match StepOf(s, data, l)
      case Continue(t) => Walked(t, AtBreak(s, data), data, l)
      case Return(t, v) =>
        if v == TypeRead then Walked(t, AtBreak(s, data), data, l) else Walk(Outcome(t, v), AtBreak(s, data))
  }

  lemma {:induction false} WalkIsDrive(s: Scan, broke: bool, data: seq<byte>, l: Limits)
    requires s.offset <= |data|
    ensures Walked(s, broke, data, l).outcome == Drive(s, data, l)
    decreases |data| - s.offset, |s.frames|
  {
    hide StepOf, AtBreak;
    if !s.complete {
      StepProgress(s, data, l);
      match StepOf(s, data, l)
      case Continue(t) => WalkIsDrive(t, AtBreak(s, data), data, l);
      case Return(t, v) => if v == TypeRead { WalkIsDrive(t, AtBreak(s, data), data, l); }
    }
  }

  // ----- driving over items

  /** Frames an item needs above its parent's. */
  function Nest(t: Item): nat
    decreases t, 1
  {
    match t
    case Leaf(_) => 0
    case Text(_, _) => 0
    case Node(_, kids) => 1 + AllNest(kids)
    case Open(_, kids) => 1 + AllNest(kids)
  }

  function AllNest(ts: seq<Item>): nat
    decreases ts, 0
  {
    if ts == [] then 0 else Max(Nest(ts[0]), AllNest(ts[1..]))
  }

  /** The last byte of the item is the break of an indefinite-length item. */
  predicate EndsInBreak(t: Item)
    decreases t, 1
  {
    match t
    case Leaf(_) => false
    case Text(_, _) => false
    case Node(_, kids) => LastEnds(kids, false)
    case Open(_, _) => true
  }

  /** The same of a run of items, or `otherwise` when there are none. */
  predicate LastEnds(ts: seq<Item>, otherwise: bool)
    decreases ts, 0
  {
    if ts == [] then otherwise else EndsInBreak(ts[|ts| - 1])
  }

  predicate Unsigned(t: Item) { t.Leaf? && t.head.major == 0 }

  /** The scanner is between items, inside the frames `st + [f]`. */
  predicate Ready(s: Scan, st: seq<Frame>, f: Frame) {
    s.started && !s.complete && s.pending == 0 && s.frames == st + [f]
  }

  /** The state after the items `ts` of the frame above `st`, which are the root's own items when
      `root` holds; `frames` are those left open. */
  function Passed(s: Scan, frames: seq<Frame>, end: nat, root: bool, ts: seq<Item>): Scan {
    var first := root && s.rootItems == 0 && ts != [];
    s.(frames := frames, offset := end,
       rootItems := if root then s.rootItems + |ts| else s.rootItems,
       messageType := if first then ts[0].head.arg else s.messageType,
       hasType := s.hasType || first)
  }

  /** The items may stand here: they nest within the limit, and the root's first one is unsigned. */
  predicate Admissible(s: Scan, st: seq<Frame>, ts: seq<Item>, l: Limits) {
    && (ts != [] ==> |st| + 1 + AllNest(ts) <= l.maxFrames)
    && (st == [] && s.rootItems == 0 && ts != [] ==> Unsigned(ts[0]))
  }

  function Resume(step: Step, broke: bool, data: seq<byte>, l: Limits): Walk
    requires step.scan.offset <= |data|
  {
    match step
    case Continue(u) => Walked(u, broke, data, l)
    case Return(u, v) => Walk(Outcome(u, v), broke)
  }

  predicate HeaderReadable(s: Scan, f: Frame, data: seq<byte>) {
    s.offset < |data| && !(f.indefinite && data[s.offset] == BREAK)
  }

  lemma ResumeSettle(s: Scan, broke: bool, data: seq<byte>, l: Limits)
    requires s.offset <= |data|
    ensures Resume(Settle(s), broke, data, l) == Walked(s, broke, data, l)
  {
  }

  lemma WalkStep(s: Scan, broke: bool, data: seq<byte>, l: Limits)
    requires s.offset <= |data| && !s.complete
    ensures var r := StepOf(s, data, l);
            && r.scan.offset <= |data|
            && Walked(s, broke, data, l) ==
               if r.Continue? || r.verdict == TypeRead then Walked(r.scan, AtBreak(s, data), data, l)
               else Walk(Outcome(r.scan, r.verdict), AtBreak(s, data))
  {
    hide StepOf, AtBreak;
    StepProgress(s, data, l);
  }

  /** The iteration that reads an item's header. */
  lemma WalkHeader(s: Scan, broke: bool, st: seq<Frame>, f: Frame, data: seq<byte>, l: Limits)
    requires Ready(s, st, f) && !Closed(f) && l.maxBytes <= 0 && HeaderReadable(s, f, data)
    requires ReadHead(data, s.offset).Got?
    ensures var h := ReadHead(data, s.offset).head;
            var c := Passed(s, st + [Owe(f)], s.offset + h.size, st == [], [Leaf(h)]);
            if st == [] && s.rootItems == 0 && h.major != 0 then Walked(s, broke, data, l).outcome.verdict != Complete
            else
              && StepBody(c, h, l).scan.offset == c.offset
              && Walked(s, broke, data, l) == Resume(StepBody(c, h, l), false, data, l)
  {
    hide ReadHead, Finish;
    var h := ReadHead(data, s.offset).head;
    var c := Passed(s, st + [Owe(f)], s.offset + h.size, st == [], [Leaf(h)]);
    assert Top(s.frames) == f && Pop(s.frames) == st;
    assert c == Charge(s, h);
    BodyKeepsOffset(c, h, l);
    assert !h.Indefinite() || h.major != 0;
    assert StepOf(s, data, l) == StepHeader(s, h, l);
    WalkStep(s, broke, data, l);
    hide StepBody, StepOf, Walked;
  }

  lemma WalkNoHeader(s: Scan, broke: bool, st: seq<Frame>, f: Frame, data: seq<byte>, l: Limits)
    requires Ready(s, st, f) && !Closed(f) && l.maxBytes <= 0 && s.offset <= |data|
    requires s.offset < |data| ==> HeaderReadable(s, f, data) && !ReadHead(data, s.offset).Got?
    ensures Walked(s, broke, data, l).outcome.verdict != Complete
  {
    hide ReadHead, Finish;
    assert s.offset == |data| || StepOf(s, data, l) == StepItem(s, data, l);
  }

  /** The state once the items `ts` are passed and the frames that owe nothing are dropped. */
  function After(s: Scan, frames: seq<Frame>, end: nat, root: bool, ts: seq<Item>): (r: Scan)
    ensures r.offset == end
  {
    FinishKeeps(Passed(s, frames, end, root, ts));
    Finish(Passed(s, frames, end, root, ts))
  }

  /** The verdict on items that the grammar finds: go on past them when they may stand here. */
  predicate Scanned(
      s: Scan, st: seq<Frame>, ts: seq<Item>, start: Walk, next: Scan, broke: bool, data: seq<byte>, l: Limits)
    requires next.offset <= |data|
  {
    if Admissible(s, st, ts, l) then start == Walked(next, broke, data, l)
    else start.outcome.verdict != Complete
  }

  lemma AllNestOne(t: Item)
    ensures AllNest([]) == 0 && AllNest([t]) == Nest(t)
  {
  }

  lemma AllNestCons(t: Item, ts: seq<Item>)
    ensures AllNest([t] + ts) == Max(Nest(t), AllNest(ts)) && AllNest([t]) == Nest(t)
  {
    assert ([t] + ts)[1..] == ts;
  }

  lemma Payload(s: Scan, broke: bool, n: nat, data: seq<byte>, l: Limits)
    requires l.maxBytes <= 0 && s.offset <= |data| && n > 0 && !s.complete && s.pending == 0
    ensures var w := Walked(s.(pending := n), broke, data, l);
            var t := s.(offset := s.offset + n);
            if n <= |data| - s.offset then Finish(t).offset == t.offset && w == Walked(Finish(t), false, data, l)
            else w.outcome.verdict != Complete
  {
    hide Finish;
    if n <= |data| - s.offset {
      var t := s.(offset := s.offset + n);
      FinishKeeps(t);
      ResumeSettle(Finish(t), false, data, l);
      assert StepOf(s.(pending := n), data, l) == Settle(Finish(t));
    }
  }

  lemma {:induction false} ScanItem(s: Scan, broke: bool, st: seq<Frame>, f: Frame, data: seq<byte>, l: Limits)
    requires Ready(s, st, f) && !Closed(f) && l.maxBytes <= 0 && |st| < l.maxFrames
    requires s.offset <= |data| < TWO_TO_64
    requires f.indefinite ==> s.offset < |data| && data[s.offset] != BREAK
    ensures var w := Walked(s, broke, data, l);
            match ParseItem(data, s.offset)
            case NoItem => w.outcome.verdict != Complete
            case OneItem(t, end) =>
              Scanned(s, st, [t], w, After(s, st + [Owe(f)], end, st == [], [t]), EndsInBreak(t), data, l)
    decreases |data| - s.offset, 1, 0
  {
    hide ReadHead, Finish, Walked, AllNest, ParseOpen, ParseMany, EndsInBreak;
    var pos := s.offset;
    if pos == |data| || !ReadHead(data, pos).Got? {
      WalkNoHeader(s, broke, st, f, data, l);
    } else {
      WalkHeader(s, broke, st, f, data, l);
      var h := ReadHead(data, pos).head;
      var c := Passed(s, st + [Owe(f)], pos + h.size, st == [], [Leaf(h)]);
      if ParseItem(data, pos).OneItem? { AllNestOne(ParseItem(data, pos).item); }
      if !(st == [] && s.rootItems == 0 && h.major != 0) {
        ScanBody(c, h, pos, data, l);
      }
    }
  }

  /** Moving past an item that has been charged to its frame. */
  function Moved(c: Scan, end: nat): (r: Scan)
    ensures r.offset == end
  {
    FinishKeeps(c.(offset := end));
    Finish(c.(offset := end))
  }

  lemma BodyShape(c: Scan, h: Head, l: Limits)
    requires h.IsBreak() || h.Valid()
    ensures StepBody(c, h, l) ==
            if h.IsBreak() then Return(c, Failed)
            else if h.major in {0, 1, 7} then Settle(Finish(c))
            else if h.info == 31 then Push(c, Frame(0, true), l)
            else if h.major in {2, 3} then if h.arg == 0 then Settle(Finish(c)) else Continue(c.(pending := h.arg))
            else if h.major == 5 && h.arg > (TWO_TO_64 - 1) / 2 then Return(c, Failed)
            else Push(c, Frame(Declared(h), false), l)
  {
    hide Finish, Settle, Push, Pow256;
  }

  /** What follows a header at `pos` that has been charged to its frame. */
  lemma {:induction false} ScanBody(c: Scan, h: Head, pos: nat, data: seq<byte>, l: Limits)
    requires c.started && !c.complete && c.pending == 0 && c.frames != [] && l.maxBytes <= 0
    requires pos < |data| < TWO_TO_64 && ReadHead(data, pos) == Got(h) && c.offset == pos + h.size
    ensures StepBody(c, h, l).scan.offset == c.offset
    ensures var w := Resume(StepBody(c, h, l), false, data, l);
            var r := ParseItem(data, pos);
            if r.OneItem? && |c.frames| + Nest(r.item) <= l.maxFrames
            then w == Walked(Moved(c, r.end), EndsInBreak(r.item), data, l)
            else w.outcome.verdict == Complete ==> r.OneItem? && Nest(r.item) == 0
    decreases |data| - pos, 0, 0
  {
    hide ReadHead, Finish, Walked, ParseOpen, ParseMany, AllNest, Settle, Push, StepBody, Head.Valid, Pow256;
    BodyKeepsOffset(c, h, l);
    BodyShape(c, h, l);
    if h.major in {0, 1, 7} {
      if !h.IsBreak() { ResumeSettled(c, false, data, l); }
    } else if h.info == 31 {
      ScanContainer(c, Frame(0, true), data, l);
    } else if h.major in {2, 3} {
      if h.arg == 0 { ResumeSettled(c, false, data, l); } else { Payload(c, false, h.arg, data, l); }
    } else if h.major == 5 && h.arg > (TWO_TO_64 - 1) / 2 {
      assert Declared(h) >= TWO_TO_64;
    } else {
      ScanContainer(c, Frame(Declared(h), false), data, l);
    }
  }

  function Children(f: Frame, data: seq<byte>, pos: nat): (r: ParseSeq)
    requires pos <= |data|
    ensures r.Items? ==> r.end <= |data|
  {
    if f.indefinite then ParseOpen(data, pos) else ParseMany(data, pos, f.remaining)
  }

  /** Pushing a frame and driving over the items it holds. */
  lemma {:induction false} ScanContainer(c: Scan, g: Frame, data: seq<byte>, l: Limits)
    requires c.started && !c.complete && c.pending == 0 && c.frames != [] && l.maxBytes <= 0
    requires c.offset <= |data| < TWO_TO_64 && (g.indefinite ==> g.remaining == 0)
    ensures Push(c, g, l).scan.offset == c.offset
    ensures var w := Resume(Push(c, g, l), false, data, l);
            var kids := Children(g, data, c.offset);
            if kids.Items? && |c.frames| + 1 + AllNest(kids.items) <= l.maxFrames
            then w == Walked(Moved(c, kids.end), g.indefinite || LastEnds(kids.items, false), data, l)
            else w.outcome.verdict != Complete
    decreases |data| - c.offset, 3, 0
  {
    hide Finish, Walked, ParseOpen, ParseMany, AllNest, Push, Resume, LastEnds;
    ScanPush(c, g, false, data, l);
    AllNestOne(Leaf(Head(0, 0, 0, 0)));
    if |c.frames| < l.maxFrames {
      var d := c.(frames := c.frames + [g]);
      if g.indefinite {
        ScanOpen(d, false, c.frames, data, l);
      } else {
        ScanMany(d, false, c.frames, g.remaining, data, l);
      }
    }
  }

  lemma ResumeSettled(c: Scan, broke: bool, data: seq<byte>, l: Limits)
    requires c.offset <= |data|
    ensures Finish(c).offset == c.offset
    ensures Resume(Settle(Finish(c)), broke, data, l) == Walked(Finish(c), broke, data, l)
  {
    FinishKeeps(c);
    ResumeSettle(Finish(c), broke, data, l);
  }

  lemma ScanPush(c: Scan, g: Frame, broke: bool, data: seq<byte>, l: Limits)
    requires c.offset <= |data|
    ensures Push(c, g, l).scan.offset == c.offset
    ensures var d := c.(frames := c.frames + [g]);
            if |c.frames| >= l.maxFrames then Resume(Push(c, g, l), broke, data, l).outcome.verdict == Failed
            else
              && Finish(d).offset == c.offset
              && Resume(Push(c, g, l), broke, data, l) == Walked(Finish(d), broke, data, l)
  {
    ResumeSettled(c.(frames := c.frames + [g]), broke, data, l);
  }

  lemma FinishTop(s: Scan, st: seq<Frame>, f: Frame)
    requires s.frames == st + [f]
    ensures Finish(s) == if Closed(f) then Finish(s.(frames := st)) else s
  {
    assert Pop(s.frames) == st && Top(s.frames) == f;
  }

  lemma NoneEnd(s: Scan, broke: bool, frames: seq<Frame>, end: nat, root: bool)
    ensures LastEnds([], broke) == broke && Passed(s, frames, end, root, []) == s.(frames := frames, offset := end)
  {
  }

  /** Passing an item and then the rest is passing them together. */
  lemma SplitPassed(
      s: Scan, between: seq<Frame>, frames: seq<Frame>, at: nat, end: nat, root: bool,
      t: Item, ts: seq<Item>, broke: bool)
    ensures Passed(Passed(s, between, at, root, [t]), frames, end, root, ts) == Passed(s, frames, end, root, [t] + ts)
    ensures LastEnds([t] + ts, broke) == LastEnds(ts, EndsInBreak(t))
  {
    hide EndsInBreak;
  }

  lemma PassedReady(s: Scan, st: seq<Frame>, f: Frame, end: nat, t: Item)
    ensures var u := Passed(s, st + [f], end, st == [], [t]);
            && u.offset == end && u.frames == st + [f]
            && u.started == s.started && u.complete == s.complete && u.pending == s.pending
            && (st == [] ==> u.rootItems == s.rootItems + 1)
  {
  }

  lemma {:induction false} ScanMany(s: Scan, broke: bool, st: seq<Frame>, count: nat, data: seq<byte>, l: Limits)
    requires Ready(s, st, Frame(count, false)) && l.maxBytes <= 0 && |st| < l.maxFrames
    requires s.offset <= |data| < TWO_TO_64
    ensures Finish(s).offset == s.offset
    ensures var w := Walked(Finish(s), broke, data, l);
            match ParseMany(data, s.offset, count)
            case NoItems => w.outcome.verdict != Complete
            case Items(ts, end) => Scanned(s, st, ts, w, After(s, st, end, st == [], ts), LastEnds(ts, broke), data, l)
    decreases |data| - s.offset, 2, count
  {
    hide Finish, Walked, ParseItem, Nest, EndsInBreak, LastEnds, Passed, AllNest;
    AllNestOne(Leaf(Head(0, 0, 0, 0)));
    NoneEnd(s, broke, st, s.offset, st == []);
    FinishKeeps(s);
    FinishTop(s, st, Frame(count, false));
    if count > 0 {
      var f := Frame(count, false);
      ScanItem(s, broke, st, f, data, l);
      var first := ParseItem(data, s.offset);
      if first.OneItem? {
        var rest := ParseMany(data, first.end, count - 1);
        if rest.Items? {
          AllNestCons(first.item, rest.items);
          SplitPassed(s, st + [Owe(f)], st, first.end, rest.end, st == [], first.item, rest.items, broke);
        }
        PassedReady(s, st, Owe(f), first.end, first.item);
        if Admissible(s, st, [first.item], l) {
          var u := Passed(s, st + [Owe(f)], first.end, st == [], [first.item]);
          ScanMany(u, EndsInBreak(first.item), st, count - 1, data, l);
        }
      }
    }
  }

  lemma {:induction false} ScanOpen(s: Scan, broke: bool, st: seq<Frame>, data: seq<byte>, l: Limits)
    requires Ready(s, st, Frame(0, true)) && l.maxBytes <= 0 && |st| < l.maxFrames
    requires s.offset <= |data| < TWO_TO_64
    ensures Finish(s).offset == s.offset
    ensures var w := Walked(Finish(s), broke, data, l);
            match ParseOpen(data, s.offset)
            case NoItems => w.outcome.verdict != Complete
            case Items(ts, end) => Scanned(s, st, ts, w, After(s, st, end, st == [], ts), true, data, l)
    decreases |data| - s.offset, 2, 0
  {
    hide Finish, Walked, ParseItem, Nest, EndsInBreak;
    var f := Frame(0, true);
    FinishKeeps(s);
    FinishTop(s, st, f);
    if s.offset == |data| || data[s.offset] == BREAK {
      WalkOpenEnd(s, broke, st, data, l);
    } else {
      ScanItem(s, broke, st, f, data, l);
      var first := ParseItem(data, s.offset);
      if first.OneItem? {
        var rest := ParseOpen(data, first.end);
        if rest.Items? { AllNestCons(first.item, rest.items); }
        if Admissible(s, st, [first.item], l) {
          var u := Passed(s, st + [f], first.end, st == [], [first.item]);
          FinishTop(u, st, f);
          ScanOpen(u, EndsInBreak(first.item), st, data, l);
        }
      }
    }
  }

  /** An indefinite frame with no bytes left, or at its break. */
  lemma WalkOpenEnd(s: Scan, broke: bool, st: seq<Frame>, data: seq<byte>, l: Limits)
    requires Ready(s, st, Frame(0, true)) && l.maxBytes <= 0 && s.offset <= |data|
    requires s.offset < |data| ==> data[s.offset] == BREAK
    ensures if s.offset == |data| then Walked(s, broke, data, l).outcome.verdict != Complete
            else Walked(s, broke, data, l) == Walked(After(s, st, s.offset + 1, st == [], []), true, data, l)
  {
    hide Finish;
    assert Pop(s.frames) == st && Top(s.frames) == Frame(0, true);
    if s.offset < |data| {
      var t := s.(offset := s.offset + 1, frames := st);
      ResumeSettled(t, true, data, l);
      assert StepOf(s, data, l) == Settle(Finish(t));
    }
  }

  // ----- messages

  /** A protocol message: an array whose first item, if there is one, is an unsigned integer. */
  predicate IsMessage(t: Item) {
    (t.Node? || t.Open?) && t.head.major == 4 && (t.kids != [] ==> Unsigned(t.kids[0]))
  }

  /** The scanner's state when it has read the message `t` that ends at `end`. */
  function Read(t: Item, end: nat): Scan
    requires IsMessage(t)
  {
    Scan(end, [], true, true, 0, |t.kids|, if t.kids == [] then 0 else t.kids[0].head.arg, t.kids != [])
  }

  /** Complete and not also reported oversized, as when the last break is one byte too far. */
  predicate Clean(o: Outcome, l: Limits) { o.verdict == Complete && !Exceeds(o.scan, l) }

  /** The scanner completes exactly on a message within the limits, and reads it off. */
  predicate Finds(o: Outcome, p: ParseOne, l: Limits) {
    if p.OneItem? && IsMessage(p.item) && Nest(p.item) <= l.maxFrames && Within(p.end, l)
    then o == Outcome(Read(p.item, p.end), Complete) && Clean(o, l)
    else !Clean(o, l)
  }

  lemma ScanStart(data: seq<byte>, l: Limits)
    requires l.maxBytes <= 0 && |data| < TWO_TO_64
    ensures var w := Walked(NEW_SCAN, false, data, l);
            var p := ParseItem(data, 0);
            if p.OneItem? && IsMessage(p.item) && Nest(p.item) <= l.maxFrames
            then w == Walk(Outcome(Read(p.item, p.end), Complete), EndsInBreak(p.item))
            else w.outcome.verdict != Complete
  {
    hide ReadHead, Finish, Walked, AllNest, ParseOpen, ParseMany, LastEnds;
    StartStep(data, l);
    if ReadHead(data, 0).Got? && ReadHead(data, 0).head.major == 4 {
      var h := ReadHead(data, 0).head;
      var c := NEW_SCAN.(offset := h.size, started := true);
      var g := Frame(h.arg, h.Indefinite());
      ScanPush(c, g, false, data, l);
      if 0 < l.maxFrames {
        var d := c.(frames := [] + [g]);
        if h.Indefinite() { ScanOpen(d, false, [], data, l); } else { ScanMany(d, false, [], h.arg, data, l); }
        if ParseItem(data, 0).OneItem? {
          var t := ParseItem(data, 0).item;
          AllNestOne(t);
          ScanEnd(d, ParseItem(data, 0).end, t.kids, EndsInBreak(t), data, l);
        }
      }
    }
  }

  lemma StartStep(data: seq<byte>, l: Limits)
    requires l.maxBytes <= 0
    ensures var w := Walked(NEW_SCAN, false, data, l);
            var r := ReadHead(data, 0);
            if r.Got? && r.head.major == 4 then
              var c := NEW_SCAN.(offset := r.head.size, started := true);
              var g := Frame(r.head.arg, r.head.Indefinite());
              && (r.head.info == 31 ==> r.head.arg == 0)
              && Push(c, g, l).scan.offset == c.offset
              && w == Resume(Push(c, g, l), false, data, l)
            else w.outcome.verdict != Complete
  {
    hide ReadHead, Finish;
    var r := ReadHead(data, 0);
    if r.Got? && r.head.major == 4 {
      var c := NEW_SCAN.(offset := r.head.size, started := true);
      var g := Frame(r.head.arg, r.head.Indefinite());
      ScanPush(c, g, false, data, l);
      assert StepOf(NEW_SCAN, data, l) == Push(c, g, l);
    }
  }

  /** With no frame left the message is complete. */
  lemma ScanEnd(d: Scan, end: nat, ts: seq<Item>, broke: bool, data: seq<byte>, l: Limits)
    requires end <= |data|
    ensures Walked(After(d, [], end, true, ts), broke, data, l)
            == Walk(Outcome(Passed(d, [], end, true, ts).(complete := true), Complete), broke)
  {
  }

  // ----- the byte limit, exactly

  /** Where the scanner stops under the limit: at a message that fits, or one byte past the limit if
      that byte is a break, which is consumed without looking at the limit. */
  predicate Reaches(end: nat, broke: bool, l: Limits) { Within(end, l) || (end == l.maxBytes + 1 && broke) }

  /** A run whose last iteration is a break still has that byte to consume. */
  lemma {:induction false} BreakToCome(s: Scan, broke: bool, data: seq<byte>, l: Limits)
    requires s.offset <= |data| && !s.complete
    requires Walked(s, broke, data, l).outcome.verdict == Complete && Walked(s, broke, data, l).broke
    ensures s.offset + s.pending + 1 <= Walked(s, broke, data, l).outcome.scan.offset
    decreases |data| - s.offset, |s.frames|
  {
    StepMeasure(s, data, l);
    hide StepOf, AtBreak;
    StepProgress(s, data, l);
    match StepOf(s, data, l)
    case Continue(t) => BreakToCome(t, AtBreak(s, data), data, l);
    case Return(t, v) => if v == TypeRead { BreakToCome(t, AtBreak(s, data), data, l); }
  }

  /** An iteration that goes on consumes what was pending; one that consumes a break, one byte. */
  lemma StepMeasure(s: Scan, data: seq<byte>, l: Limits)
    requires s.offset <= |data| && !s.complete
    ensures var r := StepOf(s, data, l);
            && (r.Continue? || r.verdict == TypeRead ==> s.offset + s.pending <= r.scan.offset)
            && (r.Return? && r.verdict == Complete && AtBreak(s, data) ==> s.offset + s.pending + 1 <= r.scan.offset)
  {
    hide ReadHead, Finish, StepBody, StepStart;
    StepProgress(s, data, l);
    if s.pending > 0 && !Exceeds(s, l) { FinishKeeps(s.(offset := s.offset + s.pending, pending := 0)); }
    if AtBreak(s, data) { FinishKeeps(s.(offset := s.offset + 1, frames := Pop(s.frames))); }
  }

  /** An iteration under the limit: refused before it starts, refused after a header that crosses the
      limit, or as without a limit. */
  lemma StepUnderLimit(s: Scan, data: seq<byte>, l: Limits)
    requires s.offset <= |data| && !s.complete
    ensures var r, free := StepOf(s, data, l), StepOf(s, data, Unlimited(l));
            && (AtBreak(s, data) ==> free.scan.offset == s.offset + 1)
            && if Exceeds(s, l) then r == Return(s, Oversized)
               else if Within(free.scan.offset, l) || AtBreak(s, data) then r == free
               else r.Return? && r.verdict == Oversized
  {
    hide ReadHead, Finish, StepBody;
    StepWithin(s, data, l);
    if s.pending > 0 { FinishKeeps(s.(offset := s.offset + s.pending, pending := 0)); }
    if s.frames != [] {
      FinishKeeps(s.(offset := s.offset + 1, frames := Pop(s.frames)));
      FinishKeeps(s.(frames := Pop(s.frames)));
    }
    if ReadHead(data, s.offset).Got? {
      var h := ReadHead(data, s.offset).head;
      var c := s.(offset := s.offset + h.size, started := true);
      FinishKeeps(c.(frames := c.frames + [Frame(h.arg, h.Indefinite())]));
      if s.frames != [] && !Closed(Top(s.frames)) { BodyKeepsOffset(Charge(s, h), h, Unlimited(l)); }
    }
  }

  /** Completion under a limit, against the run without one: exactly when that run's end is reached. */
  lemma {:induction false} LimitExact(s: Scan, broke: bool, data: seq<byte>, l: Limits)
    requires s.offset <= |data| && !s.complete
    requires Walked(s, broke, data, Unlimited(l)).outcome.verdict == Complete
    ensures var w := Walked(s, broke, data, Unlimited(l));
            Drive(s, data, l).verdict == Complete <==> Reaches(w.outcome.scan.offset, w.broke, l)
    decreases |data| - s.offset, |s.frames|
  {
    var free := Unlimited(l);
    var w := Walked(s, broke, data, free);
    WalkIsDrive(s, broke, data, free);
    PayloadConsumed(s, data, free);
    if w.broke { BreakToCome(s, broke, data, free); }
    StepUnderLimit(s, data, l);
    StepProgress(s, data, free);
    StepProgress(s, data, l);
    hide StepOf, AtBreak;
    var r := StepOf(s, data, free);
    if !Exceeds(s, l) && (r.Continue? || r.verdict == TypeRead) {
      WalkIsDrive(r.scan, AtBreak(s, data), data, free);
      DriveOffset(r.scan, data, free);
      if Within(r.scan.offset, l) || AtBreak(s, data) {
        LimitExact(r.scan, AtBreak(s, data), data, l);
      } else if w.broke {
        BreakToCome(r.scan, AtBreak(s, data), data, free);
      }
    }
  }

  /** On every buffer and under every limit: the scanner completes exactly when the buffer starts with
      a message that nests within the limit and whose end is reached, with that message's length,
      type and number of items, whatever follows it. */
  lemma CompletesExactly(data: seq<byte>, l: Limits)
    requires |data| < TWO_TO_64
    ensures var o := Drive(NEW_SCAN, data, l);
            var p := ParseItem(data, 0);
            if p.OneItem? && IsMessage(p.item) && Nest(p.item) <= l.maxFrames && Reaches(p.end, EndsInBreak(p.item), l)
            then o == Outcome(Read(p.item, p.end), Complete)
            else o.verdict != Complete
  {
    hide Drive, Walked, ParseItem, Nest, IsMessage, EndsInBreak;
    var o, w := Drive(NEW_SCAN, data, l), Walked(NEW_SCAN, false, data, Unlimited(l));
    ScanStart(data, Unlimited(l));
    WalkIsDrive(NEW_SCAN, false, data, Unlimited(l));
    if o.verdict == Complete { LimitStops(NEW_SCAN, data, l); }
    if w.outcome.verdict == Complete { LimitExact(NEW_SCAN, false, data, l); }
  }

  /** A clean completion is exactly a message within both limits. */
  lemma CompletesAtMessageEnd(data: seq<byte>, l: Limits)
    requires |data| < TWO_TO_64
    ensures Finds(Drive(NEW_SCAN, data, l), ParseItem(data, 0), l)
  {
    hide Drive, ParseItem, Nest, IsMessage, EndsInBreak;
    CompletesExactly(data, l);
  }

  predicate Overruns(o: Outcome, l: Limits) { o.verdict == Complete && Exceeds(o.scan, l) }

  /** A message that nests within the limit and ends in a break, the first byte past the byte limit. */
  predicate BreaksPast(p: ParseOne, l: Limits) {
    && p.OneItem? && IsMessage(p.item) && Nest(p.item) <= l.maxFrames
    && l.maxBytes > 0 && p.end == l.maxBytes + 1 && EndsInBreak(p.item)
  }

  /** Complete and oversized at once: exactly when the message ends in a break that is the first byte
      past the limit. */
  lemma CompleteAndOversized(data: seq<byte>, l: Limits)
    requires |data| < TWO_TO_64
    ensures Overruns(Drive(NEW_SCAN, data, l), l) <==> BreaksPast(ParseItem(data, 0), l)
  {
    hide Drive, ParseItem, Nest, IsMessage, EndsInBreak;
    CompletesExactly(data, l);
  }

  /** It happens to a definite array too: [0, h''] with the empty string of indefinite length, under a
      limit of three bytes. */
  lemma OversizedByOneBreak(data: seq<byte>, l: Limits)
    requires data == BREAK_LAST && l == Limits(3, 10)
    ensures Overruns(Drive(NEW_SCAN, data, l), l)
  {
    hide Drive, ParseItem, Nest, IsMessage, EndsInBreak;
    BreakMessageParsed();
    CompleteAndOversized(data, l);
  }

  const BREAK_LAST: seq<byte> := [0x82, 0x00, 0x5f, 0xff]
  const ZERO_ITEM := Leaf(Head(0, 0, 0, 1))
  const OPEN_ITEM := Open(Head(2, 31, 0, 1), [])

  lemma BreakMessageHeads()
    ensures ReadHead(BREAK_LAST, 0) == Got(Head(4, 2, 2, 1))
    ensures ReadHead(BREAK_LAST, 1) == Got(Head(0, 0, 0, 1))
    ensures ReadHead(BREAK_LAST, 2) == Got(Head(2, 31, 0, 1))
  {
  }

  lemma BreakMessageItems()
    ensures ParseItem(BREAK_LAST, 1) == OneItem(ZERO_ITEM, 2) && ParseItem(BREAK_LAST, 2) == OneItem(OPEN_ITEM, 4)
  {
    BreakMessageHeads();
    hide ReadHead;
    assert ParseOpen(BREAK_LAST, 3) == Items([], 4);
  }

  lemma BreakMessageKids()
    ensures ParseMany(BREAK_LAST, 1, 2) == Items([ZERO_ITEM, OPEN_ITEM], 4)
  {
    BreakMessageItems();
    hide ParseItem, ParseOpen;
    assert ParseMany(BREAK_LAST, 4, 0) == Items([], 4);
    assert ParseMany(BREAK_LAST, 2, 1) == Items([OPEN_ITEM], 4);
  }

  lemma BreakMessageParsed()
    ensures var p := ParseItem(BREAK_LAST, 0);
            p.OneItem? && p.end == 4 && IsMessage(p.item) && Nest(p.item) <= 10 && EndsInBreak(p.item)
  {
    BreakMessageHeads();
    BreakMessageKids();
    hide ReadHead, ParseMany, ParseOpen;
    assert [ZERO_ITEM, OPEN_ITEM][1..] == [OPEN_ITEM] && [OPEN_ITEM][1..] == [];
    assert AllNest([OPEN_ITEM]) == Nest(OPEN_ITEM) == 1;
    assert AllNest([ZERO_ITEM, OPEN_ITEM]) == 1;
    assert EndsInBreak(OPEN_ITEM) && LastEnds([ZERO_ITEM, OPEN_ITEM], false);
  }

  /** A message that arrives in chunks, with any bytes after it, is found at its own end. */
  lemma MessageFound(t: Item, rest: seq<byte>, chunks: seq<seq<byte>>, l: Limits)
    requires WellFormed(t) && IsMessage(t) && Nest(t) <= l.maxFrames && Within(|Encode(t)|, l)
    requires Concat(chunks) == Encode(t) + rest && |Encode(t) + rest| < TWO_TO_64
    ensures Feed(NEW_SCAN, [], chunks, l) == Outcome(Read(t, |Encode(t)|), Complete)
  {
    hide Drive, ParseItem, Nest, IsMessage, Encode, WellFormed, Feed;
    var data := Encode(t) + rest;
    assert data[0..0 + |Encode(t)|] == Encode(t) && [] + Concat(chunks) == data;
    ParsesEncoded(t, data, 0);
    CompletesAtMessageEnd(data, l);
    ChunkedEqualsWhole(NEW_SCAN, [], chunks, l);
  }
}
