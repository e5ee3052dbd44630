/** The explicit-stack walker that counts the items of one encoded item against a budget. */
module ItemBudget {
  import opened Cbor
  import opened Numbers

  const TWO_TO_63: int := 0x8000_0000_0000_0000

  datatype Count = Counted(items: nat) | OverBudget | Truncated | UnexpectedBreak | InvalidHeader | TooDeep

  /** Position, frames and items so far. A frame holds the children still owed, or -1 for an
      indefinite-length item that ends at a break. */
  datatype Machine = Machine(pos: nat, stack: seq<int>, items: nat)

  function Last(stack: seq<int>): int
    requires stack != []
  {
    stack[|stack| - 1]
  }

  function Pop(stack: seq<int>): seq<int>
    requires stack != []
  {
    stack[..|stack| - 1]
  }

  /** One child fewer is owed, unless the frame is indefinite. */
  function Owe(n: int): int { if n > 0 then n - 1 else n }

  /** A map's declared pairs as a child count, in `uint64` arithmetic, clamped past the budget. */
  function MapChildren(arg: nat, maxItems: int): nat {
    (if arg > maxItems then maxItems + 1 else arg) * 2 % TWO_TO_64
  }

  /** What the header asks to push, or the error it raises; `items` counts this item. */
  datatype Push = Pushed(frame: int, pos: nat) | PushFailed(error: Count)

  function PushFor(data: seq<byte>, h: Head, p: nat, items: nat, maxItems: int): (r: Push)
    requires p <= |data| && h.major < 8
    ensures r.Pushed? ==> p <= r.pos <= |data| && r.frame >= -1
    ensures r.PushFailed? ==> !r.error.Counted?
  {
    if h.major in {0, 1, 7} then Pushed(0, p)
    else if h.info == 31 then Pushed(-1, p)
    else if h.major in {2, 3} then if h.arg > |data| - p then PushFailed(Truncated) else Pushed(0, p + h.arg)
    else if h.major == 6 then Pushed(1, p)
    else
      var children := if h.major == 5 then MapChildren(h.arg, maxItems) else h.arg;
      if children > maxItems - items then PushFailed(OverBudget) else Pushed(children, p)
  }

  /** The walk from a machine state to its end. */
  function Run(data: seq<byte>, maxItems: int, limit: nat, m: Machine): Count
    requires m.pos <= |data|
    decreases |data| - m.pos, |m.stack|
  {
    if m.stack == [] then Counted(m.items)
    else if Last(m.stack) == 0 then Run(data, maxItems, limit, m.(stack := Pop(m.stack)))
    else if m.pos >= |data| then Truncated
    else if data[m.pos] == BREAK then
      if Last(m.stack) != -1 then UnexpectedBreak
      else Run(data, maxItems, limit, Machine(m.pos + 1, Pop(m.stack), m.items))
    else if m.items + 1 > maxItems then OverBudget
    else
      match ReadHead(data, m.pos)
      case Short => Truncated
      case Bad => InvalidHeader
      case Got(h) =>
        var stack := Pop(m.stack) + [Owe(Last(m.stack))];
        match PushFor(data, h, m.pos + h.size, m.items + 1, maxItems)
        case PushFailed(error) => error
        case Pushed(frame, pos) =>
          if frame == 0 then Run(data, maxItems, limit, Machine(pos, stack, m.items + 1))
          else if |stack| >= limit then TooDeep
          else Run(data, maxItems, limit, Machine(pos, stack + [frame], m.items + 1))
  }

  method ReadArgument(data: seq<byte>, pos: nat, size: nat) returns (arg: nat)
    requires pos + size <= |data|
    ensures arg == BigEndian(data[pos..pos + size])
  {
    arg := 0;
    for i := 0 to size
      invariant arg == BigEndian(data[pos..pos + i])
    {
      arg := arg * 256 + data[pos + i];
      assert data[pos..pos + i + 1][..i] == data[pos..pos + i];
    }
  }

  /** The header at `pos`, classified as the walker's own switch does. */
  method ScanHeader(data: seq<byte>, pos: nat) returns (r: HeadResult)
    requires pos < |data| && data[pos] != BREAK
    ensures r == ReadHead(data, pos)
  {
    var major, info := data[pos] / 32, data[pos] % 32;
    if info < 24 { return Got(Head(major, info, info, 1)); }
    if info <= 27 {
      var size := ArgumentSize(info);
      if |data| - (pos + 1) < size { return Short; }
      var arg := ReadArgument(data, pos + 1, size);
      return Got(Head(major, info, arg, 1 + size));
    }
    if info == 31 && 2 <= major <= 5 { return Got(Head(major, info, 0, 1)); }
    return Bad;
  }

  method CountItems(data: seq<byte>, maxItems: int, limit: nat) returns (r: Count)
    ensures r == Run(data, maxItems, limit, Machine(0, [1], 0))
  {
    hide ReadHead, PushFor;
    var stack, pos, items := [1], 0, 0;
    while |stack| > 0
      invariant pos <= |data|
      invariant Run(data, maxItems, limit, Machine(0, [1], 0)) == Run(data, maxItems, limit, Machine(pos, stack, items))
      decreases |data| - pos, |stack|
    {
      var top := |stack| - 1;
      if stack[top] == 0 {
        stack := stack[..top];
        continue;
      }
      if pos >= |data| { return Truncated; }
      if data[pos] == BREAK {
        if stack[top] != -1 { return UnexpectedBreak; }
        pos, stack := pos + 1, stack[..top];
        continue;
      }
      stack := stack[..top] + [if stack[top] > 0 then stack[top] - 1 else stack[top]];
      items := items + 1;
      if items > maxItems { return OverBudget; }
      var head := ScanHeader(data, pos);
      if head.Short? { return Truncated; }
      if head.Bad? { return InvalidHeader; }
      var push := PushFor(data, head.head, pos + head.head.size, items, maxItems);
      if push.PushFailed? { return push.error; }
      pos := push.pos;
      if push.frame != 0 {
        if |stack| >= limit { return TooDeep; }
        stack := stack + [push.frame];
      }
    }
    return Counted(items);
  }

  // ----- the machine counts the tree

  /** Frames an item needs above its parent's: an empty definite container pushes none. */
  function Nest(t: Item): nat
    decreases t, 1
  {
    match t
    case Leaf(_) => 0
    case Text(_, _) => 0
    case Node(_, kids) => if kids == [] then 0 else 1 + AllNest(kids)
    case Open(_, kids) => 1 + AllNest(kids)
  }

  function AllNest(ts: seq<Item>): nat
    decreases ts, 0
  {
    if ts == [] then 0 else Max(Nest(ts[0]), AllNest(ts[1..]))
  }

  /** How a walk over parsed items must go: on to `next` within the limits, and over budget when
      only the budget is exceeded. */
  ghost predicate Walked(start: Count, next: Count, items: nat, maxItems: int, height: nat, limit: nat) {
    if items <= maxItems && height <= limit then start == next
    else !start.Counted? && (height <= limit ==> start == OverBudget)
  }

  lemma ClampIsExact(arg: nat, maxItems: int, items: nat)
    requires items <= maxItems < TWO_TO_63 - 1
    ensures MapChildren(arg, maxItems) > maxItems - items <==> 2 * arg > maxItems - items
    ensures 2 * arg <= maxItems - items ==> MapChildren(arg, maxItems) == 2 * arg
  {
  }

  /** One iteration on an item header. */
  lemma RunHeader(data: seq<byte>, pos: nat, st: seq<int>, n: int, items: nat, maxItems: int, limit: nat)
    requires pos < |data| && data[pos] != BREAK && n != 0 && items + 1 <= maxItems && ReadHead(data, pos).Got?
    ensures var h := ReadHead(data, pos).head;
            var start := Run(data, maxItems, limit, Machine(pos, st + [n], items));
            match PushFor(data, h, pos + h.size, items + 1, maxItems)
            case PushFailed(error) => start == error
            case Pushed(frame, p) =>
              start == if frame == 0 then Run(data, maxItems, limit, Machine(p, st + [Owe(n)], items + 1))
                       else if |st| + 1 >= limit then TooDeep
                       else Run(data, maxItems, limit, Machine(p, st + [Owe(n)] + [frame], items + 1))
  {
    hide ReadHead, PushFor;
    assert Pop(st + [n]) == st && Last(st + [n]) == n;
  }

  /** Without a header to read, or past the budget, the walk fails. */
  lemma RunNoHeader(data: seq<byte>, pos: nat, st: seq<int>, n: int, items: nat, maxItems: int, limit: nat)
    requires pos <= |data| && (n >= 1 || (n == -1 && pos < |data| && data[pos] != BREAK))
    ensures var start := Run(data, maxItems, limit, Machine(pos, st + [n], items));
            && (!ReadHead(data, pos).Got? || data[pos] == BREAK ==> !start.Counted?)
            && (pos < |data| && data[pos] != BREAK && items + 1 > maxItems ==> start == OverBudget)
  {
    hide PushFor;
    assert Pop(st + [n]) == st && Last(st + [n]) == n;
  }

  lemma {:induction false} RunItem(
      data: seq<byte>, pos: nat, st: seq<int>, n: int, items: nat, maxItems: int, limit: nat)
    requires pos <= |data| && maxItems < TWO_TO_63 - 1 && (n >= 1 || n == -1) && |st| < limit
    requires n == -1 ==> pos < |data| && data[pos] != BREAK
    ensures var start := Run(data, maxItems, limit, Machine(pos, st + [n], items));
            match ParseItem(data, pos)
            case NoItem => !start.Counted?
            case OneItem(t, end) =>
              Walked(start, Run(data, maxItems, limit, Machine(end, st + [Owe(n)], items + Nodes(t))),
                     items + Nodes(t), maxItems, |st| + 1 + Nest(t), limit)
    decreases |data| - pos, 0, 0
  {
    hide ReadHead, Run, PushFor, ParseOpen, ParseMany, AllNodes, AllNest;
    EmptyItems(data);
    RunNoHeader(data, pos, st, n, items, maxItems, limit);
    if pos < |data| && data[pos] == BREAK {
      NoItemAtBreak(data, pos);
    } else if ReadHead(data, pos).Got? && items + 1 <= maxItems {
      HeadAtItem(data, pos);
      RunHeader(data, pos, st, n, items, maxItems, limit);
      var h := ReadHead(data, pos).head;
      var p, stack := pos + h.size, st + [Owe(n)];
      PushedFrame(data, h, p, items + 1, maxItems);
      if h.major in {0, 1, 7} || |stack| >= limit {
      } else if h.info == 31 {
        RunOpen(data, p, stack, items + 1, maxItems, limit);
      } else if 4 <= h.major {
        RunMany(data, p, stack, Declared(h), items + 1, maxItems, limit);
      }
    }
  }

  lemma EmptyItems(data: seq<byte>)
    ensures forall p: nat :: p <= |data| ==> ParseMany(data, p, 0) == Items([], p)
    ensures AllNodes([]) == 0 && AllNest([]) == 0
  {
  }

  /** What the header pushes in terms of the declared children: the clamp and the early rejection
      agree with the exact count. */
  lemma PushedFrame(data: seq<byte>, h: Head, p: nat, items: nat, maxItems: int)
    requires p <= |data| && h.major < 8 && items <= maxItems < TWO_TO_63 - 1
    ensures PushFor(data, h, p, items, maxItems) ==
            if h.major in {0, 1, 7} then Pushed(0, p)
            else if h.info == 31 then Pushed(-1, p)
            else if h.major in {2, 3} then if h.arg > |data| - p then PushFailed(Truncated) else Pushed(0, p + h.arg)
            else if h.major != 6 && Declared(h) > maxItems - items then PushFailed(OverBudget)
            else Pushed(Declared(h), p)
  {
    if h.major == 5 { ClampIsExact(h.arg, maxItems, items); }
  }

  lemma HeadAtItem(data: seq<byte>, pos: nat)
    requires pos < |data| && data[pos] != BREAK && ReadHead(data, pos).Got?
    ensures var h := ReadHead(data, pos).head; !h.IsBreak() && h.major < 8
  {
  }

  /** A frame owing nothing is popped; an indefinite one is popped by a break. */
  lemma RunPop(data: seq<byte>, pos: nat, st: seq<int>, items: nat, maxItems: int, limit: nat)
    requires pos <= |data|
    ensures Run(data, maxItems, limit, Machine(pos, st + [0], items))
            == Run(data, maxItems, limit, Machine(pos, st, items))
    ensures var open := Run(data, maxItems, limit, Machine(pos, st + [-1], items));
            if pos == |data| then open == Truncated
            else data[pos] == BREAK ==> open == Run(data, maxItems, limit, Machine(pos + 1, st, items))
  {
    hide ReadHead, PushFor;
    assert Pop(st + [0]) == st && Pop(st + [-1]) == st;
  }

  lemma {:induction false} RunMany(
      data: seq<byte>, pos: nat, st: seq<int>, count: nat, items: nat, maxItems: int, limit: nat)
    requires pos <= |data| && items <= maxItems < TWO_TO_63 - 1 && |st| < limit
    ensures var start := Run(data, maxItems, limit, Machine(pos, st + [count], items));
            match ParseMany(data, pos, count)
            case NoItems => !start.Counted?
            case Items(ts, end) =>
              Walked(start, Run(data, maxItems, limit, Machine(end, st, items + AllNodes(ts))),
                     items + AllNodes(ts), maxItems, if ts == [] then 0 else |st| + 1 + AllNest(ts), limit)
    decreases |data| - pos, 1, count
  {
    hide Run, ParseItem, Nodes, Nest;
    if count == 0 {
      RunPop(data, pos, st, items, maxItems, limit);
    } else {
      RunItem(data, pos, st, count, items, maxItems, limit);
      var first := ParseItem(data, pos);
      if first.OneItem? && items + Nodes(first.item) <= maxItems {
        RunMany(data, first.end, st, count - 1, items + Nodes(first.item), maxItems, limit);
      }
    }
  }

  lemma {:induction false} RunOpen(data: seq<byte>, pos: nat, st: seq<int>, items: nat, maxItems: int, limit: nat)
    requires pos <= |data| && items <= maxItems < TWO_TO_63 - 1 && |st| < limit
    ensures var start := Run(data, maxItems, limit, Machine(pos, st + [-1], items));
            match ParseOpen(data, pos)
            case NoItems => !start.Counted?
            case Items(ts, end) =>
              Walked(start, Run(data, maxItems, limit, Machine(end, st, items + AllNodes(ts))),
                     items + AllNodes(ts), maxItems, if ts == [] then 0 else |st| + 1 + AllNest(ts), limit)
    decreases |data| - pos, 1, 0
  {
    hide Run, ParseItem, Nodes, Nest;
    RunPop(data, pos, st, items, maxItems, limit);
    if pos < |data| && data[pos] != BREAK {
      RunItem(data, pos, st, -1, items, maxItems, limit);
      var first := ParseItem(data, pos);
      if first.OneItem? && items + Nodes(first.item) <= maxItems {
        RunOpen(data, first.end, st, items + Nodes(first.item), maxItems, limit);
      }
    }
  }

  /** Exact on every input: the walker accepts exactly the encodings of one item that fits the
      budget and the nesting limit, whatever follows it, with the number of its items. */
  lemma CountsTheTree(data: seq<byte>, maxItems: int, limit: nat)
    requires maxItems < TWO_TO_63 - 1 && limit >= 1
    ensures var r := Run(data, maxItems, limit, Machine(0, [1], 0));
            match ParseItem(data, 0)
            case NoItem => !r.Counted?
            case OneItem(t, _) =>
              && (Nodes(t) <= maxItems && 1 + Nest(t) <= limit ==> r == Counted(Nodes(t)))
              && (Nodes(t) > maxItems && 1 + Nest(t) <= limit ==> r == OverBudget)
              && (1 + Nest(t) > limit ==> !r.Counted?)
  {
    hide Run, ParseItem, Nodes, Nest;
    RunItem(data, 0, [], 1, 0, maxItems, limit);
    assert [] + [1] == [1] && [] + [Owe(1)] == [0];
    if ParseItem(data, 0).OneItem? {
      var t := ParseItem(data, 0);
      RunPop(data, t.end, [], Nodes(t.item), maxItems, limit);
      RunEmpty(data, t.end, Nodes(t.item), maxItems, limit);
      assert [] + [0] == [0];
    }
  }

  lemma RunEmpty(data: seq<byte>, pos: nat, items: nat, maxItems: int, limit: nat)
    requires pos <= |data|
    ensures Run(data, maxItems, limit, Machine(pos, [], items)) == Counted(items)
  {
  }

  /** For every well-formed item below the nesting limit, followed by anything: the exact count,
      or over budget. No declared length is rejected before the budget is really exceeded. */
  lemma CountsEncoded(t: Item, rest: seq<byte>, maxItems: int, limit: nat)
    requires WellFormed(t) && maxItems < TWO_TO_63 - 1 && 1 + Nest(t) <= limit
    ensures Run(Encode(t) + rest, maxItems, limit, Machine(0, [1], 0)) ==
            if Nodes(t) <= maxItems then Counted(Nodes(t)) else OverBudget
  {
    hide Run, ParseItem, Nodes, Nest, Encode, WellFormed;
    var data := Encode(t) + rest;
    assert data[0..0 + |Encode(t)|] == Encode(t);
    ParsesEncoded(t, data, 0);
    CountsTheTree(data, maxItems, limit);
  }

  lemma ShiftByte(bytes: seq<byte>)
    ensures BigEndian(bytes + [0]) == 256 * BigEndian(bytes)
  {
    assert (bytes + [0])[..|bytes|] == bytes;
  }

  lemma WideArgument()
    ensures BigEndian([0x80, 0, 0, 0, 0, 0, 0, 0]) == TWO_TO_63
  {
    var b: seq<byte> := [0x80];
    assert BigEndian(b) == 0x80 by { assert b[..0] == []; }
    ShiftByte(b);
    ShiftByte(b + [0]);
    ShiftByte(b + [0] + [0]);
    ShiftByte(b + [0] + [0] + [0]);
    ShiftByte(b + [0] + [0] + [0] + [0]);
    ShiftByte(b + [0] + [0] + [0] + [0] + [0]);
    ShiftByte(b + [0] + [0] + [0] + [0] + [0] + [0]);
    assert b + [0] + [0] + [0] + [0] + [0] + [0] + [0] == [0x80, 0, 0, 0, 0, 0, 0, 0];
  }

  const WIDE_MAP: seq<byte> := [0xbb, 0x80, 0, 0, 0, 0, 0, 0, 0]

  lemma WideMapHead()
    ensures ReadHead(WIDE_MAP, 0) == Got(Head(5, 27, TWO_TO_63, 9))
  {
    WideArgument();
    hide BigEndian;
    assert WIDE_MAP[1..9] == [0x80, 0, 0, 0, 0, 0, 0, 0];
  }

  lemma WideMapAccepted(limit: nat)
    ensures Run(WIDE_MAP, TWO_TO_63 - 1, limit, Machine(0, [1], 0)) == Counted(1)
  {
    hide ReadHead, Run;
    WideMapHead();
    RunHeader(WIDE_MAP, 0, [], 1, 0, TWO_TO_63 - 1, limit);
    assert MapChildren(TWO_TO_63, TWO_TO_63 - 1) == 0;
    RunPop(WIDE_MAP, 9, [], 1, TWO_TO_63 - 1, limit);
    RunEmpty(WIDE_MAP, 9, 1, TWO_TO_63 - 1, limit);
    assert [] + [1] == [1] && [] + [Owe(1)] == [] + [0] == [0];
  }

  /** The bound on the budget is needed: with the largest `int` the clamped doubling wraps to zero,
      and a bare header declaring 2^63 pairs is accepted as one item. */
  lemma LargestBudgetFails(limit: nat)
    ensures Run(WIDE_MAP, TWO_TO_63 - 1, limit, Machine(0, [1], 0)) == Counted(1)
    ensures ParseItem(WIDE_MAP, 0) == NoItem
  {
    WideMapAccepted(limit);
    hide ReadHead, Run, ParseMany;
    WideMapHead();
    assert ParseMany(WIDE_MAP, 9, 2 * TWO_TO_63).NoItems?;
  }
}
