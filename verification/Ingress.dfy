/** Ingress accounting: the connection-wide account and one queue per protocol role. */
module Ingress {
  import opened Numbers

  const MAX_INT: int := 0x7fff_ffff_ffff_ffff
  const DEFAULT_BUDGET: int := 64 * 1024 * 1024
  const DEFAULT_LIMIT: int := 16 * 1024 * 1024
  const MAX_EXTENSION: int := MAX_INT / 64

  /** Size of a segment object and of its pointer in a queue, on a 64-bit target. */
  const SEGMENT_OVERHEAD: nat := 48

  datatype Segment = Segment(payload: seq<bv8>, capacity: nat)

  function Cost(s: Segment): nat { s.capacity + SEGMENT_OVERHEAD }

  // ----- the account

  datatype Account = Account(budget: int, extended: int, limit: int, used: int, payload: int)

  const NEW_ACCOUNT := Account(DEFAULT_BUDGET, 0, DEFAULT_BUDGET, 0, 0)

  function LimitOf(budget: int, extended: int): int {
    if extended > MAX_INT - budget then MAX_INT else budget + extended
  }

  function Extended(a: Account, delta: int): Account {
    var e := Max(a.extended + delta, 0);
    a.(extended := e, limit := LimitOf(a.budget, e))
  }

  function WithBudget(a: Account, budget: int): Account {
    var b := if budget <= 0 then DEFAULT_BUDGET else budget;
    a.(budget := b, limit := LimitOf(b, a.extended))
  }

  predicate Fits(a: Account, cost: int, force: bool) { force || cost <= a.limit - a.used }

  function Claimed(a: Account, cost: int, bytes: int): Account {
    a.(used := a.used + cost, payload := a.payload + bytes)
  }

  function Returned(a: Account, cost: int, bytes: int): Account {
    a.(used := Max(a.used - cost, 0), payload := Max(a.payload - bytes, 0))
  }

  // ----- a channel

  datatype Channel = Channel(
    limit: int, extension: int, backpressure: bool, queue: seq<Segment>, pendingBytes: int, pendingCost: int,
    closed: bool)

  const NEW_CHANNEL := Channel(DEFAULT_LIMIT, 0, false, [], 0, 0, false)

  /** What one attempt to enqueue comes to. */
  datatype Admission = Admitted | ChannelClosed | Overflow | Wait

  /** Under backpressure an empty queue always admits. */
  predicate Forced(c: Channel) { c.backpressure && c.queue == [] }

  function Admit(a: Account, c: Channel, s: Segment): Admission {
    if c.closed then ChannelClosed
    else if (c.pendingBytes + |s.payload| <= c.limit || Forced(c)) && Fits(a, Cost(s), Forced(c)) then Admitted
    else if c.backpressure then Wait
    else Overflow
  }

  /** A segment is admitted exactly when the channel is open and the segment either fits both the
      channel's limit and what is left of the account, or comes first under backpressure. One that
      does not fit overflows without backpressure; under it, it waits, and then only behind others. */
  lemma AdmissionExact(a: Account, c: Channel, s: Segment)
    ensures var fits := c.pendingBytes + |s.payload| <= c.limit && a.used + s.capacity + 48 <= a.limit;
            && (Admit(a, c, s) == ChannelClosed <==> c.closed)
            && (Admit(a, c, s) == Admitted <==> !c.closed && (fits || (c.backpressure && c.queue == [])))
            && (Admit(a, c, s) == Overflow <==> !c.closed && !fits && !c.backpressure)
            && (Admit(a, c, s) == Wait <==> !c.closed && !fits && c.backpressure && c.queue != [])
  {
  }

  function Appended(c: Channel, s: Segment): Channel {
    c.(queue := c.queue + [s], pendingBytes := c.pendingBytes + |s.payload|, pendingCost := c.pendingCost + Cost(s))
  }

  function Taken(c: Channel): Channel
    requires c.queue != []
  {
    c.(queue := c.queue[1..], pendingBytes := c.pendingBytes - |c.queue[0].payload|,
       pendingCost := c.pendingCost - Cost(c.queue[0]))
  }

  function Share(extra: int): int { Min(Max(extra, 0), MAX_EXTENSION) }

  // ----- the objects

  class IngressAccount {
    var budget: int
    var extended: int
    var limit: int
    var used: int
    var payload: int

    constructor ()
      ensures State() == NEW_ACCOUNT
    {
      budget, extended, limit, used, payload := DEFAULT_BUDGET, 0, DEFAULT_BUDGET, 0, 0;
    }

    function State(): Account
      reads this
    {
      Account(budget, extended, limit, used, payload)
    }

    method UpdateLimit()
      modifies this`limit
      ensures limit == LimitOf(budget, extended)
    {
      var maxExtension := MAX_INT - budget;
      if extended > maxExtension { limit := MAX_INT; } else { limit := budget + extended; }
    }

    method Extend(delta: int)
      modifies this
      ensures State() == Extended(old(State()), delta)
    {
      extended := extended + delta;
      if extended < 0 { extended := 0; }
      UpdateLimit();
    }

    method SetBudget(newBudget: int)
      modifies this
      ensures State() == WithBudget(old(State()), newBudget)
    {
      budget := if newBudget <= 0 then DEFAULT_BUDGET else newBudget;
      UpdateLimit();
    }

    method Reserve(cost: int, bytes: int, force: bool) returns (reserved: bool)
      modifies this
      ensures reserved == Fits(old(State()), cost, force)
      ensures State() == if reserved then Claimed(old(State()), cost, bytes) else old(State())
    {
      if !force && cost > limit - used { return false; }
      used := used + cost;
      payload := payload + bytes;
      return true;
    }

    method Release(cost: int, bytes: int)
      modifies this
      ensures State() == Returned(old(State()), cost, bytes)
    {
      used := Max(used - cost, 0);
      payload := Max(payload - bytes, 0);
    }
  }

  class SegmentChannel {
    const account: IngressAccount
    var limit: int
    var extension: int
    var backpressure: bool
    var queue: seq<Segment>
    var pendingBytes: int
    var pendingCost: int
    var closed: bool

    constructor (account: IngressAccount)
      ensures this.account == account && State() == NEW_CHANNEL
    {
      this.account := account;
      limit, extension, backpressure, queue := DEFAULT_LIMIT, 0, false, [];
      pendingBytes, pendingCost, closed := 0, 0, false;
    }

    function State(): Channel
      reads this
    {
      Channel(limit, extension, backpressure, queue, pendingBytes, pendingCost, closed)
    }

    method SetBudgetExtension(extra: int)
      modifies this`extension, account
      ensures State() == old(State()).(extension := Share(extra))
      ensures extension == if extra < 0 then 0 else if extra > MAX_INT / 64 then MAX_INT / 64 else extra
      ensures account.State() ==
              if Share(extra) == old(extension) then old(account.State())
              else Extended(old(account.State()), Share(extra) - old(extension))
    {
      var share := Min(Max(extra, 0), MAX_EXTENSION);
      if share == extension { return; }
      account.Extend(share - extension);
      extension := share;
    }

    /** One turn of the enqueue loop: `Wait` asks to try again once there may be room. */
    method Enqueue(msg: Segment) returns (r: Admission)
      modifies this, account
      ensures r == Admit(old(account.State()), old(State()), msg)
      ensures State() == if r == Admitted then Appended(old(State()), msg) else old(State())
      ensures account.State() ==
              if r == Admitted then Claimed(old(account.State()), Cost(msg), |msg.payload|) else old(account.State())
    {
      if closed { return ChannelClosed; }
      var newPending := pendingBytes + |msg.payload|;
      var fitsQueue := newPending <= limit || (backpressure && |queue| == 0);
      if fitsQueue {
        var reserved := account.Reserve(Cost(msg), |msg.payload|, backpressure && |queue| == 0);
        if reserved {
          queue := queue + [msg];
          pendingBytes := newPending;
          pendingCost := pendingCost + Cost(msg);
          return Admitted;
        }
      }
      return if backpressure then Wait else Overflow;
    }

    /** The forwarder takes the oldest segment. */
    method Dequeue() returns (seg: Segment)
      requires queue != []
      modifies this, account
      ensures seg == old(queue)[0] && State() == Taken(old(State()))
      ensures account.State() == Returned(old(account.State()), Cost(seg), |seg.payload|)
    {
      seg := queue[0];
      pendingBytes := pendingBytes - |seg.payload|;
      pendingCost := pendingCost - Cost(seg);
      account.Release(Cost(seg), |seg.payload|);
      queue := queue[1..];
    }

    /** The forwarder returns: everything still queued is given up. */
    method Finish()
      modifies this, account
      ensures State() == old(State()).(queue := [], pendingBytes := 0, pendingCost := 0, extension := 0)
      ensures account.State() ==
              Extended(Returned(old(account.State()), old(pendingCost), old(pendingBytes)), -old(extension))
    {
      account.Release(pendingCost, pendingBytes);
      pendingBytes := 0;
      pendingCost := 0;
      account.Extend(-extension);
      extension := 0;
      queue := [];
    }
  }
}
