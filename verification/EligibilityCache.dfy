/** The least-recently-used memo of prepared states, and preparation through it. */
module EligibilityCache {
  import opened Common
  import opened Eligibility
  import opened Numbers

  // ----- the cache object

  class Entry {
    const key: Key
    var state: State

    constructor (key: Key, state: State)
      ensures this.key == key && this.state == state
    {
      this.key, this.state := key, state;
    }
  }

  function KeysOf(list: seq<Entry>): seq<Key> {
    seq(|list|, i requires 0 <= i < |list| => list[i].key)
  }

  lemma KeysWithout(list: seq<Entry>, e: Entry)
    requires e in list && Distinct(list) && Distinct(KeysOf(list))
    ensures KeysOf([e] + Without(list, e)) == [e.key] + Without(KeysOf(list), e.key)
  {
    hide Without;
    var i :| 0 <= i < |list| && list[i] == e;
    WithoutAt(list, i);
    WithoutAt(KeysOf(list), i);
    assert KeysOf(list)[i] == e.key;
  }

  /** The keys in use order after one more lookup of `k`: a hit moves it to the front, a miss
      inserts it there and drops the last key when the bound is passed. */
  function Lookup(before: seq<Key>, k: Key, maxSize: int): seq<Key> {
    if k in before then [k] + Without(before, k)
    else if |before| + 1 > maxSize then ([k] + before)[..|before|]
    else [k] + before
  }

  class Cache {
    var entries: map<Key, Entry>
    var order: seq<Entry>
    const maxSize: int

    constructor (maxSize: int)
      ensures this.maxSize == maxSize && Valid() && order == []
    {
      this.maxSize, entries, order := maxSize, map[], [];
    }

    /** The map and the list hold the same entries, one for each key. */
    ghost predicate Linked()
      reads this
    {
      && Distinct(order)
      && (forall e :: e in order ==> e.key in entries && entries[e.key] == e)
      && (forall k :: k in entries ==> entries[k] in order && entries[k].key == k)
    }

    ghost predicate Valid()
      reads this
    {
      Linked() && (order == [] || |order| <= maxSize)
    }

    /** Every memoized state is what preparing its key gives. */
    ghost predicate Transparent()
      reads this, order
    {
      forall e :: e in order ==> e.key.Valid() && Prepare(e.key) == Ready(e.state)
    }

    method Get(key: Key) returns (r: Option<State>)
      requires Valid()
      modifies this
      ensures Valid() && entries == old(entries) && (forall e :: e in order <==> e in old(order))
      ensures key in KeysOf(old(order)) ==>
                && r == Some(entries[key].state) && entries[key] in old(order) && entries[key].key == key
                && KeysOf(order) == Lookup(KeysOf(old(order)), key, maxSize)
      ensures key !in KeysOf(old(order)) ==> r == None && order == old(order)
      ensures old(Transparent()) ==> Transparent() && (r.Some? ==> key.Valid() && Prepare(key) == Ready(r.value))
    {
      KeysPresent(key);
      if key !in entries { return None; }
      var e := entries[key];
      MoveToFront(e);
      r := Some(e.state);
    }

    method MoveToFront(e: Entry)
      requires Linked() && e in order
      modifies this`order
      ensures Linked() && |order| == |old(order)| && (forall x :: x in order <==> x in old(order))
      ensures KeysOf(order) == [e.key] + Without(KeysOf(old(order)), e.key)
    {
      hide Without;
      WithoutMembers(order, e);
      KeysWithout(order, e);
      order := [e] + Without(order, e);
    }

    lemma KeysPresent(key: Key)
      requires Linked()
      ensures key in KeysOf(order) <==> key in entries
      ensures Distinct(KeysOf(order))
    {
      if key in entries {
        var i :| 0 <= i < |order| && order[i] == entries[key];
        assert KeysOf(order)[i] == key;
      }
    }

    method RemoveOldest()
      requires Linked() && order != []
      modifies this
      ensures Linked() && order == old(order)[..|old(order)| - 1]
      ensures KeysOf(order) == KeysOf(old(order))[..|old(order)| - 1]
    {
      var oldest := order[|order| - 1];
      order := order[..|order| - 1];
      entries := entries - {oldest.key};
      assert old(order) == order + [oldest];
      assert forall e :: e in order ==> e in old(order) && e != oldest;
    }

    /** A present key is refreshed in place and moved to the front; a new one is pushed to the
        front and, past the bound, the least recently used entry is dropped. */
    method Put(key: Key, state: State)
      requires Valid()
      modifies this, order
      ensures Valid()
      ensures KeysOf(order) == Lookup(KeysOf(old(order)), key, maxSize)
      ensures forall e :: e in order ==>
                if e.key == key then e.state == state && (e in old(order) || fresh(e))
                else e in old(order) && e.state == old(e.state)
      ensures old(Transparent()) && key.Valid() && Prepare(key) == Ready(state) ==> Transparent()
    {
      hide Prepare;
      KeysPresent(key);
      if key in entries {
        var e := entries[key];
        MoveToFront(e);
        e.state := state;
      } else {
        Push(key, state);
      }
    }

    /** A new entry at the front. */
    method Push(key: Key, state: State)
      requires Valid() && key !in entries
      modifies this
      ensures Valid() && KeysOf(order) == Take([key] + KeysOf(old(order)), Max(maxSize, 0))
      ensures forall e :: e in order ==> if e.key == key then fresh(e) && e.state == state else e in old(order)
    {
      var e := new Entry(key, state);
      ghost var was := KeysOf(order);
      order, entries := [e] + order, entries[key := e];
      assert KeysOf(order) == [key] + was;
      if |order| > maxSize { RemoveOldest(); }
    }
  }

  datatype Outcome = Evaluators(state: State) | UnknownMode | BadCoefficient | ZeroTotal | NotPrepared

  function Clamp(poolStake: nat, totalStake: nat): nat {
    if poolStake > totalStake then totalStake else poolStake
  }

  /** Preparation through the memo: a hit, or a preparation that is then remembered. */
  method Recall(cache: Cache, key: Key) returns (r: Prepared)
    requires cache.Valid() && cache.Transparent() && key.Valid()
    modifies cache, cache.order
    ensures cache.Valid() && cache.Transparent() && r == Prepare(key)
    ensures r.Ready? ==> KeysOf(cache.order) == Lookup(KeysOf(old(cache.order)), key, cache.maxSize)
    ensures !r.Ready? ==> cache.order == old(cache.order) && cache.entries == old(cache.entries)
    ensures !r.Ready? ==> forall e :: e in cache.order ==> e.state == old(e.state)
  {
    hide Prepare, Without, Lookup, KeysOf, Cache.Valid, Key.Valid, Distinct;
    var memo := cache.Get(key);
    if memo.Some? { return Ready(memo.value); }
    r := PrepareLeaderEligibility(key);
    if r.Ready? { cache.Put(key, r.state); }
  }

  /** What the arguments come to before the memo is asked: an error, or the key to prepare. */
  datatype Request = Refuse(error: Outcome) | Ask(key: Key)

  function Requested(poolStake: nat, totalStake: nat, f: Coefficient, mode: Mode): Request {
    if mode == Unknown then Refuse(UnknownMode)
    else if !(f.Ratio? && InPositiveUnitInterval(f.numerator, f.denominator)) then Refuse(BadCoefficient)
    else if totalStake == 0 then Refuse(ZeroTotal)
    else Ask(Key(Clamp(poolStake, totalStake), totalStake, f.numerator, f.denominator, mode))
  }

  function Answer(prepared: Prepared): Outcome {
    match prepared
    case Ready(state) => Evaluators(state)
    case PreparationFailed => NotPrepared
  }

  /** Whatever the memo already holds, the answer is that of preparing the clamped key directly,
      and the memo stays valid and transparent; an error leaves it as it was. */
  method NewLeaderEligibility(cache: Cache, poolStake: nat, totalStake: nat, f: Coefficient, mode: Mode)
    returns (r: Outcome)
    requires cache.Valid() && cache.Transparent() && (f.Ratio? ==> f.denominator > 0)
    modifies cache, cache.order
    ensures cache.Valid() && cache.Transparent()
    ensures r == UnknownMode <==> mode == Unknown
    ensures r == BadCoefficient <==>
              mode != Unknown && !(f.Ratio? && InPositiveUnitInterval(f.numerator, f.denominator))
    ensures r == ZeroTotal <==>
              mode != Unknown && f.Ratio? && InPositiveUnitInterval(f.numerator, f.denominator) && totalStake == 0
    ensures match Requested(poolStake, totalStake, f, mode)
            case Refuse(error) => r == error
            case Ask(key) =>
              && key.Valid() && key == Key(Min(poolStake, totalStake), totalStake, f.numerator, f.denominator, mode)
              && r == Answer(Prepare(key))
              && (r.Evaluators? ==> KeysOf(cache.order) == Lookup(KeysOf(old(cache.order)), key, cache.maxSize))
    ensures !r.Evaluators? ==> cache.order == old(cache.order) && cache.entries == old(cache.entries)
    ensures !r.Evaluators? ==> forall e :: e in cache.order ==> e.state == old(e.state)
  {
    hide Prepare, Without, Lookup, KeysOf;
    if mode == Unknown { return UnknownMode; }
    var ok := ValidateActiveSlotCoefficient(f);
    if !ok { return BadCoefficient; }
    if totalStake == 0 { return ZeroTotal; }
    var key := Key(Clamp(poolStake, totalStake), totalStake, f.numerator, f.denominator, mode);
    var prepared := Recall(cache, key);
    r := Answer(prepared);
  }

  // ----- recency

  /** The keys a bounded cache holds, most recent first, after looking up `history` in order. */
  function Held(history: seq<Key>, maxSize: nat): seq<Key> {
    if history == [] then [] else Lookup(Held(history[..|history| - 1], maxSize), history[|history| - 1], maxSize)
  }

  /** The distinct keys of a history by last use, most recent first. */
  function Recency(history: seq<Key>): seq<Key> {
    if history == [] then []
    else
      var k := history[|history| - 1];
      [k] + Without(Recency(history[..|history| - 1]), k)
  }

  lemma {:induction false} RecencyDistinct(history: seq<Key>)
    ensures Distinct(Recency(history))
    ensures forall k :: k in Recency(history) <==> k in history
  {
    hide Without;
    if history != [] {
      var k, prefix := history[|history| - 1], history[..|history| - 1];
      RecencyDistinct(prefix);
      var full := Recency(prefix);
      assert history == prefix + [k];
      WithoutMembers(full, k);
    }
  }

  lemma WithoutTake<T>(s: seq<T>, x: T, n: nat)
    requires Distinct(s) && n >= 1
    ensures x in Take(s, n) ==> Without(Take(s, n), x) == Take(Without(s, x), n - 1)
    ensures x !in Take(s, n) ==> Take(s, n - 1) == Take(Without(s, x), n - 1)
  {
    hide Without;
    if x in s {
      var i :| 0 <= i < |s| && s[i] == x;
      WithoutAt(s, i);
      if i < n {
        assert Take(s, n)[i] == x;
        WithoutAt(Take(s, n), i);
      }
    } else {
      WithoutAbsent(s, x);
    }
  }

  /** The bounded cache holds exactly the most recently used keys: whatever is evicted is older
      than everything kept. */
  lemma {:induction false} HoldsMostRecent(history: seq<Key>, maxSize: nat)
    requires maxSize >= 1
    ensures Held(history, maxSize) == Take(Recency(history), maxSize)
    decreases |history|
  {
    hide Without;
    if history != [] {
      var k, prefix := history[|history| - 1], history[..|history| - 1];
      HoldsMostRecent(prefix, maxSize);
      RecencyDistinct(prefix);
      var full := Recency(prefix);
      WithoutTake(full, k, maxSize);
      assert Take([k] + Without(full, k), maxSize) == [k] + Take(Without(full, k), maxSize - 1);
      if k !in Take(full, maxSize) && |full| >= maxSize {
        assert ([k] + Take(full, maxSize))[..maxSize] == [k] + Take(full, maxSize - 1);
      }
    }
  }
}
