/** Secret keys: generation, signing, evolution and erasure, on a buffer that the recursive
    procedures read and overwrite in place. A child key is always the prefix of its parent's
    buffer, so the recursion shares one array. */
module KesKey {
  import opened KesTree
  import opened KesVerify
  import opened Numbers

  // ----- key generation

  method PublicKeyOfSeed(depth: nat, seed: Term) returns (pk: Term)
    ensures pk == PublicKey(depth, seed)
  {
    if depth == 0 { return Public(seed); }
    var left := PublicKeyOfSeed(depth - 1, Left(seed));
    var right := PublicKeyOfSeed(depth - 1, Right(seed));
    pk := Hash(left, right);
  }

  method KeyGenInternal(depth: nat, seed: Term, data: array<Term>) returns (pk: Term)
    requires KeyWords(depth) <= data.Length
    modifies data
    ensures data[..KeyWords(depth)] == KeyAt(depth, seed, 0)
    ensures forall i :: KeyWords(depth) <= i < data.Length ==> data[i] == old(data[i])
    ensures pk == PublicKey(depth, seed)
  {
    if depth == 0 {
      data[0] := seed;
      return Public(seed);
    }
    var leftSeed, rightSeed := Left(seed), Right(seed);
    var n := KeyWords(depth - 1);
    var leftPk := KeyGenInternal(depth - 1, leftSeed, data);
    var rightPk := PublicKeyOfSeed(depth - 1, rightSeed);
    ghost var child := data[..n];
    data[n], data[n + 1], data[n + 2] := rightSeed, leftPk, rightPk;
    assert data[..n + 3] == child + [rightSeed, leftPk, rightPk];
    pk := Hash(leftPk, rightPk);
  }

  // ----- evolution

  /** What `updateInternal` does to the first `KeyWords(depth)` words, whatever they are. */
  ghost function Updated(depth: nat, period: nat, data: seq<Term>): (r: seq<Term>)
    requires |data| == KeyWords(depth)
    ensures |r| == |data|
    decreases depth
  {
    if depth == 0 then [Zero]
    else
      var n, half := KeyWords(depth - 1), Pow2(depth - 1);
      if period == half - 1 then KeyAt(depth - 1, data[n], 0) + [Zero] + data[n + 1..]
      else Updated(depth - 1, if period < half - 1 then period else period - half, data[..n]) + data[n..]
  }

  lemma UpdatedUnfolds(depth: nat, period: nat, data: seq<Term>)
    requires |data| == KeyWords(depth)
    ensures depth == 0 ==> Updated(depth, period, data) == [Zero]
    ensures depth > 0 ==>
              var n, half := KeyWords(depth - 1), Pow2(depth - 1);
              Updated(depth, period, data) ==
              if period == half - 1 then KeyAt(depth - 1, data[n], 0) + [Zero] + data[n + 1..]
              else Updated(depth - 1, if period < half - 1 then period else period - half, data[..n]) + data[n..]
  {
    hide KeyAt;
  }

  method UpdateInternal(depth: nat, period: nat, data: array<Term>)
    requires KeyWords(depth) <= data.Length
    modifies data
    ensures data[..KeyWords(depth)] == Updated(depth, period, old(data[..KeyWords(depth)]))
    ensures forall i :: KeyWords(depth) <= i < data.Length ==> data[i] == old(data[i])
  {
    hide KeyAt, Pow2, Updated;
    UpdatedUnfolds(depth, period, data[..KeyWords(depth)]);
    if depth == 0 {
      data[0] := Zero;
      return;
    }
    var n, half := KeyWords(depth - 1), Pow2(depth - 1);
    ghost var was := data[..n + 3];
    assert was[..n] == data[..n];
    if period == half - 1 {
      TurnRight(depth, data);
    } else {
      UpdateInternal(depth - 1, if period < half - 1 then period else period - half, data);
      assert data[..n + 3] == data[..n] + was[n..];
    }
  }

  /** Regrows the child key from the stored right seed, then erases that seed. */
  method TurnRight(depth: nat, data: array<Term>)
    requires 0 < depth && KeyWords(depth) <= data.Length
    modifies data
    ensures data[..KeyWords(depth)] == Updated(depth, Pow2(depth - 1) - 1, old(data[..KeyWords(depth)]))
    ensures forall i :: KeyWords(depth) <= i < data.Length ==> data[i] == old(data[i])
  {
    hide KeyAt, Pow2, Updated;
    UpdatedUnfolds(depth, Pow2(depth - 1) - 1, data[..KeyWords(depth)]);
    var n := KeyWords(depth - 1);
    ghost var was := data[..n + 3];
    var _ := KeyGenInternal(depth - 1, data[n], data);
    ghost var child := data[..n];
    data[n] := Zero;
    assert data[..n + 3] == child + [Zero] + was[n + 1..];
  }

  /** The words of a key by part: active child, seed slot, child public keys. */
  lemma KeyParts(depth: nat, seed: Term, t: nat)
    requires 0 < depth && t < Pow2(depth)
    ensures var n, half, key := KeyWords(depth - 1), Pow2(depth - 1), KeyAt(depth, seed, t);
            && key[..n] == (if t < half then KeyAt(depth - 1, Left(seed), t)
                            else KeyAt(depth - 1, Right(seed), t - half))
            && key[n..] == [if t < half then Right(seed) else Zero,
                            PublicKey(depth - 1, Left(seed)), PublicKey(depth - 1, Right(seed))]
  {
  }

  lemma ZeroDepth()
    ensures Pow2(0) == 1
  {
  }

  /** The representation steps: evolving the key of period `t` gives the key of period `t + 1`. */
  lemma {:induction false} UpdateAdvancesKey(depth: nat, seed: Term, t: nat)
    requires t + 1 < Pow2(depth)
    ensures Updated(depth, t, KeyAt(depth, seed, t)) == KeyAt(depth, seed, t + 1)
  {
    hide PublicKey, KeyAt, Pow2;
    assert depth > 0 by { ZeroDepth(); }
    Pow2Halves(depth);
    var half := Pow2(depth - 1);
    KeyParts(depth, seed, t);
    KeyParts(depth, seed, t + 1);
    if t < half - 1 { UpdateAdvancesKey(depth - 1, Left(seed), t); }
    else if t >= half { UpdateAdvancesKey(depth - 1, Right(seed), t - half); }
  }

  /** Whether `updateInternal` reaches the branch that wipes the Ed25519 seed. */
  predicate WipesLeaf(depth: nat, period: nat)
    decreases depth
  {
    depth == 0 ||
    var half := Pow2(depth - 1);
    if period < half - 1 then WipesLeaf(depth - 1, period)
    else period != half - 1 && WipesLeaf(depth - 1, period - half)
  }

  /** It is reached from the last period and from every period past it. */
  lemma {:induction false} WipesLeafExactly(depth: nat, period: nat)
    ensures WipesLeaf(depth, period) <==> period >= Pow2(depth) - 1
    decreases depth
  {
    if depth > 0 {
      var half := Pow2(depth - 1);
      if period < half - 1 { WipesLeafExactly(depth - 1, period); }
      else if period != half - 1 { WipesLeafExactly(depth - 1, period - half); }
    }
  }

  /** `uint64` addition of one. */
  function NextPeriod(period: nat): nat {
    if period + 1 == Pow2(64) then 0 else period + 1
  }

  /** Where a next period exists the wipe branch is reached from one period only: the largest
      `uint64`, whose successor wraps to zero. */
  lemma WipesLeafOnlyOnWrap(depth: nat, period: nat)
    requires depth <= MAX_DEPTH && period < Pow2(64) && NextPeriod(period) < Pow2(depth)
    ensures WipesLeaf(depth, period) <==> period == Pow2(64) - 1
  {
    WipesLeafExactly(depth, period);
    Pow2Monotone(depth, 64);
  }

  /** What that branch leaves: a zero seed, with which the key then signs. */
  lemma {:induction false} WipedKey(depth: nat, period: nat, data: seq<Term>, msg: Bytes)
    requires |data| == KeyWords(depth) && WipesLeaf(depth, period)
    ensures var wiped := Updated(depth, period, data);
            && wiped[0] == Zero
            && Signed(depth, wiped, msg)[0] == SigR(Zero, msg) && Signed(depth, wiped, msg)[1] == SigS(Zero, msg)
    decreases depth
  {
    if depth > 0 {
      var n, half := KeyWords(depth - 1), Pow2(depth - 1);
      var inner := if period < half - 1 then period else period - half;
      WipedKey(depth - 1, inner, data[..n], msg);
      assert Updated(depth, period, data)[..n] == Updated(depth - 1, inner, data[..n]);
    }
  }

  // ----- signing

  /** The signature words `signInternal` assembles from a buffer. */
  function Signed(depth: nat, data: seq<Term>, msg: Bytes): (r: seq<Term>)
    requires |data| == KeyWords(depth)
    ensures |r| == SigWords(depth)
    decreases depth
  {
    if depth == 0 then [SigR(data[0], msg), SigS(data[0], msg)]
    else
      var n := KeyWords(depth - 1);
      Signed(depth - 1, data[..n], msg) + [data[n + 1], data[n + 2]]
  }

  lemma SignedUnfolds(depth: nat, data: seq<Term>, msg: Bytes)
    requires |data| == KeyWords(depth)
    ensures Signed(depth, data, msg) ==
            if depth == 0 then [SigR(data[0], msg), SigS(data[0], msg)]
            else Signed(depth - 1, data[..KeyWords(depth - 1)], msg)
                 + [data[KeyWords(depth - 1) + 1], data[KeyWords(depth - 1) + 2]]
  {
  }

  method SignInternal(depth: nat, period: nat, data: array<Term>, msg: Bytes, sig: array<Term>)
    requires data != sig && KeyWords(depth) <= data.Length && SigWords(depth) <= sig.Length
    modifies sig
    ensures sig[..SigWords(depth)] == Signed(depth, data[..KeyWords(depth)], msg)
    ensures forall i :: SigWords(depth) <= i < sig.Length ==> sig[i] == old(sig[i])
    decreases depth
  {
    hide Signed, Pow2;
    SignedUnfolds(depth, data[..KeyWords(depth)], msg);
    if depth == 0 {
      sig[0], sig[1] := SigR(data[0], msg), SigS(data[0], msg);
      return;
    }
    var n, m, half := KeyWords(depth - 1), SigWords(depth - 1), Pow2(depth - 1);
    sig[m], sig[m + 1] := data[n + 1], data[n + 2];
    assert data[..KeyWords(depth)][..n] == data[..n];
    SignInternal(depth - 1, if period < half then period else period - half, data, msg, sig);
    assert sig[..m + 2] == sig[..m] + [data[n + 1], data[n + 2]];
  }

  /** The parsed form of what the key of period `t` signs. */
  function HonestSig(c: Crypto, depth: nat, seed: Term, t: nat, msg: Bytes): Sig
    requires t < Pow2(depth)
  {
    if depth == 0 then Sum0(c.Eval(SigR(seed, msg)) + c.Eval(SigS(seed, msg)))
    else
      var half := Pow2(depth - 1);
      SumX(depth,
           if t < half then HonestSig(c, depth - 1, Left(seed), t, msg)
           else HonestSig(c, depth - 1, Right(seed), t - half, msg),
           c.Eval(PublicKey(depth - 1, Left(seed))), c.Eval(PublicKey(depth - 1, Right(seed))))
  }

  lemma EvalTwoMore(c: Crypto, words: seq<Term>, a: Term, b: Term)
    ensures c.EvalAll(words + [a, b]) == c.EvalAll(words) + c.Eval(a) + c.Eval(b)
  {
    assert (words + [a, b])[..|words| + 1] == words + [a];
    assert (words + [a])[..|words|] == words;
  }

  /** A key signs with its active child and appends its own two public keys. */
  lemma SignedStep(depth: nat, seed: Term, t: nat, msg: Bytes)
    requires 0 < depth && t < Pow2(depth)
    ensures Signed(depth, KeyAt(depth, seed, t), msg) ==
            (if t < Pow2(depth - 1) then Signed(depth - 1, KeyAt(depth - 1, Left(seed), t), msg)
             else Signed(depth - 1, KeyAt(depth - 1, Right(seed), t - Pow2(depth - 1)), msg))
            + [PublicKey(depth - 1, Left(seed)), PublicKey(depth - 1, Right(seed))]
  {
    KeyParts(depth, seed, t);
    hide KeyAt, PublicKey;
    var n, key := KeyWords(depth - 1), KeyAt(depth, seed, t);
    assert key[n + 1] == key[n..][1] && key[n + 2] == key[n..][2];
  }

  lemma LeafSigned(c: Crypto, seed: Term, msg: Bytes)
    ensures c.EvalAll(Signed(0, KeyAt(0, seed, 0), msg)) == c.Eval(SigR(seed, msg)) + c.Eval(SigS(seed, msg))
  {
    EvalTwoMore(c, [], SigR(seed, msg), SigS(seed, msg));
  }

  lemma {:induction false} SignedIsHonest(c: Crypto, depth: nat, seed: Term, t: nat, msg: Bytes)
    requires t < Pow2(depth)
    ensures WellFormed(depth, HonestSig(c, depth, seed, t, msg))
    ensures c.EvalAll(Signed(depth, KeyAt(depth, seed, t), msg)) == Serialize(HonestSig(c, depth, seed, t, msg))
  {
    hide KeyAt, PublicKey, Signed, Crypto.Eval, Crypto.EvalAll;
    if depth == 0 {
      LeafSigned(c, seed, msg);
    } else {
      SignedStep(depth, seed, t, msg);
      var half := Pow2(depth - 1);
      var child, k := if t < half then Left(seed) else Right(seed), if t < half then t else t - half;
      EvalTwoMore(c, Signed(depth - 1, KeyAt(depth - 1, child, k), msg),
                  PublicKey(depth - 1, Left(seed)), PublicKey(depth - 1, Right(seed)));
      SignedIsHonest(c, depth - 1, child, k, msg);
    }
  }

  lemma {:induction false} HonestSigVerifies(c: Crypto, depth: nat, seed: Term, t: nat, msg: Bytes)
    requires c.Valid() && depth <= MAX_DEPTH && t < Pow2(depth)
    ensures Verify(c, HonestSig(c, depth, seed, t, msg), t, c.Eval(PublicKey(depth, seed)), msg)
  {
    if depth > 0 {
      var half := Pow2(depth - 1);
      VerifyStep(c, HonestSig(c, depth, seed, t, msg), depth, t, c.Eval(PublicKey(depth, seed)), msg);
      if t < half { HonestSigVerifies(c, depth - 1, Left(seed), t, msg); }
      else { HonestSigVerifies(c, depth - 1, Right(seed), t - half, msg); }
    }
  }

  /** What `publicKeyInternal` reads back from a buffer. */
  function PublicKeyOfBuffer(depth: nat, data: seq<Term>): Term
    requires |data| == KeyWords(depth)
  {
    if depth == 0 then Public(data[0])
    else Hash(data[KeyWords(depth - 1) + 1], data[KeyWords(depth - 1) + 2])
  }

  /** Whole life: at every period the evolved buffer still yields the original public key, and
      what it signs is parsed and accepted at that period under that key. */
  lemma WholeLife(c: Crypto, depth: nat, seed: Term, t: nat, msg: Bytes)
    requires c.Valid() && 1 <= depth <= MAX_DEPTH && t < Pow2(depth)
    ensures PublicKeyOfBuffer(depth, KeyAt(depth, seed, t)) == PublicKey(depth, seed)
    ensures var parsed := Parse(depth, c.EvalAll(Signed(depth, KeyAt(depth, seed, t), msg)));
            parsed.Parsed? && Verify(c, parsed.sig, t, c.Eval(PublicKey(depth, seed)), msg)
  {
    SignedIsHonest(c, depth, seed, t, msg);
    SerializeInvertsParse(depth, HonestSig(c, depth, seed, t, msg));
    HonestSigVerifies(c, depth, seed, t, msg);
  }

  // ----- the key object

  datatype Error = NilKey | ErasedKey | BadSeed | BadDepth | BadSize | BadPeriod | Exhausted

  datatype Result<+T> = Ok(value: T) | Failed(error: Error)

  class SecretKey {
    var depth: nat
    var period: nat
    var data: array?<Term>
    var publicKey: Term

    constructor (depth: nat, period: nat, data: array<Term>, publicKey: Term)
      ensures this.depth == depth && this.period == period && this.data == data && this.publicKey == publicKey
    {
      this.depth, this.period, this.data, this.publicKey := depth, period, data, publicKey;
    }

    /** The depth and length checks of `validateSecretKeyStructure`. */
    predicate Structured()
      reads this
    {
      data != null && depth <= MAX_DEPTH && data.Length == KeyWords(depth)
    }

    /** The key was grown from `seed` and stands at its own period. */
    ghost predicate GrownFrom(seed: Term)
      reads this, data
    {
      && Structured() && period < Pow2(depth)
      && data[..] == KeyAt(depth, seed, period)
      && publicKey == PublicKey(depth, seed)
    }

    /** Erases the secret words and makes the key unusable; the public key stays. */
    method Zeroize()
      modifies this, data
      ensures data == null && period == 0 && depth == old(depth) && publicKey == old(publicKey)
      ensures old(data) != null ==> forall i :: 0 <= i < old(data).Length ==> old(data)[i] == Zero
    {
      if data != null {
        var d := data;
        forall i | 0 <= i < d.Length { d[i] := Zero; }
      }
      data, period := null, 0;
    }
  }

  method KeyGen(depth: nat, seed: Bytes) returns (r: Result<SecretKey>)
    ensures r.Ok? <==> |seed| == 32 && depth <= MAX_KEY_GEN_DEPTH
    ensures r.Ok? ==> fresh(r.value) && fresh(r.value.data)
    ensures r.Ok? ==> r.value.depth == depth && r.value.period == 0 && r.value.GrownFrom(Given(seed))
  {
    if |seed| != 32 { return Failed(BadSeed); }
    if depth > MAX_KEY_GEN_DEPTH { return Failed(BadDepth); }
    var data := new Term[KeyWords(depth)](_ => Zero);
    var pk := KeyGenInternal(depth, Given(seed), data);
    var sk := new SecretKey(depth, 0, data, pk);
    r := Ok(sk);
  }

  /** Signing succeeds exactly for a usable key at its own period, and the words depend only
      on the buffer; nothing is changed. */
  method Sign(sk: SecretKey?, period: nat, msg: Bytes) returns (r: Result<seq<Term>>)
    ensures r.Ok? <==> sk != null && sk.Structured() && period < Pow2(sk.depth) && period == sk.period
    ensures r.Ok? ==> r.value == Signed(sk.depth, sk.data[..], msg)
    ensures sk != null && sk.data == null ==> r == Failed(ErasedKey)
  {
    if sk == null { return Failed(NilKey); }
    if sk.data == null { return Failed(ErasedKey); }
    if sk.depth > MAX_DEPTH { return Failed(BadDepth); }
    if sk.data.Length != KeyWords(sk.depth) { return Failed(BadSize); }
    if period >= Pow2(sk.depth) || period != sk.period { return Failed(BadPeriod); }
    var sig := new Term[SigWords(sk.depth)](_ => Zero);
    SignInternal(sk.depth, period, sk.data, msg, sig);
    assert sk.data[..KeyWords(sk.depth)] == sk.data[..];
    assert sig[..] == Signed(sk.depth, sk.data[..], msg);
    r := Ok(sig[..]);
  }

  /** Evolution consumes its argument: on success the old object is erased and its buffer zeroed,
      and the new key holds the updated words one period later; on failure nothing changes. */
  method Update(sk: SecretKey?) returns (r: Result<SecretKey>)
    requires sk != null ==> sk.period < Pow2(64)
    modifies sk, if sk != null then sk.data else null
    ensures r.Ok? <==> sk != null && old(sk.Structured()) && NextPeriod(old(sk.period)) < Pow2(old(sk.depth))
    ensures r.Failed? && sk != null ==> unchanged(sk) && (sk.data != null ==> unchanged(sk.data))
    ensures r.Ok? ==> fresh(r.value) && fresh(r.value.data)
    ensures r.Ok? ==> sk.data == null && forall i :: 0 <= i < old(sk.data).Length ==> old(sk.data)[i] == Zero
    ensures r.Ok? ==> r.value.Structured() && r.value.depth == old(sk.depth) && r.value.publicKey == old(sk.publicKey)
    ensures r.Ok? ==> r.value.period == NextPeriod(old(sk.period))
    ensures r.Ok? ==> r.value.data[..] == Updated(old(sk.depth), old(sk.period), old(sk.data[..]))
    ensures r.Ok? ==> (WipesLeaf(old(sk.depth), old(sk.period)) <==> old(sk.period) == Pow2(64) - 1)
  {
    if sk == null { return Failed(NilKey); }
    if sk.data == null { return Failed(ErasedKey); }
    if sk.depth > MAX_DEPTH { return Failed(BadDepth); }
    if sk.data.Length != KeyWords(sk.depth) { return Failed(BadSize); }
    var newPeriod := NextPeriod(sk.period);
    if newPeriod >= Pow2(sk.depth) { return Failed(Exhausted); }
    WipesLeafOnlyOnWrap(sk.depth, sk.period);
    var newData := Evolve(sk.depth, sk.period, sk.data);
    var evolved := new SecretKey(sk.depth, newPeriod, newData, sk.publicKey);
    sk.Zeroize();
    r := Ok(evolved);
  }

  /** The evolved copy of a whole buffer. */
  method Evolve(depth: nat, period: nat, data: array<Term>) returns (newData: array<Term>)
    requires data.Length == KeyWords(depth)
    ensures fresh(newData) && newData[..] == Updated(depth, period, data[..])
  {
    newData := new Term[data.Length](i requires 0 <= i < data.Length reads data => data[i]);
    assert newData[..KeyWords(depth)] == data[..];
    UpdateInternal(depth, period, newData);
    assert newData[..KeyWords(depth)] == newData[..];
  }

  /** The period is a public field. At the largest `uint64` evolution succeeds, wraps to period zero
      and wipes the leaf, and the key it returns signs with a zero seed. */
  method WrappedPeriod(depth: nat, seed: Word, msg: Bytes) returns (sk: SecretKey, sig: seq<Term>)
    requires depth <= MAX_KEY_GEN_DEPTH
    ensures sk.period == 0 && sk.depth == depth && sk.data != null && sk.data.Length > 0 && sk.data[0] == Zero
    ensures |sig| == SigWords(depth) && sig[0] == SigR(Zero, msg) && sig[1] == SigS(Zero, msg)
  {
    var key := KeyGen(depth, seed);
    sk := key.value;
    sk.period := Pow2(64) - 1;
    ghost var data := sk.data[..];
    hide Updated, Signed, KeyAt, WipesLeaf;
    key := Update(sk);
    sk := key.value;
    WipedKey(depth, Pow2(64) - 1, data, msg);
    assert sk.data[0] == sk.data[..][0];
    var signature := Sign(sk, 0, msg);
    sig := signature.value;
  }

  /** A whole life run through the objects: key generation, `t` evolutions, and a signature
      whose bytes are parsed and accepted at period `t` under the first public key. */
  method LiveAndSign(ghost c: Crypto, depth: nat, seed: Word, t: nat, msg: Bytes) returns (pk: Term, sig: seq<Term>)
    requires c.Valid() && 1 <= depth <= MAX_KEY_GEN_DEPTH && t < Pow2(depth)
    ensures pk == PublicKey(depth, Given(seed))
    ensures Parse(depth, c.EvalAll(sig)).Parsed?
    ensures Verify(c, Parse(depth, c.EvalAll(sig)).sig, t, c.Eval(pk), msg)
  {
    var key := KeyGen(depth, seed);
    var sk := key.value;
    pk := sk.publicKey;
    Pow2Monotone(depth + 1, 64);
    hide KeyAt, Updated, PublicKey, Signed, Verify, Parse, Crypto.EvalAll;
    for i := 0 to t
      invariant fresh(sk) && fresh(sk.data)
      invariant sk.GrownFrom(Given(seed)) && sk.period == i && sk.depth == depth
    {
      UpdateAdvancesKey(depth, Given(seed), i);
      key := Update(sk);
      sk := key.value;
    }
    var signature := Sign(sk, t, msg);
    sig := signature.value;
    WholeLife(c, depth, Given(seed), t, msg);
  }
}
