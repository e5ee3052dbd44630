/** Parsing and verifying key-evolving signatures. */
module KesVerify {
  import opened KesTree
  import opened Numbers

  /** A signature value: what Go keeps in the `Sigma any` field. */
  datatype Sig =
    | Missing
    | Sum0(sigma: Bytes)
    | SumX(depth: nat, child: Sig, left: Bytes, right: Bytes)

  datatype ParseResult = Parsed(sig: Sig) | Malformed

  /** `uint64(1) << n`. */
  function Shift64(n: int): nat {
    if 0 <= n < 64 then Pow2(n) else 0
  }

  /** Bytes in a signature. */
  function SignatureSize(depth: nat): nat {
    64 + 64 * depth
  }

  function Parse(depth: nat, bytes: Bytes): (r: ParseResult)
    decreases depth
  {
    if depth == 0 || depth > MAX_DEPTH then Malformed
    else if |bytes| != SignatureSize(depth) then Malformed
    else
      var next := SignatureSize(depth - 1);
      var child := if depth == 1 then Parsed(Sum0(bytes[..64])) else Parse(depth - 1, bytes[..next]);
      if child.Malformed? then Malformed
      else Parsed(SumX(depth, child.sig, bytes[next..next + 32], bytes[next + 32..next + 64]))
  }

  /** A stored depth of zero makes Go's `s.Depth - 1` wrap, so the half-width is zero. */
  predicate Verify(c: Crypto, s: Sig, period: nat, pubKey: Bytes, msg: Bytes)
    decreases s
  {
    match s
    case Missing => false
    case Sum0(sigma) => period == 0 && c.edVerify(pubKey, msg, sigma)
    case SumX(depth, child, left, right) =>
      && period < Shift64(depth)
      && c.hashPair(left, right) == pubKey
      && var half := Shift64(depth - 1);
         if period >= half then Verify(c, child, period - half, right, msg)
         else Verify(c, child, period, left, msg)
  }

  /** The inverse of `Parse`. */
  function Serialize(s: Sig): Bytes {
    match s
    case Missing => []
    case Sum0(sigma) => sigma
    case SumX(_, child, left, right) => Serialize(child) + left + right
  }

  predicate WellFormed(depth: nat, s: Sig)
    decreases s
  {
    match s
    case Missing => false
    case Sum0(sigma) => depth == 0 && |sigma| == 64
    case SumX(d, child, left, right) =>
      depth > 0 && d == depth && |left| == 32 && |right| == 32 && WellFormed(depth - 1, child)
  }

  lemma {:induction false} SerializedSize(depth: nat, s: Sig)
    requires WellFormed(depth, s)
    ensures |Serialize(s)| == SignatureSize(depth)
    decreases s
  {
    if s.SumX? { SerializedSize(depth - 1, s.child); }
  }

  /** Parsing accepts exactly the byte strings of the one length a depth allows, always
      yields a well-formed value, and loses nothing. */
  lemma {:induction false} ParseInvertsSerialize(depth: nat, bytes: Bytes)
    ensures Parse(depth, bytes).Parsed? <==> 1 <= depth <= MAX_DEPTH && |bytes| == SignatureSize(depth)
    ensures Parse(depth, bytes).Parsed? ==>
              WellFormed(depth, Parse(depth, bytes).sig) && Serialize(Parse(depth, bytes).sig) == bytes
    decreases depth
  {
    if 1 <= depth <= MAX_DEPTH && |bytes| == SignatureSize(depth) {
      var next := SignatureSize(depth - 1);
      if depth > 1 { ParseInvertsSerialize(depth - 1, bytes[..next]); }
      assert bytes == bytes[..next] + bytes[next..next + 32] + bytes[next + 32..next + 64];
    }
  }

  lemma {:induction false} SerializeInvertsParse(depth: nat, s: Sig)
    requires 1 <= depth <= MAX_DEPTH && WellFormed(depth, s)
    ensures Parse(depth, Serialize(s)) == Parsed(s)
    decreases s
  {
    var next := SignatureSize(depth - 1);
    var bytes := Serialize(s);
    SerializedSize(depth, s);
    SerializedSize(depth - 1, s.child);
    assert bytes[..next] == Serialize(s.child);
    assert bytes[next..next + 32] == s.left && bytes[next + 32..next + 64] == s.right;
    if depth > 1 { SerializeInvertsParse(depth - 1, s.child); }
  }

  /** The Ed25519 signature at the base. */
  function BaseSigma(s: Sig): Bytes {
    match s
    case Missing => []
    case Sum0(sigma) => sigma
    case SumX(_, child, _, _) => BaseSigma(child)
  }

  /** On the path to leaf `t`, some level of the signature carries a pair of public keys
      that is not the tree's own pair and yet has the same `hashPair` image. */
  predicate CollidesOnPath(c: Crypto, depth: nat, seed: Term, s: Sig, t: nat)
    requires WellFormed(depth, s) && t < Pow2(depth)
    decreases s
  {
    s.SumX? &&
    var left, right := c.Eval(PublicKey(depth - 1, Left(seed))),
                       c.Eval(PublicKey(depth - 1, Right(seed)));
    || ((s.left, s.right) != (left, right) && c.hashPair(s.left, s.right) == c.hashPair(left, right))
    || (if t < Pow2(depth - 1) then CollidesOnPath(c, depth - 1, Left(seed), s.child, t)
        else CollidesOnPath(c, depth - 1, Right(seed), s.child, t - Pow2(depth - 1)))
  }

  /** Every level of `s` stores the tree's two child public keys on the path to leaf `t`. */
  predicate CarriesTreeKeys(c: Crypto, depth: nat, seed: Term, s: Sig, t: nat)
    requires WellFormed(depth, s) && t < Pow2(depth)
    decreases s
  {
    s.SumX? ==>
      && s.left == c.Eval(PublicKey(depth - 1, Left(seed)))
      && s.right == c.Eval(PublicKey(depth - 1, Right(seed)))
      && if t < Pow2(depth - 1) then CarriesTreeKeys(c, depth - 1, Left(seed), s.child, t)
         else CarriesTreeKeys(c, depth - 1, Right(seed), s.child, t - Pow2(depth - 1))
  }

  lemma VerifyStep(c: Crypto, s: Sig, depth: nat, t: nat, pubKey: Bytes, msg: Bytes)
    requires s.SumX? && s.depth == depth && 1 <= depth <= MAX_DEPTH && t < Pow2(depth)
    ensures Verify(c, s, t, pubKey, msg) <==>
            && c.hashPair(s.left, s.right) == pubKey
            && if t < Pow2(depth - 1) then Verify(c, s.child, t, s.left, msg)
               else Verify(c, s.child, t - Pow2(depth - 1), s.right, msg)
  {
    assert Shift64(depth) == Pow2(depth) && Shift64(depth - 1) == Pow2(depth - 1);
  }

  /** Without a collision on the path, verification at `t` is Ed25519 verification of the base
      signature under leaf `t`'s key together with the tree's own public keys at every level. */
  lemma {:induction false} VerifyCharacterised(c: Crypto, depth: nat, seed: Term, s: Sig, t: nat, msg: Bytes)
    requires WellFormed(depth, s) && depth <= MAX_DEPTH && t < Pow2(depth)
    requires !CollidesOnPath(c, depth, seed, s, t)
    ensures Verify(c, s, t, c.Eval(PublicKey(depth, seed)), msg) <==>
            && CarriesTreeKeys(c, depth, seed, s, t)
            && c.edVerify(c.Eval(Public(LeafSeed(depth, seed, t))), msg, BaseSigma(s))
    decreases s
  {
    if s.SumX? {
      var l, r := c.Eval(PublicKey(depth - 1, Left(seed))),
                  c.Eval(PublicKey(depth - 1, Right(seed)));
      var half := Pow2(depth - 1);
      VerifyStep(c, s, depth, t, c.hashPair(l, r), msg);
      assert c.Eval(PublicKey(depth, seed)) == c.hashPair(l, r);
      if t < half {
        VerifyCharacterised(c, depth - 1, Left(seed), s.child, t, msg);
      } else {
        VerifyCharacterised(c, depth - 1, Right(seed), s.child, t - half, msg);
      }
    }
  }

  /** Binding: any well-formed signature, however it was made, that verifies at `t` under the
      root of a generated tree was checked at the base with leaf `t`'s key, unless the
      signature itself exhibits a hash collision with the tree. */
  lemma Binding(c: Crypto, depth: nat, seed: Term, s: Sig, t: nat, msg: Bytes)
    requires WellFormed(depth, s) && depth <= MAX_DEPTH && t < Pow2(depth)
    requires Verify(c, s, t, c.Eval(PublicKey(depth, seed)), msg)
    ensures || c.edVerify(c.Eval(Public(LeafSeed(depth, seed, t))), msg, BaseSigma(s))
            || CollidesOnPath(c, depth, seed, s, t)
  {
    if !CollidesOnPath(c, depth, seed, s, t) { VerifyCharacterised(c, depth, seed, s, t, msg); }
  }
}
