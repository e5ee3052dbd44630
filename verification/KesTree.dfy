/** The MMM sum-composition key tree: sizes, derivations and the layout that a secret key
    of a given depth must have at a given period.

    Every seed and public key is 32 bytes long and every offset into a key or a signature is
    a multiple of 32, so buffers are sequences of 32-byte words. The key procedures only copy
    words and apply Ed25519 and Blake2b to them, never looking inside, so a word is the term
    that records how it was computed. `Crypto` interprets terms as bytes: results about bytes
    hold for every interpretation. */
module KesTree {
  import opened Numbers


  type Bytes = seq<byte>
  const ZERO_BYTES: Bytes :=
    [0, 0, 0, 0, 0, 0, 0, 0, 0, 0, 0, 0, 0, 0, 0, 0, 0, 0, 0, 0, 0, 0, 0, 0, 0, 0, 0, 0, 0, 0, 0, 0]
  /** 32 bytes. */
  type Word = w: Bytes | |w| == 32 witness ZERO_BYTES

  const MAX_DEPTH := 63
  const MAX_KEY_GEN_DEPTH := 12

  /** A word, by the computation that yields it: the wiped word, a word given from outside, a
      seed expanded with a domain separator, an Ed25519 public key, the hash of a pair of keys,
      and the two halves of an Ed25519 signature. */
  datatype Term =
    | Zero
    | Given(word: Word)
    | Expand(separator: byte, seed: Term)
    | Public(seed: Term)
    | Hash(left: Term, right: Term)
    | SigR(seed: Term, msg: Bytes)
    | SigS(seed: Term, msg: Bytes)

  function Left(seed: Term): Term { Expand(1, seed) }

  function Right(seed: Term): Term { Expand(2, seed) }

  datatype Crypto = Crypto(
    edPublic: Word -> Word,
    edSign: (Word, Bytes) -> (Word, Word),
    edVerify: (Bytes, Bytes, Bytes) -> bool,
    hashPair: (Bytes, Bytes) -> Word,
    expandSeed: (Word, byte) -> Word)
  {
    /** An honestly made Ed25519 signature verifies. */
    ghost predicate Valid() {
      forall s, m :: edVerify(edPublic(s), m, edSign(s, m).0 + edSign(s, m).1)
    }

    function Eval(t: Term): Word {
      match t
      case Zero => ZERO_BYTES
      case Given(word) => word
      case Expand(separator, seed) => expandSeed(Eval(seed), separator)
      case Public(seed) => edPublic(Eval(seed))
      case Hash(left, right) => hashPair(Eval(left), Eval(right))
      case SigR(seed, msg) => edSign(Eval(seed), msg).0
      case SigS(seed, msg) => edSign(Eval(seed), msg).1
    }

    /** The bytes of a run of words. */
    function EvalAll(words: seq<Term>): Bytes {
      if words == [] then [] else EvalAll(words[..|words| - 1]) + Eval(words[|words| - 1])
    }
  }

  /** Words in a secret key: an Ed25519 seed, and three words for each level. */
  function KeyWords(depth: nat): nat {
    1 + 3 * depth
  }

  /** Words in a signature: two for Ed25519 and two for each level. */
  function SigWords(depth: nat): nat {
    2 + 2 * depth
  }

  function PublicKey(depth: nat, seed: Term): Term {
    if depth == 0 then Public(seed)
    else Hash(PublicKey(depth - 1, Left(seed)), PublicKey(depth - 1, Right(seed)))
  }

  /** The Ed25519 seed of leaf `t`. */
  function LeafSeed(depth: nat, seed: Term, t: nat): Term
    requires t < Pow2(depth)
  {
    if depth == 0 then seed
    else if t < Pow2(depth - 1) then LeafSeed(depth - 1, Left(seed), t)
    else LeafSeed(depth - 1, Right(seed), t - Pow2(depth - 1))
  }

  /** The words a key grown from `seed` holds at period `t`: the active child key, the seed of
      the right subtree while it is still unused, and the two child public keys. */
  function KeyAt(depth: nat, seed: Term, t: nat): (r: seq<Term>)
    requires t < Pow2(depth)
    ensures |r| == KeyWords(depth)
  {
    if depth == 0 then [seed]
    else
      var half := Pow2(depth - 1);
      (if t < half then KeyAt(depth - 1, Left(seed), t) else KeyAt(depth - 1, Right(seed), t - half))
      + [if t < half then Right(seed) else Zero,
         PublicKey(depth - 1, Left(seed)),
         PublicKey(depth - 1, Right(seed))]
  }
}
