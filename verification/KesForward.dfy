/** Forward security of the evolved buffer, for an observer who reads every word of it and may
    expand seeds, derive public keys, hash and sign, but cannot invert any of these. */
module KesForward {
  import opened KesTree
  import opened Numbers

  /** What the observer can compute from `known`. Every operation builds a larger term, so
      looking at the parts of `w` decides whether it can be built. */
  predicate Derivable(w: Term, known: seq<Term>) {
    w in known ||
    match w
    case Zero => true
    case Given(_) => false
    case Expand(_, seed) => Derivable(seed, known)
    case Public(seed) => Derivable(seed, known)
    case Hash(left, right) => Derivable(left, known) && Derivable(right, known)
    case SigR(seed, _) => Derivable(seed, known)
    case SigS(seed, _) => Derivable(seed, known)
  }

  /** `w` is a seed: the root seed or an expansion of a seed. */
  predicate IsSeed(w: Term) {
    w.Given? || (w.Expand? && IsSeed(w.seed))
  }

  /** `w` is `s` or is reached from it by expansions. */
  predicate Under(w: Term, s: Term) {
    w == s || (w.Expand? && Under(w.seed, s))
  }

  function Height(w: Term): nat {
    if w.Expand? then 1 + Height(w.seed) else 0
  }

  lemma {:induction false} UnderTransitive(a: Term, b: Term, c: Term)
    requires Under(a, b) && Under(b, c)
    ensures Under(a, c)
  {
    if a != b { UnderTransitive(a.seed, b, c); }
  }

  /** Two seeds of the same height above a common descendant are the same seed. */
  lemma {:induction false} SameHeightAncestors(w: Term, a: Term, b: Term)
    requires Under(w, a) && Under(w, b) && Height(a) == Height(b)
    ensures a == b
  {
    if w == a {
      if w != b { UnderHeight(w.seed, b); }
    } else if w == b {
      UnderHeight(w.seed, a);
    } else {
      SameHeightAncestors(w.seed, a, b);
    }
  }

  lemma {:induction false} UnderHeight(w: Term, s: Term)
    requires Under(w, s)
    ensures Height(w) >= Height(s)
  {
    if w != s { UnderHeight(w.seed, s); }
  }

  /** A seed is derivable exactly when the buffer holds it or a seed it is expanded from. */
  lemma {:induction false} DerivableSeed(w: Term, known: seq<Term>)
    requires IsSeed(w)
    ensures Derivable(w, known) <==> exists s :: s in known && Under(w, s)
  {
    if w !in known && w.Expand? {
      DerivableSeed(w.seed, known);
      if s :| s in known && Under(w, s) { assert Under(w.seed, s); }
      if s :| s in known && Under(w.seed, s) { assert Under(w, s); }
    } else if w in known {
      assert Under(w, w);
    }
  }

  lemma {:induction false} LeafUnder(depth: nat, seed: Term, j: nat)
    requires IsSeed(seed) && j < Pow2(depth)
    ensures Under(LeafSeed(depth, seed, j), seed) && IsSeed(LeafSeed(depth, seed, j))
  {
    if depth > 0 {
      var half := Pow2(depth - 1);
      var child, k := if j < half then Left(seed) else Right(seed), if j < half then j else j - half;
      LeafUnder(depth - 1, child, k);
      UnderTransitive(LeafSeed(depth, seed, j), child, seed);
    }
  }

  /** The seeds in a key all belong to its own tree; the public keys are not seeds. */
  lemma {:induction false} HeldSeedsUnder(depth: nat, seed: Term, t: nat, w: Term)
    requires IsSeed(seed) && t < Pow2(depth) && w in KeyAt(depth, seed, t)
    ensures IsSeed(w) ==> Under(w, seed)
  {
    if depth > 0 {
      var half := Pow2(depth - 1);
      var child, k := if t < half then Left(seed) else Right(seed), if t < half then t else t - half;
      if w in KeyAt(depth - 1, child, k) {
        HeldSeedsUnder(depth - 1, child, k, w);
        if IsSeed(w) { UnderTransitive(w, child, seed); }
      } else if w == Right(seed) {
        assert Under(w, seed);
      } else {
        assert !PublicKey(depth - 1, Left(seed)).Expand? && !PublicKey(depth - 1, Right(seed)).Expand?;
      }
    }
  }

  /** No word of the key of period `t` is a spent leaf or an ancestor of one. */
  lemma {:induction false} SpentLeafUncovered(depth: nat, seed: Term, t: nat, j: nat, w: Term)
    requires IsSeed(seed) && j < t < Pow2(depth) && w in KeyAt(depth, seed, t)
    ensures !Under(LeafSeed(depth, seed, j), w)
  {
    LeafStep(depth, seed, j);
    hide LeafSeed;
    var half := Pow2(depth - 1);
    var leaf := LeafSeed(depth, seed, j);
    var side := if j < half then Left(seed) else Right(seed);
    LeafUnder(depth - 1, side, if j < half then j else j - half);
    var child, k := if t < half then Left(seed) else Right(seed), if t < half then t else t - half;
    if Under(leaf, w) {
      UnderIsSeed(leaf, w);
      if w in KeyAt(depth - 1, child, k) {
        if child == side {
          SpentLeafUncovered(depth - 1, child, k, if j < half then j else j - half, w);
        } else {
          HeldSeedsUnder(depth - 1, child, k, w);
          UnderTransitive(leaf, w, child);
          SameHeightAncestors(leaf, child, side);
        }
      } else {
        assert w == Right(seed) && t < half;
        SameHeightAncestors(leaf, w, side);
      }
    }
  }

  lemma {:induction false} UnderIsSeed(w: Term, s: Term)
    requires IsSeed(w) && Under(w, s)
    ensures IsSeed(s)
  {
    if w != s { UnderIsSeed(w.seed, s); }
  }

  lemma LeafStep(depth: nat, seed: Term, j: nat)
    requires depth >= 1 && j < Pow2(depth)
    ensures var half := Pow2(depth - 1);
            LeafSeed(depth, seed, j) ==
            if j < half then LeafSeed(depth - 1, Left(seed), j) else LeafSeed(depth - 1, Right(seed), j - half)
  {
  }

  /** A key holds its active child's key and, before the turn, the right seed. */
  lemma KeyHolds(depth: nat, seed: Term, t: nat)
    requires depth >= 1 && t < Pow2(depth)
    ensures var half := Pow2(depth - 1);
            var inner := if t < half then KeyAt(depth - 1, Left(seed), t) else KeyAt(depth - 1, Right(seed), t - half);
            && (forall w :: w in inner ==> w in KeyAt(depth, seed, t))
            && (t < half ==> Right(seed) in KeyAt(depth, seed, t))
  {
    var half := Pow2(depth - 1);
    var inner := if t < half then KeyAt(depth - 1, Left(seed), t) else KeyAt(depth - 1, Right(seed), t - half);
    assert KeyAt(depth, seed, t)[..|inner|] == inner;
    assert t < half ==> KeyAt(depth, seed, t)[|inner|] == Right(seed);
  }

  /** Every leaf from `t` on is covered by a word of the key of period `t`. */
  lemma {:induction false} LiveLeafCovered(depth: nat, seed: Term, t: nat, j: nat) returns (w: Term)
    requires IsSeed(seed) && t <= j < Pow2(depth)
    ensures w in KeyAt(depth, seed, t) && Under(LeafSeed(depth, seed, j), w)
  {
    if depth == 0 {
      w := seed;
    } else {
      KeyHolds(depth, seed, t);
      LeafStep(depth, seed, j);
      hide KeyAt, LeafSeed;
      var half := Pow2(depth - 1);
      if t < half <= j {
        w := Right(seed);
        LeafUnder(depth - 1, w, j - half);
      } else if j < half {
        w := LiveLeafCovered(depth - 1, Left(seed), t, j);
      } else {
        w := LiveLeafCovered(depth - 1, Right(seed), t - half, j - half);
      }
    }
  }

  /** Forward security: from the whole buffer at period `t` exactly the leaf seeds of the
      periods from `t` on can be computed. */
  lemma ForwardSecure(depth: nat, seed: Term, t: nat, j: nat)
    requires IsSeed(seed) && t < Pow2(depth) && j < Pow2(depth)
    ensures Derivable(LeafSeed(depth, seed, j), KeyAt(depth, seed, t)) <==> t <= j
  {
    var leaf, key := LeafSeed(depth, seed, j), KeyAt(depth, seed, t);
    LeafUnder(depth, seed, j);
    DerivableSeed(leaf, key);
    if t <= j {
      var w := LiveLeafCovered(depth, seed, t, j);
    } else {
      forall w | w in key ensures !Under(leaf, w) { SpentLeafUncovered(depth, seed, t, j, w); }
    }
  }

  /** In particular for a key generated from any 32 bytes. */
  lemma GeneratedForwardSecure(depth: nat, seed: Word, t: nat, j: nat)
    requires t < Pow2(depth) && j < Pow2(depth)
    ensures Derivable(LeafSeed(depth, Given(seed), j), KeyAt(depth, Given(seed), t)) <==> t <= j
  {
    hide Derivable, LeafSeed, KeyAt;
    ForwardSecure(depth, Given(seed), t, j);
  }

  /** The leaf seeds from the bottom up: leaf j is the expansion, with separator 1 for an even j and 2
      for an odd one, of leaf j / 2 of the tree one level shorter. */
  lemma {:induction false} LeafFromBelow(depth: nat, seed: Term, j: nat)
    requires depth >= 1 && j < Pow2(depth)
    ensures j / 2 < Pow2(depth - 1) && LeafSeed(depth, seed, j) == Expand(1 + j % 2, LeafSeed(depth - 1, seed, j / 2))
  {
    LeafStep(depth, seed, j);
    if depth == 1 {
      assert Pow2(0) == 1;
    } else {
      var half := Pow2(depth - 1);
      assert half == 2 * Pow2(depth - 2);
      LeafStep(depth - 1, seed, j / 2);
      hide LeafSeed;
      if j < half { LeafFromBelow(depth - 1, Left(seed), j); } else { LeafFromBelow(depth - 1, Right(seed), j - half); }
    }
  }

  // ----- the held seeds as an exact cover

  datatype Held = Held(seed: Term, depth: nat)

  /** The seeds a buffer holds, read off the buffer alone: the leaf seed, then each level's slot
      that has not been wiped, with the depth of the subtree it grows. */
  function HeldSeeds(depth: nat, words: seq<Term>): seq<Held>
    requires |words| == KeyWords(depth)
  {
    if depth == 0 then [Held(words[0], 0)]
    else
      var n := KeyWords(depth - 1);
      HeldSeeds(depth - 1, words[..n]) + (if words[n] == Zero then [] else [Held(words[n], depth - 1)])
  }

  function Leaves(depth: nat, seed: Term): (r: seq<Term>)
    ensures |r| == Pow2(depth)
  {
    if depth == 0 then [seed] else Leaves(depth - 1, Left(seed)) + Leaves(depth - 1, Right(seed))
  }

  function LeavesOf(held: seq<Held>): seq<Term> {
    if held == [] then []
    else LeavesOf(held[..|held| - 1]) + Leaves(held[|held| - 1].depth, held[|held| - 1].seed)
  }

  lemma LeavesOfOneMore(held: seq<Held>, h: Held)
    ensures LeavesOf(held + [h]) == LeavesOf(held) + Leaves(h.depth, h.seed)
  {
    assert (held + [h])[..|held|] == held;
  }

  lemma DropConcat(a: seq<Term>, b: seq<Term>, t: nat)
    requires t < |a| + |b|
    ensures (a + b)[t..] == if t < |a| then a[t..] + b else b[t - |a|..]
  {
  }

  lemma HeldSeedsStep(depth: nat, seed: Term, t: nat)
    requires 0 < depth && t < Pow2(depth)
    ensures HeldSeeds(depth, KeyAt(depth, seed, t)) ==
            if t < Pow2(depth - 1)
            then HeldSeeds(depth - 1, KeyAt(depth - 1, Left(seed), t)) + [Held(Right(seed), depth - 1)]
            else HeldSeeds(depth - 1, KeyAt(depth - 1, Right(seed), t - Pow2(depth - 1)))
  {
    var key, n, half := KeyAt(depth, seed, t), KeyWords(depth - 1), Pow2(depth - 1);
    assert key[..n] == if t < half then KeyAt(depth - 1, Left(seed), t) else KeyAt(depth - 1, Right(seed), t - half);
  }

  lemma LeafCover(seed: Term)
    ensures LeavesOf(HeldSeeds(0, KeyAt(0, seed, 0))) == [seed]
  {
    LeavesOfOneMore([], Held(seed, 0));
  }

  /** The held seeds grow exactly the leaves from `t` on, in order and each once. */
  lemma {:induction false} ExactCover(depth: nat, seed: Term, t: nat)
    requires t < Pow2(depth)
    ensures LeavesOf(HeldSeeds(depth, KeyAt(depth, seed, t))) == Leaves(depth, seed)[t..]
  {
    hide HeldSeeds, KeyAt, LeavesOf;
    if depth == 0 {
      LeafCover(seed);
    } else {
      var half := Pow2(depth - 1);
      HeldSeedsStep(depth, seed, t);
      DropConcat(Leaves(depth - 1, Left(seed)), Leaves(depth - 1, Right(seed)), t);
      if t < half {
        ExactCover(depth - 1, Left(seed), t);
        LeavesOfOneMore(HeldSeeds(depth - 1, KeyAt(depth - 1, Left(seed), t)), Held(Right(seed), depth - 1));
      } else {
        ExactCover(depth - 1, Right(seed), t - half);
      }
    }
  }

  lemma {:induction false} LeavesAreLeafSeeds(depth: nat, seed: Term, j: nat)
    requires j < Pow2(depth)
    ensures Leaves(depth, seed)[j] == LeafSeed(depth, seed, j)
  {
    if depth > 0 {
      var half := Pow2(depth - 1);
      if j < half { LeavesAreLeafSeeds(depth - 1, Left(seed), j); }
      else { LeavesAreLeafSeeds(depth - 1, Right(seed), j - half); }
    }
  }

  /** Different periods have different leaf seeds. */
  lemma {:induction false} LeavesDistinct(depth: nat, seed: Term, i: nat, j: nat)
    requires IsSeed(seed) && i < j < Pow2(depth)
    ensures LeafSeed(depth, seed, i) != LeafSeed(depth, seed, j)
  {
    var half := Pow2(depth - 1);
    if j < half {
      LeavesDistinct(depth - 1, Left(seed), i, j);
    } else if half <= i {
      LeavesDistinct(depth - 1, Right(seed), i - half, j - half);
    } else {
      LeafUnder(depth - 1, Left(seed), i);
      LeafUnder(depth - 1, Right(seed), j - half);
      if LeafSeed(depth, seed, i) == LeafSeed(depth, seed, j) {
        SameHeightAncestors(LeafSeed(depth, seed, i), Left(seed), Right(seed));
      }
    }
  }
}
