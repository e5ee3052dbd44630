# Proofs about the hard parts of gouroboros

A Dafny model of six components of gouroboros, a Go implementation of the Ouroboros network and
consensus protocols, with what each is relied on for proved for all inputs, all runs and all
reachable states. `dafny verify dfyconfig.toml` checks the whole project.

| component | modules |
|---|---|
| KES signatures (sum composition of Ed25519) | `KesTree`, `KesVerify`, `KesKey`, `KesForward` |
| Ordered block pipeline | `ApplyStage`, `Pipeline` |
| Leader predicate over fixed-point numbers of 34 decimals | `E34`, `E34Compare`, `E34Exp`, `E34ExpSeries`, `E34Ln`, `E34LnSeries`, `Eligibility`, `EligibilityVector`, `EligibilityCache` |
| CBOR walkers | `Cbor`, `ItemBudget`, `Scanner`, `ScannerGrammar`, `MessageScanner` |
| Muxer scheduling and accounting | `Egress`, `EgressRuns`, `Ingress`, `IngressRuns` |
| Leader schedule and chain selection | `Tachys`, `Selection` |
| shared lists, optional values and numbers | `Common`, `Numbers` |

How the source is rendered:

- **Objects and loops.** What the source updates in place is a class or an array whose methods are
  proved against functions on values: the KES key buffer, the LRU memo, the message scanner, the
  apply stage, the write scheduler, the ingress account and its channels. Loops stay loops.
- **Concurrency.** The pipeline, the write scheduler and the ingress queues are step systems over
  the same functions. Their theorems quantify over every sequence of enabled steps: any arrival
  order, any moment of cancellation or shutdown, any interleaving of a check with the store and the
  close it races with.
- **Cancellation** is a fuse that burns down with each poll of the context, so every moment of
  cancellation, between any two polls, is one value of the fuse; once burnt it stays so.
- **Cryptography.** KES words are symbolic terms (seeds, expansions, public keys, hashes, signature
  halves). `KesTree.Crypto` interprets them as 32-byte strings, with one hypothesis: an honest
  Ed25519 signature verifies. Collisions are never assumed away; `KesVerify.Binding` names the one
  that a counterexample would exhibit.
- **CBOR** items are trees (section 3 of RFC 8949), with an encoder and a recursive-descent parser
  that invert each other. Both walkers are compared with that parser.
- **Fixed-point functions** are tied to what they approximate without the code's own recurrences: the
  terms of the exponential to x^i / i!, the convergents of the logarithm to the power series of
  ln(1 + z), each up to one unit of rounding a step.
- **Integers** are unbounded unless the width matters: the map doubling in `ItemBudget`, the 64-bit
  bounds in `Tachys` and `Eligibility`, the saturating limit in `Ingress` and the period counter in
  `KesKey` are written out.

What the proofs found in the code:

- `e34Ln` fails on exactly two positive inputs, the floored squares that stand for e^-2 and e^-4
  (`E34Ln.Ln`). A coefficient that the validator accepts can lead there, and then preparation
  fails (`Eligibility.AcceptedCoefficientThatFails`).
- `e34Compare`'s factor 3 covers the tail of the series exactly when its first margin does: up to
  x = 2.655 it does, from 2.656 on it does not, and in between one sum decides
  (`E34Compare.AboveExact`). Below is right for every x. Where the margin is too small some certified
  natural below the series is refused (`Eligibility.ElectionExact`); an accepted coefficient near 0.95
  at full stake leads there (`Eligibility.RefusedThoughBelow`), one of at most 1 - e^-2 does not.
- `kes.Update` accepts a key whose exported period is 2^64 - 1, because the successor wraps to zero;
  the new key signs with a zero seed (`KesKey.WrappedPeriod`). From every other period that it accepts
  the leaf is not wiped (`KesKey.WipesLeafOnlyOnWrap`).
- `countItems` is exact for every budget below 2^63 - 1 and accepts a truncated map at 2^63 - 1
  (`ItemBudget.LargestBudgetFails`).
- The message scanner reports a message both complete and oversized exactly when the message ends in a
  break, its own or that of its last item, and that break is the first byte past the limit
  (`ScannerGrammar.CompleteAndOversized`).
- The ingress limit also falls when an extension is withdrawn or a forwarder returns, so an unchanged
  budget does not bound what is retained (`IngressRuns.WithdrawnExtension`,
  `IngressRuns.FinishedExtension`); `IngressRuns.LoweringExact` says when it still does.
- Stopping a channel signals its forwarder before it closes the channel, so a segment accepted in
  between stays charged to the connection (`IngressRuns.SegmentLeftBehind`, `IngressRuns.LeftBehind`).

## Model

| member | source | states |
|---|---|---|
| `KesVerify.ParseInvertsSerialize` | kes/kes.go:81-118 | parsing accepts exactly the byte strings of the one length a depth allows, yields a well-formed signature, and serializing it gives the bytes back |
| `KesVerify.SerializeInvertsParse` | kes/kes.go:81-118 | every well-formed signature is parsed back from its own bytes |
| `KesVerify.VerifyStep` | kes/kes.go:131-164 | one level: the hash of the two child keys is the public key, and the child verifies on the side and at the period the split selects |
| `KesVerify.VerifyCharacterised` | kes/kes.go:131-176 | under the root of a generated tree, without a hash collision on the path, verification at t is Ed25519 verification of the base signature under leaf t together with the tree's own keys at every level, in both directions |
| `KesVerify.Binding` | kes/kes.go:131-176 | any well-formed signature, however made, that verifies at t was checked with leaf t's key, unless the signature itself exhibits a hash collision with the tree |
| `KesKey.PublicKeyOfSeed` | kes/sign.go:184-207 | the public key computed from a seed is the root of the tree that grows from it |
| `KesKey.KeyGenInternal` | kes/sign.go:132-181 | fills its part of the buffer with the key of period 0 and touches nothing beyond; returns the root |
| `KesKey.UpdateInternal` | kes/sign.go:385-419 | in place: the words become the evolved ones, whatever they were, and nothing beyond changes |
| `KesKey.TurnRight` | kes/sign.go:402-413 | the branch that crosses to the right subtree regrows the child key from the stored seed and erases that seed |
| `KesKey.UpdateAdvancesKey` | kes/sign.go:385-419 | evolving the key of period t gives exactly the key of period t + 1, for every depth, seed and period |
| `KesKey.WipesLeafExactly` | kes/sign.go:385-391 | the depth-0 wipe is reached exactly from the last period and from every period past it |
| `KesKey.WipesLeafOnlyOnWrap` | kes/sign.go:336-355 | for every period that Update accepts, the wipe is reached if and only if the period is 2^64 - 1, whose successor wraps to zero |
| `KesKey.WipedKey` | kes/sign.go:385-391 | what the wipe leaves: a zero seed, with which the key then signs |
| `KesKey.WrappedPeriod` | kes/sign.go:336-382 | the input that reaches it: a key whose public period field is set to 2^64 - 1 evolves to period 0 and signs with a zero seed |
| `KesKey.SignInternal` | kes/sign.go:266-320 | writes into its part of the signature the words determined by the buffer and the message |
| `KesKey.SignedIsHonest` | kes/sign.go:266-320 | the words signed at period t serialize the signature that carries leaf t's Ed25519 signature and the key pairs of its path |
| `KesKey.HonestSigVerifies` | kes/kes.go:131-176 | that signature verifies at t under the root |
| `KesKey.WholeLife` | kes/sign.go:448-462 | at every period the evolved buffer yields the original public key, and what it signs is parsed and accepted at that period under that key |
| `KesKey.SecretKey.Zeroize` | kes/sign.go:49-56 | every word of the buffer is erased and the key becomes unusable |
| `KesKey.KeyGen` | kes/sign.go:95-128 | succeeds exactly for a 32-byte seed and an allowed depth, with a new object grown from that seed at period 0 |
| `KesKey.Sign` | kes/sign.go:223-263 | succeeds exactly for a usable key at its own period in range; an erased key cannot sign; nothing is changed |
| `KesKey.Update` | kes/sign.go:336-382 | consumes its argument: on success the old object is erased and its buffer zeroed and the new key holds the evolved words at the next period, in uint64 arithmetic; succeeds exactly when that is below 2^depth; wipes the leaf exactly on wrap-around; on failure nothing changes |
| `KesKey.LiveAndSign` | kes/kes_test.go:511-531 | key generation, t evolutions and a signature through the objects, whose bytes are parsed and accepted at t under the first public key |
| `KesForward.DerivableSeed` | kes/sign.go:336-419 | what can be computed from a buffer: a seed is derivable exactly when the buffer holds it or a seed it is expanded from |
| `KesForward.ForwardSecure` | kes/sign.go:336-419 | from the whole buffer at period t the leaf seed of period j can be computed if and only if t <= j |
| `KesForward.GeneratedForwardSecure` | kes/sign.go:336-419 | the same for a key generated from any 32 bytes |
| `KesForward.ExactCover` | kes/sign.go:336-419 | the seeds held at period t grow exactly the leaves from t on, in order and each once |
| `KesForward.LeavesDistinct` | kes/sign.go:184-207 | different periods have different leaf seeds, so no leaf is covered twice |
| `KesForward.LeafFromBelow` | kes/sign.go:132-207 | leaf j expands leaf j / 2 of the tree one level shorter, with separator 1 for an even j and 2 for an odd one |
| `E34.FloorQuotient` | consensus/e34.go:31-50 | the corrected truncating quotient is the floor for either sign of both operands; fails only on a zero divisor |
| `E34.MulMonotone` | consensus/e34.go:64-68 | the floored product is monotone for non-negative factors |
| `E34.PowerUpper` | consensus/e34.go:74-102 | for b >= 0 and n >= 1 the power times S^(n-1) is at most b^n |
| `E34.PowerAtLeastOne` | consensus/e34.go:74-102 | a base of at least S has powers of at least S |
| `E34Exp.ExpWithBudget` | consensus/e34.go:104-149 | computes the floored exponential by its series, inverted for negative arguments, without a zero division |
| `E34Exp.ExpAtLeastOne` | consensus/e34.go:109-149 | the exponential of a positive value is at least one, so inverting it is safe |
| `E34Exp.ExpOfOne` | consensus/e34.go:104-106 | the value the series gives for e |
| `E34ExpSeries.ExpIsPowerOfSum` | consensus/e34.go:109-149 | for every positive v and budget: the exponential is the nth power, n the units v rounds up to, of a partial sum of the comparator's own series at floor(v / n), ended before the first term below the tolerance |
| `E34ExpSeries.ExpOfNegative` | consensus/e34.go:109-118 | for every negative v it is the floored inverse of the exponential of -v |
| `E34ExpSeries.TermRounded` | consensus/e34.go:109-149 | for every x >= 0 and i, term i times i! S^(i-1) is at most x^i and short of it by at most one unit of rounding a step |
| `E34Compare.Compare` | consensus/e34.go:254-286 | the loop computes the decision, accumulator and iteration count of the specification |
| `E34Compare.TermsVanish` | consensus/e34.go:254-286 | for 0 <= x <= 2.656S every term from index 120 on is zero |
| `E34Compare.TailBound` | consensus/e34.go:254-286 | for 0 <= x <= 2.656S everything still to come after the second margin or a later one is at most three times the next term |
| `E34Compare.CoversSmall` | consensus/e34.go:254-286 | up to x = 2.655S the first margin covers the whole series |
| `E34Compare.CoversNoMore` | consensus/e34.go:254-286 | from x = 2.656S on it does not |
| `E34Compare.BelowSound` | consensus/e34.go:254-286 | for every x >= 0, Below at iteration i means that q is less than every partial sum from i on |
| `E34Compare.AboveExact` | consensus/e34.go:254-286 | for every x >= 0, a verdict of Above is right for all q if and only if the first margin covers the series |
| `E34Compare.CompareExact` | consensus/e34.go:254-286 | for every q and every x >= 0 whose first margin covers the series, the comparison decides within 120 iterations: Below if some floored partial sum exceeds q, Above if none does |
| `E34Compare.ModerateDecides` | consensus/e34.go:254-286 | for every q and 0 <= x <= 45S the budget of 1000 is never reached |
| `E34Compare.FirstMarginWrong` | consensus/e34.go:254-286 | where the first margin does not cover the series, the value at that margin is classified Above although a partial sum exceeds it |
| `E34Compare.MarginFailsAtThree` | consensus/e34.go:254-286 | at x = 3S the value 18S is classified Above and the fifth partial sum exceeds it |
| `E34Ln.LnCF` | consensus/e34.go:203-244 | for r >= 0 the continued fraction never divides by zero and is the function the next rows are about; a negative r is refused |
| `E34LnSeries.FractionStops` | consensus/e34.go:203-244 | the result is the convergent at the first depth within the tolerance of its predecessor, or at the last depth |
| `E34LnSeries.AgreesWithLog` | consensus/e34.go:209-224 | for every depth d: numerator less denominator times the power series of ln(1 + z), both without rounding, has no power of z below d + 2, and does have that one |
| `E34LnSeries.RoundedPolynomial` | consensus/e34.go:209-228 | for every r >= 0 and depth the loop's numerator and denominator are those polynomials at r / S, scaled, rounded down by at most one unit a step carried along |
| `E34Ln.FirstFractions` | consensus/e34.go:203-244 | for every r >= 0 and budgets 0 to 3 the value is r, 2r/(2+r), (6r+r^2)/(6+4r) and (6r+3r^2)/(6+6r+r^2) with the floors of the code, or an earlier one within the tolerance of its predecessor |
| `EligibilityVector.LnOfNineteenTwentieths` | consensus/eligibility_test.go:201-212 | the logarithm of 1 - 1/20 to its last digit |
| `E34Ln.Bracket` | consensus/e34.go:163-169 | the squaring loop ends, with the first bracket around v |
| `E34Ln.Bisect` | consensus/e34.go:170-186 | the bisection ends with adjacent exponents around v, but for the ends it started from, and no zero division |
| `E34Ln.ExponentFound` | consensus/e34.go:163-186 | so does the whole search: its exponent is that of a power at or below v whose successor is above it, but for the ends of the first surrounding bracket |
| `E34Ln.BisectionResult` | consensus/e34.go:170-190 | the exponent found is that of a power at or below v, except on exactly two values |
| `E34Ln.Ln` | consensus/e34.go:151-201 | never divides by zero, and succeeds if and only if v > 0 and v is neither of those two values |
| `E34Ln.LnAtLeast` | consensus/e34.go:151-201 | the logarithm of a value that is at least the mth inverse power of e is at least -m |
| `Eligibility.ValidateActiveSlotCoefficient` | consensus/eligibility.go:109-128 | the two-word product decides exactly whether the coefficient lies in the positive unit interval with 64-bit parts |
| `Eligibility.PrepareLeaderEligibility` | consensus/eligibility.go:166-198 | fails if and only if one minus the floored coefficient is a value the logarithm misses; otherwise sigma is the floor of the stake ratio, -x the floor of sigma times the logarithm, and M is 2^256 for CPraos and 2^512 for TPraos |
| `Eligibility.PreparedMeans` | consensus/eligibility.go:166-198 | the same for every key that can be prepared, with the coefficient floored and the logarithm taken of one minus it |
| `Eligibility.NoStakeNoElection` | consensus/eligibility.go:166-235 | a pool without stake is elected for no natural |
| `Eligibility.StakeMonotone` | consensus/eligibility.go:166-198 | of two keys that differ in the stake only, the larger stake has the larger sigma and x, unless rounding left both x at or below zero |
| `Eligibility.MoreStakeElectsMore` | consensus/eligibility.go:166-235 | whoever a stake elects a larger stake elects too, wherever the first margin covers the larger series and x is not negative |
| `Eligibility.ElectionLaw` | consensus/eligibility.go:211-235 | where the first margin covers the series: v is elected if and only if M S < s (M - v) for some partial sum s, the endpoint v = M included |
| `Eligibility.AcceptedCoefficientThatFails` | consensus/eligibility.go:109-198 | a coefficient inside the accepted interval for which preparation fails |
| `Eligibility.CheckCertifiedNatural` | consensus/eligibility.go:211-235 | range errors for a natural outside 0..M; otherwise the election predicate |
| `Eligibility.Monotone` | consensus/eligibility.go:211-235 | for every prepared state and 0 <= v1 <= v2 <= M, if v2 is elected then so is v1 |
| `Eligibility.Threshold` | consensus/eligibility.go:211-235 | some bound separates the elected naturals from the others |
| `Eligibility.ZeroElectsNobody` | consensus/eligibility.go:211-235 | with x = 0 nobody is elected |
| `Eligibility.PositiveElectsZero` | consensus/eligibility.go:211-235 | with 0 < x <= 45S the natural zero is elected |
| `Eligibility.ElectedIsBelow` | consensus/eligibility.go:211-235 | for every x >= 0 whoever is elected lies below some floored partial sum |
| `Eligibility.ElectionExact` | consensus/eligibility.go:211-235 | for 0 <= x <= 45S: the elected naturals are exactly those below some partial sum if and only if the first margin covers the series |
| `Eligibility.PreparedAtMost` | consensus/eligibility.go:166-198 | if one minus the coefficient is at least the mth inverse power of e then x is at most mS |
| `Eligibility.PreparedModerate` | consensus/eligibility.go:166-198 | every accepted coefficient that can be prepared gives x <= 45S |
| `Eligibility.SmallCoefficientExact` | consensus/eligibility.go:166-235 | with one minus the coefficient at least e^-2, and x not negative, election is exact |
| `Eligibility.RefusedThoughBelow` | consensus/eligibility.go:166-235 | an accepted coefficient near 0.95 at full stake gives x = 3S, and a certified natural below the series is refused |
| `EligibilityVector.ThirdOfTheStake` | consensus/eligibility_test.go:172-216 | a third of the stake at a coefficient of 1/20: sigma, logarithm and x to their last digits |
| `EligibilityVector.ThirdOfTheStakeElects` | consensus/eligibility_test.go:172-183 | and of the 2^256 + 1 naturals exactly those up to the stated one are elected |
| `EligibilityCache.Cache.Get` | consensus/eligibility_cache.go:54-66 | a hit moves the key to the front and returns its state, which is the prepared one; a miss changes nothing |
| `EligibilityCache.Cache.Put` | consensus/eligibility_cache.go:68-90 | inserts at the front and evicts the oldest key past the size, keeping map and list in step; a prepared state keeps every held state a prepared one |
| `EligibilityCache.HoldsMostRecent` | consensus/eligibility_cache.go:54-90 | after any history the cache holds exactly the most recently used keys, in order of use |
| `EligibilityCache.NewLeaderEligibility` | consensus/eligibility.go:130-164 | the three argument errors exactly as the source orders them; otherwise, whatever the memo holds, the answer is that of preparing the clamped key directly, and the memo moves as one lookup; every error leaves it unchanged |
| `Cbor.ParsesEncoded` | protocol/internal/cborwalk/walk.go:33-88 | an encoded item is parsed back wherever it stands and whatever follows it |
| `Cbor.ParsedIsEncoded` | protocol/internal/cborwalk/walk.go:33-88 | what is parsed is a well-formed item whose encoding is exactly the bytes consumed |
| `Cbor.HeaderForms` | protocol/internal/cborwalk/walk.go:33-88 | the header at every position, byte by byte: argument in the low five bits or in the next 1, 2, 4 or 8 bytes, short when those are missing, refused otherwise |
| `ItemBudget.ScanHeader` | cbor/item_budget.go:56-92 | the walker's own header switch reads the same header as the shared reader |
| `ItemBudget.CountItems` | cbor/item_budget.go:41-137 | the loop ends on every byte string, with the result of the stack machine |
| `ItemBudget.PushedFrame` | cbor/item_budget.go:93-129 | the early rejection of declared lengths and the clamped map doubling agree with the exact count |
| `ItemBudget.CountsTheTree` | cbor/item_budget.go:41-137 | on every input: accepts exactly one encoded item within budget and nesting, with its number of items; over budget is reported exactly when only the budget is exceeded |
| `ItemBudget.CountsEncoded` | cbor/item_budget.go:41-137 | for every well-formed item below the nesting limit, followed by anything: the exact recursive count, or over budget |
| `ItemBudget.LargestBudgetFails` | cbor/item_budget.go:107-125 | the bound on the budget is needed: with the largest int the clamped doubling wraps to zero and a bare header of 2^63 pairs is accepted as one item |
| `Scanner.HeadStable` | protocol/internal/cborwalk/walk.go:33-88 | a header that could be read does not change when the input is extended |
| `Scanner.DriveIsScanning` | protocol/message_scanner.go:52-258 | scanning again after each reported message type is one uninterrupted walk |
| `Scanner.StarvedResumes` | protocol/message_scanner.go:64-158 | a call that ran out of bytes has lost nothing |
| `Scanner.ChunkedEqualsWhole` | protocol/message_scanner.go:52-258 | however the stream is cut into chunks, the state and the verdict are those of scanning the whole buffer at once |
| `ScannerGrammar.CompletesExactly` | protocol/message_scanner.go:52-291 | on every buffer and under every limit: completes if and only if the buffer starts with an array led by an unsigned integer (or empty) that nests within the limit and either fits the byte limit or ends in a break one byte past it, with that item's exact length, type and number of items |
| `ScannerGrammar.CompletesAtMessageEnd` | protocol/message_scanner.go:52-302 | completes and is not oversized if and only if such a message fits both limits |
| `ScannerGrammar.CompleteAndOversized` | protocol/message_scanner.go:131-141 | complete and oversized at once if and only if the message ends in a break that is the first byte past the limit |
| `ScannerGrammar.OversizedByOneBreak` | protocol/message_scanner.go:131-141 | it happens: a definite array of four bytes whose last item is an empty indefinite-length string, under a limit of three |
| `ScannerGrammar.MessageFound` | protocol/message_scanner.go:52-291 | such a message, in any chunks and followed by any bytes, is found at its own encoded length |
| `MessageScanner.MessageScanner.FinishItem` | protocol/message_scanner.go:271-280 | drops the frames that owe nothing; complete when none is left |
| `MessageScanner.MessageScanner.PushFrame` | protocol/message_scanner.go:260-269 | pushes unless the nesting limit is reached |
| `MessageScanner.MessageScanner.ReadItem` | protocol/message_scanner.go:132-157 | one iteration on a break, a closed frame or an item leaves the fields as the specified step does |
| `MessageScanner.MessageScanner.ReadHeader` | protocol/message_scanner.go:158-257 | the same for an item header |
| `MessageScanner.MessageScanner.Scan` | protocol/message_scanner.go:52-258 | one call leaves the state, report and error of the specified loop, with the error for a buffer that shrank |
| `MessageScanner.ReadMessage` | protocol/protocol.go:1982-2032 | a new scanner on a buffer, called again once the type is known: complete if and only if the buffer starts with a message that nests within the limit and whose end is reached, and then its encoded length, its type, and oversized exactly past the limit |
| `ApplyStage.ApplyStage.MaybeApply` | pipeline/apply_stage.go:191-247 | accepts a block exactly when it is acceptable and, where it has to be applied, the context is live; the apply function takes effect exactly on the blocks so accepted outside the trusted and header-only modes |
| `ApplyStage.ApplyStage.ApplyItem` | pipeline/apply_stage.go:262-282 | polls the context once; applies only while it is live |
| `ApplyStage.ApplyStage.ApplyPending` | pipeline/apply_stage.go:319-347 | drains the buffer as specified, and the applied numbers are those of the processed items |
| `ApplyStage.ApplyStage.ProcessWithStatus` | pipeline/apply_stage.go:147-187 | one call as specified: immediate processing, buffering, a full buffer or a cancelled context |
| `ApplyStage.DrainAdvances` | pipeline/apply_stage.go:319-347 | draining processes consecutive numbers, leaves exactly the numbers it has not passed, and stops without a failure only at one that has not arrived |
| `ApplyStage.ProcessAdvances` | pipeline/apply_stage.go:147-187 | the same for the call that brings the next number; a failure loses at most the one item it was about |
| `ApplyStage.ProcessedAcceptable` | pipeline/apply_stage.go:147-247 | every block a call processes decoded, is validated, passed the context validator that must exist and the ordered one if any, and was applied; in header-only mode the first two suffice and in trusted mode an undecoded block passes too; a rejection names a block that is not acceptable |
| `ApplyStage.AcceptableProcessed` | pipeline/apply_stage.go:147-247 | the next block, if it is acceptable and the context live, is processed |
| `ApplyStage.BufferedWithinLimit` | pipeline/apply_stage.go:178-187 | a block that is not next is buffered, nothing else moving, unless a limit is set and reached; the buffer never outgrows the limit |
| `Pipeline.GaplessInOrder` | pipeline/apply_stage.go:460-536 | at every moment of every run, for any arrival order, rejection and cancellation: what was processed is 0..n-1 in order, once each; the completed sequence never passes it and equals n when the runner is at its input; until the pipeline dies n is the first number that has not arrived |
| `Pipeline.OnlyAcceptable` | pipeline/apply_stage.go:191-247 | at every moment of every run every processed block was acceptable |
| `Pipeline.AcceptableGetsIn` | pipeline/apply_stage.go:147-247 | in a live pipeline the next block, if acceptable, is processed when it reaches the runner before cancellation |
| `Pipeline.DeadStaysDead` | pipeline/apply_stage.go:147-157 | cancellation and failure are sticky: nothing more is processed |
| `Pipeline.RunGrows` | pipeline/apply_stage.go:520-536 | along a run the processed log only grows and the completed sequence never falls |
| `Pipeline.FreshContextLeavesGap` | pipeline/apply_stage.go:147-187 | stickiness is needed: a context that came back to life would let a block be processed over a gap |
| `Pipeline.RoomForPending` | pipeline/pipeline.go:434-458 | the admission rule leaves room in the buffer for every number in flight |
| `Pipeline.CapacityExact` | pipeline/pipeline.go:434-458 | at every moment of every run a waiting submitter is let through if and only if at most the limit of accepted blocks are incomplete, or no limit is set |
| `Pipeline.OverflowUnreachable` | pipeline/pipeline.go:677-763 | no reachable state makes the apply stage report a full buffer |
| `Pipeline.FenceSound` | pipeline/pipeline.go:776-819 | a fence returns only when every block below the boundary it captured was processed |
| `Pipeline.FenceReached` | pipeline/pipeline.go:776-819 | a fence waits for nothing else: once those blocks have reached the runner its boundary is complete |
| `Pipeline.FenceReturnsAfter` | pipeline/pipeline.go:776-819 | over every run: when a fence returns, every block submitted before it was called has been processed |
| `Pipeline.FenceGetsThrough` | pipeline/pipeline.go:776-819 | and it waits for nothing else: once those blocks have reached the runner of a live pipeline that is back at its input the fence gets through from where it stands, whatever was submitted since |
| `Pipeline.NoLostWakeup` | pipeline/pipeline.go:839-845 | a fence parked although its boundary is complete can wake now, or the runner is between its store and its close and the close will wake it |
| `Pipeline.LockIsReleased` | pipeline/pipeline.go:776-819 | a fence that has to look again under the completion lock can do so, or whoever holds the lock can go to sleep and release it; cancellation can come at any time and is final |
| `Pipeline.WakesAfterClose` | pipeline/pipeline.go:776-845 | over every run: a fence that went to sleep can wake up if and only if the runner has closed the completion channel since |
| `Pipeline.GateMoves` | pipeline/pipeline.go:434-458 | the submission lock is never held for good: whoever holds it can go on or give up |
| `Pipeline.NoLostCapacity` | pipeline/pipeline.go:434-458 | the same for a submitter waiting for capacity |
| `Pipeline.StepKeepsInv` | pipeline/pipeline.go:677-763 | every step of submitters, workers, runner, fences and cancellation keeps the pipeline invariant |
| `Egress.Scheduler.Acquire` | muxer/egress.go:85-103 | takes the free turn or joins the queue of the protocol's class |
| `Egress.Scheduler.RemoveWaiter` | muxer/egress.go:129-139 | takes the waiter out of its queue, keeping the others in order, and tells whether it was there |
| `Egress.Scheduler.ReleaseTurn` | muxer/egress.go:142-164 | hands the turn to the specified waiter, or frees it |
| `EgressRuns.ExactlyOneOwner` | muxer/egress.go:85-164 | in every reachable state, shutdown hand-back included: exactly one owner when busy, none and empty queues when not |
| `EgressRuns.NoDeadlock` | muxer/egress.go:85-164 | in every reachable state with anybody inside somebody who does not wait can move, and shutdown can come at any time and lets every waiter go |
| `EgressRuns.StepMoves` | muxer/egress.go:129-164 | a waiter that stays moves up by exactly the one place that a step frees ahead of it |
| `EgressRuns.NoOvertaking` | muxer/egress.go:85-164 | within a class nobody overtakes: a later arrival is not granted before an earlier one that still waits |
| `EgressRuns.LeiosBound` | muxer/egress.go:142-164 | a Leios waiter at position p is granted within 9(p + 1) releases, whoever arrives or leaves |
| `EgressRuns.PraosBound` | muxer/egress.go:142-164 | a Praos waiter at position p sees at most p/8 + 1 Leios grants |
| `Ingress.IngressAccount.Extend` | muxer/muxer.go:468-477 | adds to the extension, not below zero, and recomputes the saturating limit |
| `Ingress.IngressAccount.SetBudget` | muxer/muxer.go:496-505 | sets or restores the budget and recomputes the limit |
| `Ingress.IngressAccount.Reserve` | muxer/muxer.go:529-545 | claims the cost exactly when it fits or is forced |
| `Ingress.IngressAccount.Release` | muxer/muxer.go:547-553 | returns the cost, not below zero |
| `Ingress.SegmentChannel.SetBudgetExtension` | muxer/muxer.go:647-658 | clamps the share and moves the account by the difference |
| `Ingress.SegmentChannel.Enqueue` | muxer/muxer.go:746-833 | one turn of the loop: admitted, refused, closed or waiting, with both states |
| `Ingress.AdmissionExact` | muxer/muxer.go:746-833 | admitted exactly when open and either within the channel limit and what is left of the account or first under backpressure; overflow only without backpressure; waiting only behind other segments |
| `Ingress.SegmentChannel.Dequeue` | muxer/muxer.go:870-882 | takes the oldest segment and returns its share |
| `Ingress.SegmentChannel.Finish` | muxer/muxer.go:838-860 | gives up what is queued and the extension |
| `IngressRuns.Conservation` | muxer/muxer.go:746-910 | over every run and all channels ever made, the account's cost, payload and extension are the sums of the channels' counters, which are those of their queues |
| `IngressRuns.QueueWithinOwnLimit` | muxer/muxer.go:746-833 | over every run a channel's queued payload is within the greatest limit it has had, unless it is a single segment that came first under backpressure |
| `IngressRuns.AccountMoves` | muxer/muxer.go:547-553 | each step moves the account by what it moves in its own channel; the floors at zero never bite |
| `IngressRuns.Overshoot` | muxer/muxer.go:529-545 | the retained cost passes the greatest limit so far, which is the limit when it was never lowered, by at most one forced segment per role |
| `IngressRuns.WithinLimitKept` | muxer/muxer.go:529-545 | a step that does not lower the limit keeps the retained cost within it but for the forced segments |
| `IngressRuns.OnlyThreeLower` | muxer/muxer.go:459-505 | only changing the budget, changing an extension and a forwarder that returns can lower the limit |
| `IngressRuns.LoweringExact` | muxer/muxer.go:468-505 | each of the three keeps the bound if and only if what is then retained still fits the new limit |
| `IngressRuns.WithdrawnExtension` | muxer/muxer.go:647-658 | an untouched budget is not enough: withdrawing an extension leaves more retained than the limit, with one segment of one byte and nothing forced |
| `IngressRuns.FinishedExtension` | muxer/muxer.go:838-860 | nor is leaving both setters alone: the forwarder of an idle role that returns takes its extension with it |
| `IngressRuns.LeftBehind` | muxer/muxer.go:838-860 | when every forwarder has returned, the account holds exactly what was accepted after that, and is back to zero if and only if nothing was |
| `IngressRuns.LateInTheGap` | muxer/muxer.go:968-997 | a segment is accepted late exactly between the forwarder's return and the closing of the channel |
| `IngressRuns.LeftForGood` | muxer/muxer.go:746-910 | what is queued when both have happened stays for good |
| `IngressRuns.SegmentLeftBehind` | muxer/muxer.go:968-997 | it happens: stop signals the forwarder before it closes the channel, and a segment arriving in between is never returned |
| `IngressRuns.FifoPrefix` | muxer/muxer.go:837-910 | each channel delivers, in order, a prefix of what it accepted; nothing is lost until its forwarder returns |
| `IngressRuns.ForwarderMoves` | muxer/muxer.go:837-910 | until it returns the forwarder is never stuck: what it holds can be delivered, else the oldest segment is delivered next, and on a closed and empty channel it can return |
| `Tachys.NewSelector` | consensus/tachys.go:56-104 | accepts exactly non-empty distributions of positive stakes and distinct identifiers with the stated total, and prepares the cumulative boundaries in order of identifier |
| `Tachys.OrderIndependent` | consensus/tachys.go:56-104 | the order in which the pools are given does not matter, neither for being accepted nor for the selector |
| `Tachys.PreparedProper` | consensus/tachys.go:70-103 | accepted boundaries increase from zero to the total, each interval as wide as its pool's stake |
| `Tachys.Search` | consensus/tachys.go:158-166 | the binary search stays in range and agrees with a linear scan; the sample lies in the chosen interval |
| `Tachys.LeaderForSample` | consensus/tachys.go:142-167 | an error exactly for an uninitialised selector or a sample that is not 32 bytes; otherwise the pool whose interval holds the sample |
| `Tachys.ExactlyOneLeader` | consensus/tachys.go:142-167 | every sample below 2^256 has exactly one winner, and the numbers of winning samples add up to 2^256 |
| `Tachys.FairShare` | consensus/tachys.go:142-167 | the number of samples with which a pool wins differs from stake * 2^256 / total by less than one |
| `Selection.OrdinaryPreorder` | consensus/selection.go:164-211 | Compare is a total preorder, nil tips and missing VRF outputs included |
| `Selection.CompareMeans` | consensus/selection.go:164-211 | of two tips the first is no worse exactly when it has more blocks, or as many and a VRF output if the other has one, no greater as a number |
| `Selection.DensityPreorder` | consensus/selection.go:258-325 | the density comparison is a total preorder, NaN and infinite densities included |
| `Selection.PreferPreorder` | consensus/selection.go:387-415 | so is CompareWithDensity for a fixed fork, tip height and configuration |
| `Selection.SelectPreferred` | consensus/selection.go:419-435 | nil for no candidates; otherwise the first candidate that no other beats, which is the chosen one in the sense of the next row |
| `Selection.FirstBestMeans` | consensus/selection.go:387-435 | the chosen candidate, without naming a comparison: no other is longer or denser as the depth of the fork demands, ties going to the better VRF output and then to the earlier candidate |
| `Selection.LongestIsChosen` | consensus/selection.go:164-211 | without density whoever is chosen is a tip if there is one, has the most blocks, and among the candidates of that length has a VRF output if any has, and the least |
| `Selection.MostBlocksIsChosen` | consensus/selection.go:258-325 | on a deep fork with a window whoever is chosen has the most blocks in the window, and among those is the ordinary best |
| `Selection.FirstBestUnique` | consensus/selection.go:419-435 | the candidate chosen is determined, not only up to equivalence |
| `Selection.PermutedChoice` | consensus/selection.go:419-435 | for any permutation of the candidates the choice is equivalent and beats the same tips |
| `Selection.ShallowIgnoresDensity` | consensus/selection.go:402-406 | on a fork of at most k blocks no density data changes a comparison, which is the ordinary one |
| `Selection.DeepChoice` | consensus/selection.go:387-435 | on a deeper fork the choice is a densest candidate, and the best of those by the ordinary rule |
| `Selection.DensestWins` | consensus/selection.go:387-435 | a candidate denser than every other is chosen, however short it is and wherever it stands |
| `Selection.RawComparisonCycles` | consensus/selection.go:291-297 | why NaN is mapped to zero: without it the comparison has cycles |
| `Selection.BlocksInWindow` | consensus/selection.go:565-578 | the loop counts exactly the blocks with fork < slot <= fork + window |
| `Selection.ProjectedMeans` | consensus/selection.go:300-325 | a legacy density is projected to the nearest count, zero for NaN and for nothing positive, at most 2^64 - 1 |

## Left out

- KES buffers and signatures are 32-byte words: a buffer whose length is not a multiple of 32 is not represented, and array update inside one word is not either.
- Ed25519, Blake2b, VRF and BLS internals are interpretations of symbolic terms or do not appear.
- `big.Int` destinations that alias an operand are not represented; the fixed-point functions return their results.
- The truncation error of the logarithm and the exponential is not bounded: it is proved which series and which convergent they compute and what rounding costs, not how close that is to the real functions; so x >= 0 is not derived from a key, and the results about x say so where they need it.
- EligibilityCache.NewLeaderEligibility: one call at a time; preparation outside the mutex is covered by what `Cache.Get` and `Cache.Put` keep separately, not by a step system.
- Two CBOR rules that the walkers leave to later decoding are not part of the grammar: chunks of an indefinite-length string may be any items, and an indefinite-length map may hold an odd number of them.
- The scanner's `processedBytes` counter, which nothing in the scanner depends on, is not a field of the model.
- MessageScanner.MessageScanner.Scan: the message type is a natural number; the check that it fits a `uint` cannot fail on a 64-bit target and is not represented.
- MessageScanner.ReadMessage: both calls see the same buffer and limit; the protocol's wait for agency between them, and the limit of the state it then finds, are not represented.
- Callbacks of the apply stage answer once per item, as fields of the item; their durations, panics inside the runner's own bookkeeping, the results channel and all metrics are not represented.
- Pipeline.OverflowUnreachable: covers items that reach the stage through Submit, and not items handed to an apply stage that is used on its own.
- The raw-CBOR byte budget of the pipeline, the decode and validate worker pools and the restart of a stage are not represented; workers may permute and drop items in any way.
- Liveness under a fair scheduler is not stated; progress appears as what is enabled in a state (`Pipeline.NoLostWakeup`) and as bounds on waiting (`EgressRuns.LeiosBound`).
- Ingress counters are unbounded integers; overflow of the running sums, metrics callbacks, depth reports and the carry of a suspended role are not represented.
- Ingress.SegmentChannel.Enqueue: states one turn of the loop; waiting for room is the return value `Wait`, after which the caller tries again.
- Pool identifiers are the numbers their 28 bytes spell; that byte order is numeric order is taken for granted. The library sort is an insertion sort with the same result on distinct identifiers.
- Chain densities are exact reals with NaN and the infinities; float rounding in the projection of a legacy density onto the window is not represented, nor is the way a tip derives its legacy density.
- The connection, socket and registration code, era decoders, ledger rules, and the tables of protocol versions are outside the model.
