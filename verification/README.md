# Confidential transaction client, modelled in Dafny

This project models the arithmetic core of `client.py`, the Python client of a
confidential-transaction contract. Values are hidden in Pedersen commitments
`C = bf·G + amount·H` on secp256k1. The client does three things:

- **`transfer`** spends unspent outputs (UTXOs) to a list of receivers. Every output gets a
  random blinding factor except the last. The last factor is solved so that the output
  blinding factors sum to the input ones mod n.
- **`proofRange`** proves that an amount commitment hides a small amount. It normalises
  the amount to `mantissa·10^exponent` and splits the mantissa (below 2^8) into eight bit
  commitments. Their blinding factors are balanced to `bf·10^-exponent` mod n. Each bit
  gets a two-branch ring.
- **`sign`** is a Borromean ring signature over those rings. It finds each ring's signer
  and chains challenges forward from the signer. The ring ends are joined into `e0`, the
  chains run from `e0` back up to each signer, and each signer closes with
  `s = (e·bf − k) mod n`.

Modelling choices:

- **Points.** A point is its coefficient pair `(g, h)` mod n, meaning `g·G + h·H` (module
  `Group`). Every point the client builds is such a combination, including
  `iaH[i] = −(2^i·H)` and `R = (k·G)·x⁻¹`. Equal pairs denote equal curve points. The
  model also takes distinct pairs to be distinct points. On the curve H = κ·G for some
  unknown κ, so this holds only as long as nobody uses κ. Two things rest on it: the
  CommitmentMismatch direction of RangeProof.ProveRange's "iff", and the `Oracle`'s `x`,
  `y` and `invX` being functions of the pair.
- **Foreign primitives.** The coordinates `x()`/`y()`, `inverse_mod(P.x(), n)`, Keccak-256
  and the ABI encoding are fields of an `Oracle` value. Only the client's own arithmetic
  around them is modelled: reduction mod n, and the low 20 bytes for an address
  (module `Challenge`).
- **Randomness.** `secrets.randbelow(n) + 1` draws are parameters, indexed by the output,
  bit, ring or branch that consumes them. The blinding-factor draws (`TransferDraws.factors`,
  `RangeDraws.sub`) are constrained to `[1, n]`. The signer's draws (`RangeDraws.k`,
  `RangeDraws.s`, and `kDraws`/`sDraws` of Borromean.Sign) may be any naturals, which is
  more general than the source.
- **Failures.** The asserts at client.py:98, 99, 122, 152 and 235 and the `IndexError` of a
  missing amount become a `Failure` of `Results.Result`. The assert at client.py:151 is
  modelled in its corrected form, taken mod n (see Findings). That form always holds, so
  it has no `Failure`.

The modules are:

| module | contents |
|---|---|
| `ModArith` | facts about Euclidean remainder |
| `Group` | points, the order N, commitments, iaH, 10^-e mod N |
| `Challenge` | the hash and the address |
| `Commitments` | running sums and the balancing factor |
| `Borromean` | `sign` |
| `RangeProof` | `proofRange` |
| `Transfer` | `transfer` |

Each loop of the source is a method with a `for`/`while` loop. Its invariants are named
predicates (`SplitFrom`, `Opened`, `Closed`, `Made`, …), and step lemmas keep them.

## Model

| member | source | states |
|---|---|---|
| Group.CommitIsCombination | client.py:91-92 | the commitment is the point bf·G + amount·H |
| Group.CommitAdd | client.py:150 | the sum of two commitments commits to the summed factors and summed amounts |
| Group.CommitMul | client.py:152 | k times a commitment commits to k·bf and k·amount |
| Group.CommitOffset | client.py:35-39 | adding iaH[i] = −(2^i·H) to a commitment takes 2^i off its amount and keeps its factor |
| Group.Commit | client.py:92 | the Pedersen commitment bf·G + amount·H as its coefficient pair; a definition, whose meaning CommitIsCombination states (also client.py:145) |
| Group.IaH | client.py:35-39 | the precomputed offset iaH[i] = −(2^i·H); a definition, whose effect CommitOffset states |
| Group.Inv10IsInverse | client.py:125 | the constant Inv10 is the inverse of 10 mod n |
| Group.Pow10Inverse | client.py:125 | the result is a residue below n, and 10^e times it is 1 mod n |
| Group.Pow10InverseUnique | client.py:125 | any residue inverting 10^e equals Pow10Inverse(e), so it is what pow(10**e, -1, n) returns |
| Challenge.Hash | client.py:239-240 | a challenge is below n |
| Challenge.Address | client.py:192 | an address is below 2^160 (20 bytes) |
| Commitments.SumAppend | client.py:77 | the sum of xs + [x] is the sum of xs plus x |
| Commitments.RunningSum | client.py:90 | adding a factor to a sum kept mod n keeps it equal to the sum of all factors mod n |
| Commitments.BalancingFactor | client.py:87-89 | the last factor, (n − sum) + target or target − sum when that exceeds n, is at least 1, is at most n for a reduced target, and brings the sum to the target mod n |
| Commitments.SumOfCommitments | client.py:150 | the sum of commitments commits to the sum of the factors and the sum of the amounts |
| RangeProof.Normalized | client.py:114-121 | mantissa·10^exponent == amount; a positive amount's mantissa is not a multiple of 10; amount 0 gives (0, 0) |
| RangeProof.NormalizationUnique | client.py:119-121 | any m·10^e == amount with m not a multiple of 10 is the normal form |
| RangeProof.Normalize | client.py:114-121 | the loop computes the normal form of the amount |
| RangeProof.BitRing | client.py:145-149 | the ring literal for bit b: [(Ci, sbf if the bit is clear else 0), (Ci + iaH[b], sbf if the bit is set else 0)] with Ci = Commit(sbf, subAmount); a definition, whose properties BitRingSigner states |
| RangeProof.BitRingSigner | client.py:146-149 | a bit ring has a signer: branch 0 for a clear bit, branch 1 for a set bit; the other branch holds no secret; both points have G-coefficient sbf; the signer's point is sbf·G |
| RangeProof.SplitStep | client.py:131-135 | taking bit i off the rest keeps every sub-amount 0 or 2^i, keeps the rest below 2^i, and keeps rest + Σ sub-amounts == mantissa |
| RangeProof.RingsStep | client.py:146-149 | prepending bit i's ring keeps ring t on bit t and every factor but bit 0's drawn |
| RangeProof.SumsStep | client.py:137-145 | the running factor sum stays Σ factors mod n (the target once bit 0 is done), and the sub-commitment sum stays the commitment to the sums |
| RangeProof.BitsDone | client.py:130-150 | after bit 0 the rest is 0, the sub-amounts sum to the mantissa, and the commitment sum is Commit(target, mantissa) |
| RangeProof.BuildRings | client.py:125-150 | eight rings, ring b built for bit b; sub-amounts 0 or 2^b summing to the mantissa; factors ≥ 1, drawn except bit 0's; factor sum ≡ target; Σ sub-commitments == Commit(target, mantissa) |
| RangeProof.BitRingsSign | client.py:146-149 | every ring of the bit layout has a signer that opens |
| RangeProof.BitRingPoints | client.py:146-149 | the ring points are [Ci, Ci + iaH[i]] rebuilt from the sub-commitments |
| RangeProof.Pow10Cancels | client.py:125 | 10^e · (x · 10^-e) ≡ x (mod n) |
| RangeProof.RangeCheckAsWritten | client.py:151 | the assert as written: (10^e · subSum) mod n equals the blinding factor itself, unreduced; a definition, which RangeCheckAsWrittenRejectsN and RangeCheckHolds characterise |
| RangeProof.RangeCheck | client.py:151 | the assert as intended: (10^e · subSum) mod n equals the blinding factor mod n; a definition, which RangeCheckHolds proves always holds in proofRange |
| RangeProof.RangeCheckAsWrittenRejectsN | client.py:151 | a blinding factor of n, reachable from transfer, fails the check as written |
| RangeProof.RangeCheckHolds | client.py:151 | factors summing to bf·10^-e pass the check mod n for every bf, and the check as written exactly when bf < n |
| RangeProof.ScaledCommitment | client.py:152 | 10^e · Commit(bf·10^-e, mantissa) == Commit(bf, amount) when mantissa·10^e == amount |
| RangeProof.VerifiesRange | client.py:154-155 | the contract-side check of an encoded range proof, not a line of the client: exactly eight sub-commitments, 10^exponent·ΣCi == C, and the signature verifies over the rings [Ci, Ci + iaH[i]] |
| RangeProof.ProveRange | client.py:112-155 | with the check at line 151 taken mod n, succeeds iff the mantissa fits in 8 bits and C opens to (bf, amount); otherwise fails with the matching error; on success the exponent is the normalised one and the proof verifies for C |
| Borromean.SignerIndex | client.py:187-195 | the recorded signer is a branch with bf ≠ 0, and no later branch has one |
| Borromean.ChainStep | client.py:204-207 | the next challenge is a hash value below n |
| Borromean.OpeningStep | client.py:190-193 | the signer's chameleon-hash challenge is below n |
| Borromean.ClosingResponse | client.py:230-235 | with Ci = bf·G, the response (e·bf − k) mod n makes the recomputed challenge equal the signer's opening challenge |
| Borromean.FirstXs | client.py:175 | one x-coordinate per ring |
| Borromean.FirstYs | client.py:176 | one y-coordinate per ring |
| Borromean.MessageOf | client.py:177 | the message hash is below n |
| Borromean.Chain | client.py:204-207 | the verifier's recomputation of a ring's challenges, not a line of the client: starting from e at branch j, each branch applies ChainStep with its published response, up to branch hi; a definition, which Verifies and the third ensures of Sign use |
| Borromean.LinksFollowChain | client.py:199-207 | challenges linked branch by branch are what the chain recomputes from the first one |
| Borromean.RingEndsOf | client.py:209-210 | one final challenge per ring |
| Borromean.Verifies | client.py:209-212 | the verifier's check of a Borromean signature, not a line of the client: one response per branch; x[] and y[] are the first branches' coordinates; each ring's chain, recomputed from e0 through the published responses, ends at a challenge, and those ring ends hash back to e0 |
| Borromean.OpenRing | client.py:183-195 | the opening challenge is recorded after every branch with bf ≠ 0, and the signer index is the last such branch |
| Borromean.ChainRange | client.py:199-207 | branches lo..hi−1 get their drawn responses and link their challenges; nothing outside the range changes |
| Borromean.OpenRings | client.py:179-195 | every ring is opened at its signer |
| Borromean.ForwardPass | client.py:197-207 | every ring is linked from its signer to its end with drawn responses |
| Borromean.BackwardPass | client.py:214-224 | every ring starts at e0 and is linked up to its signer; the ring ends are unchanged |
| Borromean.CloseStep | client.py:226-235 | a response that passes the signer's challenge on closes the ring |
| Borromean.CloseRings | client.py:226-235 | on success every ring is closed with s = (e·bf − k) mod n; if every signer opens it succeeds; the only failure is the challenge mismatch |
| Borromean.ClosedRingsVerify | client.py:209-237 | closed rings give a signature whose recomputed ring ends hash back to e0, with draws at non-signers and closing responses at signers |
| Borromean.Sign | client.py:173-237 | on success the signature verifies, non-signers answer with their draws, and each signer answers (e·bf − k) mod n; it succeeds whenever every signer opens |
| Transfer.SumOfOutputs | client.py:91-93 | the sum of the outputs' commitments commits to their summed factors and amounts |
| Transfer.BalancedCommitments | client.py:98-99 | outputs that agree with the inputs on factor and amount sums mod n have the same commitment sum |
| Transfer.ProveOutput | client.py:95-96 | a range proof of an output succeeds iff its mantissa fits in 8 bits, and then verifies for the output's commitment |
| Transfer.NextFactor | client.py:84-89 | the next output's factor lies in [1, n] |
| Transfer.OutputsStep | client.py:93 | appending an output keeps the outputs opening to amounts[i] under factors in [1, n] |
| Transfer.ProofsStep | client.py:96 | appending a verifying proof keeps proof i verifying for output i |
| Transfer.OutputStep | client.py:84-93 | serving a receiver without a proof keeps the loop state |
| Transfer.ProvedOutputStep | client.py:84-96 | serving a receiver with a verifying proof keeps the loop state |
| Transfer.ServeReceiver | client.py:83-96 | one receiver: fails only for a missing amount or an oversized mantissa, else extends the outputs and proofs keeping the loop state |
| Transfer.MakeOutputs | client.py:79-96 | succeeds iff there are enough amounts and every one is provable when there are several receivers; then one output per receiver, factor sum ≡ input sum, one verifying proof per output |
| Transfer.Transfer | client.py:75-109 | with line 151 taken mod n in each range proof, succeeds iff amounts suffice, are provable when needed, the factor sums can agree and the amounts balance; outputs in receiver order carry amounts[i] and open; factor sums agree mod n; one proof per output iff there are several receivers |
| Transfer.TransferBalances | client.py:98-99 | a successful transfer's output commitments sum to its input commitments |

## Left out

- The derivation of H and H_v (client.py:14-32) relies on secp256k1 arithmetic and square
  roots in a foreign library. The model takes H as a second generator, and
  `iaH[i] = −(2^i·H)` as a definition.
- Elliptic-curve arithmetic, `numbertheory.inverse_mod`, Keccak-256 and the ABI encoding are
  foreign code. They are replaced by the coefficient-pair model and the uninterpreted
  `Oracle` fields. The ValueError `inverse_mod` raises for an x-coordinate ≡ 0 (mod n),
  where no inverse exists, is not modelled.
- Borromean.Sign and RangeProof.ProveRange: the source raises when it reaches the point at
  infinity, which has no coordinates and no byte encoding. The model gives that point
  coordinates and a digest through the `Oracle`, so these runs succeed. The point arises
  when a sub-blinding draw of n gives a clear bit's Ci = n·G = INFINITY (`x()` fails at
  client.py:175-177), or a set bit's branch 1 = INFINITY (`inverse_mod` fails at
  client.py:191 or 205). It also arises when bit 0's balancing factor is ≡ 0 (mod n), or
  when a `k` draw of n makes R = INFINITY (`to_bytes()` fails at client.py:192).
  Transfer.ProveOutput, Transfer.ServeReceiver, Transfer.MakeOutputs and Transfer.Transfer
  inherit this through ProveRange: with two receivers and a `RangeDraws.sub` draw of n on a
  clear bit, the source raises while their "succeeds iff" contracts report success.
- RangeProof.ProveRange: the assert at client.py:151 is modelled mod n, as the Findings row
  proposes. A blinding factor of exactly n therefore succeeds where the source raises.
  Transfer.ProveOutput, Transfer.ServeReceiver, Transfer.MakeOutputs and Transfer.Transfer
  inherit this through ProveRange. Their "succeeds iff" contracts describe the corrected
  program. RangeProof.RangeCheckHolds states when the check as written passes: exactly
  when bf < n. The same members also take the normalisation at client.py:119-121 as exact
  (see RangeProof.Normalize below). For amount = 10^24 the source's first float quotient
  rounds to 99999999999999991611392.0. That value leaves remainder 2 mod 10, so the loop
  stops at exponent 1 and the assert at client.py:122 fails. The model normalises the same
  amount to (1, 24) and succeeds. Their "succeeds iff" contracts assume the quotients are
  representable, which holds for every mantissa below 2^8 up to exponent 20.
- The config encoding (client.py:42-43), the `print` output, `deposit`, `withdraw` and the
  playground (client.py:242-255) are I/O and demo glue.
- The proof encoding at client.py:155 is an ABI call. `Proof` keeps its contents: the
  exponent, e0, x[], y[] and s[][].
- RangeProof.Normalize: only natural-number amounts are modelled.
  - The float path for non-integer amounts and negative exponents (client.py:116-118) is
    floating point.
  - The float division `amount /= 10` (client.py:120) is modelled as exact integer
    division. Python's `/` rounds correctly, so the source agrees with exact division
    whenever every quotient amount/10^j along the loop is exactly representable as a
    double. For an 8-bit mantissa this holds up to exponent 20, since 255·5^19 < 2^53. For
    example, 1.42e18 normalises exactly to (142, 16). Beyond that the source can diverge.
  - Negative amounts are not modelled.
- The quality of `secrets` randomness and the order in which draws are consumed are not
  modelled. Draws are parameters indexed by position. A draw the client overwrites (the
  last output's factor, bit 0's factor) is taken and ignored, as in the source.
- Borromean.Sign requires every ring to hold a branch with a non-zero blinding factor.
  `proofRange` always builds such rings (RangeProof.BitRingSigner). A ring without a
  signer would hit `defaultdict` defaults and insertion-order effects in the source.
- The uint8 encoding of ring and branch indices in the hash is kept as plain naturals.
  `proofRange` only uses indices below 8.
- Transfer.Transfer: as at client.py:99, the amount check sums every entry of `amounts`,
  including any beyond the number of receivers. TransferBalances therefore assumes one
  amount per output.

## Findings

| source | as written | input that shows it | evidently intended | confidence | as-written member | corrected member |
|---|---|---|---|---|---|---|
| client.py:151 | `(10**exponent)*subBlindingFactorsSum % n == blindingFactor` compares a residue with an unreduced blinding factor | `transfer` to two receivers from inputs whose factors sum to 5, with first output draw 5: the last factor is (n − 5) + 5 = n, and `proofRange` of that output fails the assert (a draw of n, which `randbelow(n) + 1` allows, does the same) | compare with `blindingFactor % n`, which holds for every factor since the sub-factors sum to bf·10^-e mod n | not executed; low probability per run (about 1/n) | RangeProof.RangeCheckAsWrittenRejectsN | RangeProof.RangeCheckHolds |
