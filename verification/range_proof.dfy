/** `proofRange`: an amount is normalised to mantissa·10^exponent, the mantissa (below 2^8)
    is split into eight bit commitments whose blinding factors sum to bf·10^-exponent, and
    each bit gets a two-branch ring that the Borromean signer signs. */
module RangeProof {
  import opened ModArith
  import opened Group
  import opened Challenge
  import opened Results
  import opened Commitments
  import opened Borromean

  /** The number of bits a mantissa may have. */
  const Bits: nat := 8

  datatype Normalization = Normalization(mantissa: nat, exponent: nat)

  /** An amount with its trailing decimal zeros stripped into the exponent. */
  function Normalized(amount: nat): (r: Normalization)
    ensures r.mantissa * Pow10(r.exponent) == amount
    ensures amount > 0 ==> r.mantissa % 10 != 0
    ensures amount == 0 ==> r == Normalization(0, 0)
    decreases amount
  {
    if amount > 0 && amount % 10 == 0 then
      var r' := Normalized(amount / 10);
      assert r'.mantissa * Pow10(r'.exponent + 1) == 10 * (r'.mantissa * Pow10(r'.exponent));
      Normalization(r'.mantissa, r'.exponent + 1)
    else
      Normalization(amount, 0)
  }

  /** The normal form is the only way to write a positive amount as m·10^e with m not a
      multiple of 10. */
  lemma {:induction false} NormalizationUnique(amount: nat, m: nat, e: nat)
    requires amount > 0 && m * Pow10(e) == amount && m % 10 != 0
    ensures Normalized(amount) == Normalization(m, e)
    decreases e
  {
    if e == 0 {
      assert amount == m;
    } else {
      var rest := m * Pow10(e - 1);
      assert amount == 10 * rest;
      DivModUnique(amount, rest, 0, 10);
      NormalizationUnique(rest, m, e - 1);
    }
  }

  /** The normalisation loop of client.py:113-121, integer amounts only. */
  method Normalize(amount: nat) returns (mantissa: nat, exponent: nat)
    ensures Normalization(mantissa, exponent) == Normalized(amount)
  {
    mantissa, exponent := amount, 0;
    if mantissa > 0 {
      while mantissa % 10 == 0 && mantissa != 0
        invariant Normalized(amount) == Normalization(Normalized(mantissa).mantissa, Normalized(mantissa).exponent + exponent)
        decreases mantissa
      {
        mantissa := mantissa / 10;
        exponent := exponent + 1;
      }
    }
  }

  /** The ring for bit b: branch 0 is the sub-commitment Ci itself, branch 1 is Ci - 2^b·H.
      The sub-blinding factor is placed on branch 0 when the bit is clear and on branch 1
      when it is set. */
  function BitRing(b: nat, subAmount: nat, subFactor: nat): Ring {
    var ci := Commit(subFactor, subAmount);
    [ Branch(ci, if subAmount == 0 then subFactor else 0),
      Branch(Add(ci, IaH(b)), if subAmount != 0 then subFactor else 0) ]
  }

  /** Exactly one branch of a bit ring holds the secret: branch 0 for a clear bit, branch 1
      for a set bit; both points have G-coefficient sbf, and the secret branch is sbf·G. */
  lemma BitRingSigner(b: nat, subAmount: nat, subFactor: nat)
    requires subAmount == 0 || subAmount == Pow2(b)
    requires subFactor >= 1
    ensures var ring := BitRing(b, subAmount, subFactor);
      && HasSigner(ring)
      && SignerIndex(ring) == (if subAmount == 0 then 0 else 1)
      && ring[1 - SignerIndex(ring)].bf == 0
      && ring[0].point.g == ring[1].point.g == subFactor % N
      && SignerOpens(ring)
  {
    var ring := BitRing(b, subAmount, subFactor);
    CommitOffset(subFactor, subAmount, b);
    if subAmount == 0 {
      assert ring[0].bf != 0;
      assert SignerIndex(ring[..1]) == 0;
    } else {
      assert ring[1].bf != 0;
    }
  }

  /** The first branch point of each ring: the sub-commitments. */
  function SubCommitments(rings: seq<Ring>): (cs: seq<Point>)
    requires forall b :: 0 <= b < |rings| ==> |rings[b]| > 0
    ensures |cs| == |rings|
    ensures forall b :: 0 <= b < |rings| ==> cs[b] == rings[b][0].point
  {
    seq(|rings|, b requires 0 <= b < |rings| => rings[b][0].point)
  }

  /** The rings a verifier rebuilds from the sub-commitments: [Ci, Ci + iaH[i]] for bit i. */
  function RangeRings(cs: seq<Point>): (rings: seq<seq<Point>>)
    ensures |rings| == |cs|
    ensures forall b :: 0 <= b < |cs| ==> rings[b] == [cs[b], Add(cs[b], IaH(b))]
  {
    seq(|cs|, b requires 0 <= b < |cs| => [cs[b], Add(cs[b], IaH(b))])
  }

  /** Bits i..7 of the mantissa are split off into subAmounts (bit i + t at index t),
      leaving rest, which is below 2^i. */
  predicate SplitFrom(i: nat, mantissa: nat, rest: int, subAmounts: seq<nat>) {
    && i + |subAmounts| == Bits
    && (forall t :: 0 <= t < |subAmounts| ==> subAmounts[t] == 0 || subAmounts[t] == Pow2(i + t))
    && 0 <= rest < Pow2(i)
    && rest + Sum(subAmounts) == mantissa
  }

  /** Rings and factors for bits i..7: ring t belongs to bit i + t, and every factor is
      non-zero and, except at bit 0, drawn. */
  predicate RingsFrom(i: nat, subDraws: seq<nat>, rings: seq<Ring>, subAmounts: seq<nat>, subFactors: seq<nat>)
    requires |subDraws| == Bits
  {
    && |rings| == |subAmounts| == |subFactors| == Bits - i
    && (forall t :: 0 <= t < |rings| ==> rings[t] == BitRing(i + t, subAmounts[t], subFactors[t]))
    && (forall t :: 0 <= t < |rings| ==> subFactors[t] >= 1)
    && (forall t :: 0 <= t < |rings| && i + t >= 1 ==> subFactors[t] == subDraws[i + t])
  }

  /** Taking bit i off the rest keeps the split. */
  lemma SplitStep(i: nat, mantissa: nat, rest: int, subAmounts: seq<nat>, subAmount: nat, rest': int)
    requires SplitFrom(i + 1, mantissa, rest, subAmounts)
    requires if rest >= Pow2(i) then subAmount == Pow2(i) && rest' == rest - Pow2(i)
             else subAmount == 0 && rest' == rest
    ensures SplitFrom(i, mantissa, rest', [subAmount] + subAmounts)
  {
    SumPrepend(subAmount, subAmounts);
    var s' := [subAmount] + subAmounts;
    forall t | 0 <= t < |s'|
      ensures s'[t] == 0 || s'[t] == Pow2(i + t)
    {
      if t > 0 {
        assert s'[t] == subAmounts[t - 1];
      }
    }
  }

  /** Prepending the ring of bit i keeps the ring layout. */
  lemma RingsStep(i: nat, subDraws: seq<nat>, rings: seq<Ring>, subAmounts: seq<nat>, subFactors: seq<nat>, subAmount: nat, subFactor: nat)
    requires |subDraws| == Bits && i < Bits
    requires RingsFrom(i + 1, subDraws, rings, subAmounts, subFactors)
    requires subFactor >= 1 && (i >= 1 ==> subFactor == subDraws[i])
    ensures RingsFrom(i, subDraws, [BitRing(i, subAmount, subFactor)] + rings, [subAmount] + subAmounts, [subFactor] + subFactors)
  {
    var rings', amounts', factors' := [BitRing(i, subAmount, subFactor)] + rings, [subAmount] + subAmounts, [subFactor] + subFactors;
    forall t | 1 <= t < |rings'|
      ensures rings'[t] == BitRing(i + t, amounts'[t], factors'[t])
      ensures factors'[t] >= 1 && factors'[t] == subDraws[i + t]
    {
      assert rings'[t] == rings[t - 1] && amounts'[t] == subAmounts[t - 1] && factors'[t] == subFactors[t - 1];
    }
  }

  /** The running sums after bits i..7: the factor sum mod n, which has reached the target
      once bit 0 is done, and the sum of the sub-commitments. */
  predicate SumsFrom(i: nat, target: nat, subSum: nat, commitSum: Point, subAmounts: seq<nat>, subFactors: seq<nat>) {
    && subSum == Sum(subFactors) % N
    && (i == 0 ==> subSum == target % N)
    && commitSum == Commit(Sum(subFactors), Sum(subAmounts))
  }

  /** Adding bit i's factor and commitment to the running sums. */
  lemma SumsStep(i: nat, target: nat, subSum: nat, commitSum: Point, subAmounts: seq<nat>, subFactors: seq<nat>, subAmount: nat, subFactor: nat)
    requires SumsFrom(i + 1, target, subSum, commitSum, subAmounts, subFactors)
    requires i == 0 ==> subFactor == BalancingFactor(subSum, target)
    ensures SumsFrom(i, target, (subSum + subFactor) % N, Add(commitSum, Commit(subFactor, subAmount)), [subAmount] + subAmounts, [subFactor] + subFactors)
  {
    AddModLeft(Sum(subFactors), subFactor, N);
    SumPrepend(subFactor, subFactors);
    SumPrepend(subAmount, subAmounts);
    CommitAdd(Sum(subFactors), Sum(subAmounts), subFactor, subAmount);
  }

  /** Once all eight bits are done, the layout and sums are complete. */
  lemma BitsDone(mantissa: nat, target: nat, subDraws: seq<nat>, rest: int, rings: seq<Ring>, subSum: nat, commitSum: Point, subAmounts: seq<nat>, subFactors: seq<nat>)
    requires |subDraws| == Bits
    requires SplitFrom(0, mantissa, rest, subAmounts)
    requires RingsFrom(0, subDraws, rings, subAmounts, subFactors)
    requires SumsFrom(0, target, subSum, commitSum, subAmounts, subFactors)
    ensures |rings| == |subAmounts| == |subFactors| == Bits
    ensures forall b :: 0 <= b < Bits ==> |rings[b]| == 2
    ensures forall b :: 0 <= b < Bits ==> rings[b] == BitRing(b, subAmounts[b], subFactors[b])
    ensures forall b :: 0 <= b < Bits ==> subAmounts[b] == 0 || subAmounts[b] == Pow2(b)
    ensures Sum(subAmounts) == mantissa
    ensures forall b :: 0 <= b < Bits ==> subFactors[b] >= 1
    ensures forall b :: 1 <= b < Bits ==> subFactors[b] == subDraws[b]
    ensures subSum == Sum(subFactors) % N == target % N
    ensures commitSum == SumPoints(SubCommitments(rings)) == Commit(target, mantissa)
    ensures rest == 0
  {
    assert rest == 0;
    forall b | 0 <= b < Bits
      ensures |rings[b]| == 2
    {
      assert rings[b] == BitRing(b, subAmounts[b], subFactors[b]);
    }
    SumOfCommitments(SubCommitments(rings), subFactors, subAmounts);
    CommitCongruent(Sum(subFactors), mantissa, target, mantissa);
  }

  /** The bit split and sub-blinding balancing loop (client.py:125-149): bit i of the
      mantissa gets ring i, every factor but bit 0's is drawn, and bit 0's closes the sum of
      factors onto the target mod n. */
  method BuildRings(mantissa: nat, target: nat, subDraws: seq<nat>)
    returns (rings: seq<Ring>, subSum: nat, commitSum: Point, ghost subAmounts: seq<nat>, ghost subFactors: seq<nat>)
    requires mantissa < Pow2(Bits)
    requires |subDraws| == Bits && forall b :: 0 <= b < Bits ==> subDraws[b] >= 1
    ensures |rings| == |subAmounts| == |subFactors| == Bits
    ensures forall b :: 0 <= b < Bits ==> |rings[b]| == 2
    ensures forall b :: 0 <= b < Bits ==> rings[b] == BitRing(b, subAmounts[b], subFactors[b])
    ensures forall b :: 0 <= b < Bits ==> subAmounts[b] == 0 || subAmounts[b] == Pow2(b)
    ensures Sum(subAmounts) == mantissa
    ensures forall b :: 0 <= b < Bits ==> subFactors[b] >= 1
    ensures forall b :: 1 <= b < Bits ==> subFactors[b] == subDraws[b]
    ensures subSum == Sum(subFactors) % N == target % N
    ensures commitSum == SumPoints(SubCommitments(rings)) == Commit(target, mantissa)
  {
    rings, subSum, commitSum := [], 0, Infinity;
    subAmounts, subFactors := [], [];
    var rest := mantissa;
    for i := Bits downto 0
      invariant SplitFrom(i, mantissa, rest, subAmounts)
      invariant RingsFrom(i, subDraws, rings, subAmounts, subFactors)
      invariant SumsFrom(i, target, subSum, commitSum, subAmounts, subFactors)
    {
      var subAmount := Pow2(i);
      ghost var rest0 := rest;
      if rest >= subAmount {
        rest := rest - subAmount;
      } else {
        subAmount := 0;
      }
      SplitStep(i, mantissa, rest0, subAmounts, subAmount, rest);
      var subFactor := subDraws[i];
      if i == 0 {
        subFactor := BalancingFactor(subSum, target);
      }
      SumsStep(i, target, subSum, commitSum, subAmounts, subFactors, subAmount, subFactor);
      RingsStep(i, subDraws, rings, subAmounts, subFactors, subAmount, subFactor);
      subSum := (subSum + subFactor) % N;
      var ci := Commit(subFactor, subAmount);
      var ring := [Branch(ci, if subAmount == 0 then subFactor else 0),
                   Branch(Add(ci, IaH(i)), if subAmount != 0 then subFactor else 0)];
      assert ring == BitRing(i, subAmount, subFactor);
      rings := [ring] + rings;
      commitSum := Add(commitSum, ci);
      subAmounts := [subAmount] + subAmounts;
      subFactors := [subFactor] + subFactors;
    }
    BitsDone(mantissa, target, subDraws, rest, rings, subSum, commitSum, subAmounts, subFactors);
  }

  /** Every ring of the bit layout has a signer that opens. */
  lemma BitRingsSign(rings: seq<Ring>, subAmounts: seq<nat>, subFactors: seq<nat>)
    requires |rings| == |subAmounts| == |subFactors|
    requires forall b :: 0 <= b < |rings| ==> rings[b] == BitRing(b, subAmounts[b], subFactors[b])
    requires forall b :: 0 <= b < |rings| ==> (subAmounts[b] == 0 || subAmounts[b] == Pow2(b)) && subFactors[b] >= 1
    ensures forall b :: 0 <= b < |rings| ==> HasSigner(rings[b]) && SignerOpens(rings[b])
  {
    forall b | 0 <= b < |rings|
      ensures HasSigner(rings[b]) && SignerOpens(rings[b])
    {
      BitRingSigner(b, subAmounts[b], subFactors[b]);
    }
  }

  /** The points of the bit layout are the rings a verifier rebuilds from the
      sub-commitments. */
  lemma BitRingPoints(rings: seq<Ring>, subAmounts: seq<nat>, subFactors: seq<nat>)
    requires |rings| == |subAmounts| == |subFactors|
    requires forall b :: 0 <= b < |rings| ==> rings[b] == BitRing(b, subAmounts[b], subFactors[b])
    ensures forall b :: 0 <= b < |rings| ==> |rings[b]| == 2
    ensures RingPoints(rings) == RangeRings(SubCommitments(rings))
  {
    var cs := SubCommitments(rings);
    forall b | 0 <= b < |rings|
      ensures Points(rings[b]) == [cs[b], Add(cs[b], IaH(b))]
    {
      assert |Points(rings[b])| == 2;
    }
  }

  /** The check at client.py:151 as written: the scaled sum of sub-blinding factors is
      compared with the blinding factor itself, which may be n. */
  predicate RangeCheckAsWritten(exponent: nat, subSum: int, blindingFactor: int) {
    (Pow10(exponent) * subSum) % N == blindingFactor
  }

  /** The check as intended: both sides taken mod n. */
  predicate RangeCheck(exponent: nat, subSum: int, blindingFactor: int) {
    (Pow10(exponent) * subSum) % N == blindingFactor % N
  }

  /** 10^e · (x · 10^-e) ≡ x (mod n). */
  lemma Pow10Cancels(e: nat, x: int)
    ensures (Pow10(e) * (x * Pow10Inverse(e))) % N == x % N
  {
    InverseCancels(Pow10(e), Pow10Inverse(e), x, N);
  }

  /** A blinding factor of exactly n, which a transfer produces for its last output when
      (n - outSum) + inSum == n (input factor sum 5, first output draw 5, two outputs), fails
      the check as written, whatever the sub-blinding factors are. */
  lemma RangeCheckAsWrittenRejectsN(exponent: nat, subSum: int)
    ensures BalancingFactor(5, 5) == N
    ensures !RangeCheckAsWritten(exponent, subSum, BalancingFactor(5, 5))
  {
  }

  /** Sub-blinding factors summing to bf·10^-e mod n pass the check mod n for every
      blinding factor, and the check as written exactly when bf < n. */
  lemma RangeCheckHolds(exponent: nat, subSum: int, blindingFactor: nat)
    requires subSum % N == (blindingFactor * Pow10Inverse(exponent)) % N
    ensures RangeCheck(exponent, subSum, blindingFactor)
    ensures RangeCheckAsWritten(exponent, subSum, blindingFactor) <==> blindingFactor < N
  {
    ScaledResidue(Pow10(exponent), Pow10Inverse(exponent), subSum, blindingFactor, N);
    if blindingFactor < N {
      DivModUnique(blindingFactor, 0, blindingFactor, N);
    }
  }

  /** Scaling the sub-commitment sum Commit(bf·10^-e, mantissa) by 10^e gives
      Commit(bf, amount) when mantissa·10^e == amount (client.py:152). */
  lemma ScaledCommitment(exponent: nat, blindingFactor: nat, mantissa: nat, amount: nat)
    requires mantissa * Pow10(exponent) == amount
    ensures Mul(Pow10(exponent), Commit(blindingFactor * Pow10Inverse(exponent), mantissa)) == Commit(blindingFactor, amount)
  {
    var p, target := Pow10(exponent), blindingFactor * Pow10Inverse(exponent);
    CommitMul(p, target, mantissa);
    assert p * mantissa == amount;
    assert (p * target) % N == blindingFactor % N by {
      Pow10Cancels(exponent, blindingFactor);
    }
    CommitCongruent(p * target, amount, blindingFactor, amount);
  }

  /** The randomness one range proof consumes: a sub-blinding factor per bit (bit 0's is
      drawn and then replaced), the signer's k per ring and a response per branch. */
  datatype RangeDraws = RangeDraws(sub: seq<nat>, k: seq<nat>, s: seq<seq<nat>>)

  /** Draws of the shape proofRange uses, each sub-blinding factor in [1, n] as
      randbelow(n) + 1 yields. */
  predicate ValidRangeDraws(d: RangeDraws) {
    && |d.sub| == Bits && (forall b :: 0 <= b < Bits ==> 1 <= d.sub[b] <= N)
    && |d.k| == Bits
    && |d.s| == Bits && (forall b :: 0 <= b < Bits ==> |d.s[b]| == 2)
  }

  /** The encoded proof (x[], y[], exponent, e0, s[][]): the exponent and the signature. */
  datatype Proof = Proof(exponent: nat, sig: Signature)

  /** What a verifier checks of a range proof for C, given the eight sub-commitments that
      the proof's x and y coordinates name: 10^exponent times their sum is C, and the
      signature verifies over the rings [Ci, Ci - 2^i·H]. */
  predicate VerifiesRange(o: Oracle, c: Point, subCommitments: seq<Point>, proof: Proof) {
    && |subCommitments| == Bits
    && Mul(Pow10(proof.exponent), SumPoints(subCommitments)) == c
    && Verifies(o, c, RangeRings(subCommitments), proof.sig)
  }

  /** `proofRange` (client.py:112-155) for an integer amount. */
  method ProveRange(o: Oracle, c: Point, blindingFactor: nat, amount: nat, draws: RangeDraws)
    returns (r: Result<Proof>, ghost subCommitments: seq<Point>)
    requires ValidRangeDraws(draws)
    ensures r.Success? <==> Normalized(amount).mantissa < Pow2(Bits) && c == Commit(blindingFactor, amount)
    ensures r.Failure? ==>
      r.error == (if Normalized(amount).mantissa >= Pow2(Bits) then RangeOverflow else CommitmentMismatch)
    ensures r.Success? ==> r.value.exponent == Normalized(amount).exponent
    ensures r.Success? ==> VerifiesRange(o, c, subCommitments, r.value)
  {
    subCommitments := [];
    var mantissa, exponent := Normalize(amount);
    if mantissa >= Pow2(Bits) {
      return Failure(RangeOverflow), subCommitments;
    }
    var target := blindingFactor * Pow10Inverse(exponent);
    var rings, subSum, commitSum;
    ghost var subAmounts, subFactors;
    rings, subSum, commitSum, subAmounts, subFactors := BuildRings(mantissa, target, draws.sub);
    assert RangeCheck(exponent, subSum, blindingFactor) by {
      ModMod(target, N);
      RangeCheckHolds(exponent, subSum, blindingFactor);
    }
    assert Mul(Pow10(exponent), commitSum) == Commit(blindingFactor, amount) by {
      ScaledCommitment(exponent, blindingFactor, mantissa, amount);
    }
    if Mul(Pow10(exponent), commitSum) != c {
      return Failure(CommitmentMismatch), subCommitments;
    }
    BitRingsSign(rings, subAmounts, subFactors);
    var signed := Sign(o, c, rings, draws.k, draws.s);
    assert signed.Success?;
    subCommitments := SubCommitments(rings);
    BitRingPoints(rings, subAmounts, subFactors);
    r := Success(Proof(exponent, signed.value));
  }
}
