/** `transfer`: spends a list of unspent outputs to a list of receivers, giving every
    output but the last a drawn blinding factor and solving the last one so that the
    output blinding factors sum to the input ones mod n, with a range proof per output
    when there are several receivers. */
module Transfer {
  import opened ModArith
  import opened Group
  import opened Challenge
  import opened Results
  import opened Commitments
  import opened RangeProof

  /** An unspent output (C, blindingFactor, amount). */
  datatype Utxo = Utxo(c: Point, blindingFactor: nat, amount: nat)

  /** The output's commitment opens to its blinding factor and amount. */
  predicate Opens(u: Utxo) {
    u.c == Commit(u.blindingFactor, u.amount)
  }

  function Factors(us: seq<Utxo>): (fs: seq<nat>)
    ensures |fs| == |us| && forall i :: 0 <= i < |us| ==> fs[i] == us[i].blindingFactor
  {
    seq(|us|, i requires 0 <= i < |us| => us[i].blindingFactor)
  }

  function Amounts(us: seq<Utxo>): (as_: seq<nat>)
    ensures |as_| == |us| && forall i :: 0 <= i < |us| ==> as_[i] == us[i].amount
  {
    seq(|us|, i requires 0 <= i < |us| => us[i].amount)
  }

  function CommitmentsOf(us: seq<Utxo>): (cs: seq<Point>)
    ensures |cs| == |us| && forall i :: 0 <= i < |us| ==> cs[i] == us[i].c
  {
    seq(|us|, i requires 0 <= i < |us| => us[i].c)
  }

  /** The sum of the commitments of outputs that open is the commitment to their summed
      factors and amounts. */
  lemma SumOfOutputs(us: seq<Utxo>)
    requires forall i :: 0 <= i < |us| ==> Opens(us[i])
    ensures SumPoints(CommitmentsOf(us)) == Commit(Sum(Factors(us)), Sum(Amounts(us)))
  {
    SumOfCommitments(CommitmentsOf(us), Factors(us), Amounts(us));
  }

  /** Outputs whose factor sums and amount sums agree mod n with the inputs' have the same
      commitment sum: what the contract checks of a transfer. */
  lemma BalancedCommitments(ins: seq<Utxo>, outs: seq<Utxo>)
    requires forall i :: 0 <= i < |ins| ==> Opens(ins[i])
    requires forall i :: 0 <= i < |outs| ==> Opens(outs[i])
    requires Sum(Factors(outs)) % N == Sum(Factors(ins)) % N
    requires Sum(Amounts(outs)) % N == Sum(Amounts(ins)) % N
    ensures SumPoints(CommitmentsOf(outs)) == SumPoints(CommitmentsOf(ins))
  {
    SumOfOutputs(ins);
    SumOfOutputs(outs);
    CommitCongruent(Sum(Factors(outs)), Sum(Amounts(outs)), Sum(Factors(ins)), Sum(Amounts(ins)));
  }

  /** The randomness a transfer consumes: a blinding factor per receiver (the last one is
      drawn and then replaced) and the draws of each receiver's range proof. */
  datatype TransferDraws = TransferDraws(factors: seq<nat>, proofs: seq<RangeDraws>)

  /** Draws of the shape transfer uses, each blinding factor in [1, n] as
      randbelow(n) + 1 yields. */
  predicate ValidTransferDraws(d: TransferDraws, receivers: nat) {
    && |d.factors| == receivers && (forall i :: 0 <= i < receivers ==> 1 <= d.factors[i] <= N)
    && |d.proofs| == receivers && (forall i :: 0 <= i < receivers ==> ValidRangeDraws(d.proofs[i]))
  }

  /** What a transfer produces: the new outputs, in receiver order, and their range
      proofs. */
  datatype Transaction = Transaction(outputs: seq<Utxo>, proofs: seq<Proof>)

  /** Every amount can be range-proved: its mantissa fits in eight bits. */
  predicate Provable(amounts: seq<nat>, count: nat)
    requires count <= |amounts|
  {
    forall i :: 0 <= i < count ==> Normalized(amounts[i]).mantissa < Pow2(Bits)
  }

  /** The range proof of one output (client.py:95-96); an output's commitment always
      opens, so only an amount too large to normalise into eight bits fails. */
  method ProveOutput(o: Oracle, u: Utxo, draws: RangeDraws) returns (r: Result<Proof>, ghost subCommitments: seq<Point>)
    requires Opens(u) && ValidRangeDraws(draws)
    ensures r.Success? <==> Normalized(u.amount).mantissa < Pow2(Bits)
    ensures r.Failure? ==> r.error == RangeOverflow
    ensures r.Success? ==> VerifiesRange(o, u.c, subCommitments, r.value)
  {
    r, subCommitments := ProveRange(o, u.c, u.blindingFactor, u.amount, draws);
  }

  lemma ProvableStep(amounts: seq<nat>, count: nat)
    requires count < |amounts| && Provable(amounts, count)
    requires Normalized(amounts[count]).mantissa < Pow2(Bits)
    ensures Provable(amounts, count + 1)
  {
  }

  /** Outputs 0..|outputs|-1 open to amounts[i] under a factor in [1, n], drawn for every
      output but the last of `count`. */
  predicate OutputsSoFar(count: nat, amounts: seq<nat>, draws: TransferDraws, outputs: seq<Utxo>)
    requires |draws.factors| == count
  {
    && |outputs| <= |amounts|
    && |outputs| <= count
    && (forall t :: 0 <= t < |outputs| ==> Opens(outputs[t]) && outputs[t].amount == amounts[t])
    && (forall t :: 0 <= t < |outputs| ==> 1 <= outputs[t].blindingFactor <= N)
    && (forall t :: 0 <= t < |outputs| && t < count - 1 ==> outputs[t].blindingFactor == draws.factors[t])
  }

  lemma OutputsStep(count: nat, amounts: seq<nat>, draws: TransferDraws, outputs: seq<Utxo>, u: Utxo)
    requires |draws.factors| == count
    requires OutputsSoFar(count, amounts, draws, outputs)
    requires |outputs| < |amounts| && |outputs| < count
    requires Opens(u) && u.amount == amounts[|outputs|] && 1 <= u.blindingFactor <= N
    requires |outputs| < count - 1 ==> u.blindingFactor == draws.factors[|outputs|]
    ensures OutputsSoFar(count, amounts, draws, outputs + [u])
    ensures Factors(outputs + [u]) == Factors(outputs) + [u.blindingFactor]
  {
    var outs' := outputs + [u];
    assert forall t :: 0 <= t < |outputs| ==> outs'[t] == outputs[t];
    assert Factors(outs') == Factors(outputs) + [u.blindingFactor];
  }

  /** Proof i verifies for the commitment of output i. */
  predicate ProofsSoFar(o: Oracle, outputs: seq<Utxo>, subCommitments: seq<seq<Point>>, proofs: seq<Proof>) {
    && |proofs| == |subCommitments| <= |outputs|
    && forall t {:trigger VerifiesRange(o, outputs[t].c, subCommitments[t], proofs[t])} ::
         0 <= t < |proofs| ==> VerifiesRange(o, outputs[t].c, subCommitments[t], proofs[t])
  }

  lemma ProofsStep(o: Oracle, outputs: seq<Utxo>, subCommitments: seq<seq<Point>>, proofs: seq<Proof>, u: Utxo, cs: seq<Point>, proof: Proof)
    requires ProofsSoFar(o, outputs, subCommitments, proofs)
    requires |proofs| == |outputs|
    requires VerifiesRange(o, u.c, cs, proof)
    ensures ProofsSoFar(o, outputs + [u], subCommitments + [cs], proofs + [proof])
  {
    var outs', cs', ps' := outputs + [u], subCommitments + [cs], proofs + [proof];
    forall t | 0 <= t < |ps'|
      ensures VerifiesRange(o, outs'[t].c, cs'[t], ps'[t])
    {
      if t < |proofs| {
        assert outs'[t] == outputs[t] && cs'[t] == subCommitments[t] && ps'[t] == proofs[t];
      }
    }
  }

  lemma ProofsGrow(o: Oracle, outputs: seq<Utxo>, subCommitments: seq<seq<Point>>, proofs: seq<Proof>, u: Utxo)
    requires ProofsSoFar(o, outputs, subCommitments, proofs)
    ensures ProofsSoFar(o, outputs + [u], subCommitments, proofs)
  {
    assert forall t :: 0 <= t < |outputs| ==> (outputs + [u])[t] == outputs[t];
  }

  /** The state of the output loop once |outputs| receivers are served: the outputs so far,
      their factor sum mod n (which has reached inSum once every receiver is served), and
      one verifying range proof per output when there are several receivers. */
  predicate Made(o: Oracle, inSum: nat, count: nat, amounts: seq<nat>, draws: TransferDraws,
                 outputs: seq<Utxo>, outSum: nat, proofs: seq<Proof>, subCommitments: seq<seq<Point>>)
    requires |draws.factors| == count
  {
    && OutputsSoFar(count, amounts, draws, outputs)
    && outSum == Sum(Factors(outputs)) % N
    && (|outputs| == count > 0 ==> outSum == inSum)
    && (count > 1 ==> Provable(amounts, |outputs|))
    && |proofs| == (if count > 1 then |outputs| else 0)
    && ProofsSoFar(o, outputs, subCommitments, proofs)
  }

  /** The factor of the next output: drawn, or balancing for the last receiver. */
  function NextFactor(inSum: nat, count: nat, draws: TransferDraws, outSum: nat, i: nat): (f: nat)
    requires inSum < N && outSum < N && i < count && ValidTransferDraws(draws, count)
    ensures 1 <= f <= N
  {
    if i == count - 1 then BalancingFactor(outSum, inSum) else draws.factors[i]
  }

  /** Serving one more receiver, without a range proof. */
  lemma OutputStep(o: Oracle, inSum: nat, count: nat, amounts: seq<nat>, draws: TransferDraws,
                   outputs: seq<Utxo>, outSum: nat, proofs: seq<Proof>, subCommitments: seq<seq<Point>>, u: Utxo)
    requires inSum < N && ValidTransferDraws(draws, count)
    requires Made(o, inSum, count, amounts, draws, outputs, outSum, proofs, subCommitments)
    requires |outputs| < count && |outputs| < |amounts| && count <= 1
    requires u.blindingFactor == NextFactor(inSum, count, draws, outSum, |outputs|)
    requires u == Utxo(Commit(u.blindingFactor, amounts[|outputs|]), u.blindingFactor, amounts[|outputs|])
    ensures Made(o, inSum, count, amounts, draws, outputs + [u], (outSum + u.blindingFactor) % N, proofs, subCommitments)
  {
    OutputsStep(count, amounts, draws, outputs, u);
    RunningSum(Factors(outputs), u.blindingFactor, outSum, N);
    ProofsGrow(o, outputs, subCommitments, proofs, u);
    DivModUnique(inSum, 0, inSum, N);
  }

  /** Serving one more receiver together with its range proof. */
  lemma ProvedOutputStep(o: Oracle, inSum: nat, count: nat, amounts: seq<nat>, draws: TransferDraws,
                         outputs: seq<Utxo>, outSum: nat, proofs: seq<Proof>, subCommitments: seq<seq<Point>>,
                         u: Utxo, proof: Proof, cs: seq<Point>)
    requires inSum < N && ValidTransferDraws(draws, count)
    requires Made(o, inSum, count, amounts, draws, outputs, outSum, proofs, subCommitments)
    requires |outputs| < count && |outputs| < |amounts| && count > 1
    requires u.blindingFactor == NextFactor(inSum, count, draws, outSum, |outputs|)
    requires u == Utxo(Commit(u.blindingFactor, amounts[|outputs|]), u.blindingFactor, amounts[|outputs|])
    requires Normalized(u.amount).mantissa < Pow2(Bits) && VerifiesRange(o, u.c, cs, proof)
    ensures Made(o, inSum, count, amounts, draws, outputs + [u], (outSum + u.blindingFactor) % N,
                 proofs + [proof], subCommitments + [cs])
  {
    OutputsStep(count, amounts, draws, outputs, u);
    RunningSum(Factors(outputs), u.blindingFactor, outSum, N);
    ProofsStep(o, outputs, subCommitments, proofs, u, cs, proof);
    ProvableStep(amounts, |outputs|);
    DivModUnique(inSum, 0, inSum, N);
  }

  /** One pass of the output loop (client.py:84-96): the next receiver's blinding factor,
      its output, and its range proof when there are several receivers. */
  method ServeReceiver(o: Oracle, inSum: nat, count: nat, amounts: seq<nat>, draws: TransferDraws,
                       outputs: seq<Utxo>, outSum: nat, proofs: seq<Proof>, ghost subCommitments: seq<seq<Point>>)
    returns (r: Result<Transaction>, outSum': nat, ghost subCommitments': seq<seq<Point>>)
    requires inSum < N && ValidTransferDraws(draws, count)
    requires Made(o, inSum, count, amounts, draws, outputs, outSum, proofs, subCommitments)
    requires |outputs| < count
    ensures r.Success? <==> |outputs| < |amounts| && (count > 1 ==> Normalized(amounts[|outputs|]).mantissa < Pow2(Bits))
    ensures r.Failure? ==> r.error == (if |outputs| >= |amounts| then MissingAmount else RangeOverflow)
    ensures r.Success? ==>
      && |r.value.outputs| == |outputs| + 1
      && Made(o, inSum, count, amounts, draws, r.value.outputs, outSum', r.value.proofs, subCommitments')
  {
    var i := |outputs|;
    var blindingFactor := NextFactor(inSum, count, draws, outSum, i);
    outSum' := (outSum + blindingFactor) % N;
    subCommitments' := subCommitments;
    if i >= |amounts| {
      return Failure(MissingAmount), outSum', subCommitments';
    }
    var c := Commit(blindingFactor, amounts[i]);
    var u := Utxo(c, blindingFactor, amounts[i]);
    var outputs' := outputs + [u];
    var proofs' := proofs;
    if count > 1 {
      var proof;
      ghost var cs;
      proof, cs := ProveOutput(o, u, draws.proofs[i]);
      if proof.Failure? {
        return Failure(proof.error), outSum', subCommitments';
      }
      proofs' := proofs + [proof.value];
      subCommitments' := subCommitments + [cs];
      ProvedOutputStep(o, inSum, count, amounts, draws, outputs, outSum, proofs, subCommitments, u, proof.value, cs);
    } else {
      OutputStep(o, inSum, count, amounts, draws, outputs, outSum, proofs, subCommitments, u);
    }
    r := Success(Transaction(outputs', proofs'));
  }

  /** The output loop of `transfer` (client.py:82-96) for `count` receivers: output i
      commits to amounts[i] under a drawn blinding factor, except the last output, whose
      factor closes the running sum onto inSum; each output is range-proved when there are
      several. */
  method MakeOutputs(o: Oracle, inSum: nat, count: nat, amounts: seq<nat>, draws: TransferDraws)
    returns (r: Result<Transaction>, outSum: nat, ghost subCommitments: seq<seq<Point>>)
    requires inSum < N
    requires ValidTransferDraws(draws, count)
    ensures r.Success? <==> count <= |amounts| && (count > 1 ==> Provable(amounts, count))
    ensures r.Failure? && r.error == MissingAmount ==> |amounts| < count
    ensures r.Failure? && r.error != MissingAmount ==>
      && r.error == RangeOverflow && count > 1
      && exists i :: 0 <= i < count && i < |amounts| && Normalized(amounts[i]).mantissa >= Pow2(Bits)
    ensures r.Success? ==>
      && |r.value.outputs| == count
      && Made(o, inSum, count, amounts, draws, r.value.outputs, outSum, r.value.proofs, subCommitments)
  {
    var outputs: seq<Utxo> := [];
    var proofs: seq<Proof> := [];
    outSum := 0;
    subCommitments := [];
    for i := 0 to count
      invariant |outputs| == i
      invariant Made(o, inSum, count, amounts, draws, outputs, outSum, proofs, subCommitments)
    {
      var served;
      served, outSum, subCommitments := ServeReceiver(o, inSum, count, amounts, draws, outputs, outSum, proofs, subCommitments);
      if served.Failure? {
        return Failure(served.error), outSum, subCommitments;
      }
      outputs, proofs := served.value.outputs, served.value.proofs;
    }
    r := Success(Transaction(outputs, proofs));
  }

  /** `transfer` (client.py:75-109): the outputs, then the two sanity checks. */
  method Transfer(o: Oracle, utxosIn: seq<Utxo>, receivers: seq<string>, amounts: seq<nat>, draws: TransferDraws)
    returns (r: Result<Transaction>, ghost subCommitments: seq<seq<Point>>)
    requires ValidTransferDraws(draws, |receivers|)
    ensures var inSum := Sum(Factors(utxosIn)) % N;
      r.Success? <==>
        && |receivers| <= |amounts|
        && (|receivers| > 1 ==> Provable(amounts, |receivers|))
        && (|receivers| > 0 || inSum == 0)
        && Sum(Amounts(utxosIn)) % N == Sum(amounts)
    ensures r.Failure? ==> r.error in {MissingAmount, RangeOverflow, BlindingSumMismatch, AmountSumMismatch}
    ensures r.Failure? && r.error == MissingAmount ==> |amounts| < |receivers|
    ensures r.Failure? && r.error == RangeOverflow ==>
      |receivers| > 1 && exists i :: 0 <= i < |receivers| && i < |amounts| && Normalized(amounts[i]).mantissa >= Pow2(Bits)
    ensures r.Failure? && r.error == BlindingSumMismatch ==> |receivers| == 0
    ensures r.Success? ==> var outs := r.value.outputs;
      && |outs| == |receivers|
      && (forall i :: 0 <= i < |outs| ==> Opens(outs[i]) && outs[i].amount == amounts[i])
      && (forall i :: 0 <= i < |outs| ==> 1 <= outs[i].blindingFactor <= N)
      && (forall i :: 0 <= i < |outs| - 1 ==> outs[i].blindingFactor == draws.factors[i])
      && Sum(Factors(outs)) % N == Sum(Factors(utxosIn)) % N
    ensures r.Success? ==>
      && |r.value.proofs| == |subCommitments| == (if |receivers| > 1 then |receivers| else 0)
      && forall i :: 0 <= i < |r.value.proofs| ==>
           VerifiesRange(o, r.value.outputs[i].c, subCommitments[i], r.value.proofs[i])
  {
    var inSum := Sum(Factors(utxosIn)) % N;
    var made, outSum;
    made, outSum, subCommitments := MakeOutputs(o, inSum, |receivers|, amounts, draws);
    if made.Failure? {
      return Failure(made.error), subCommitments;
    }
    if inSum != outSum {
      return Failure(BlindingSumMismatch), subCommitments;
    }
    if Sum(Amounts(utxosIn)) % N != Sum(amounts) {
      return Failure(AmountSumMismatch), subCommitments;
    }
    r := made;
  }

  /** A successful transfer of outputs that open, with one amount per receiver, balances:
      the output commitments sum to the input commitments. */
  lemma TransferBalances(ins: seq<Utxo>, amounts: seq<nat>, outs: seq<Utxo>)
    requires forall i :: 0 <= i < |ins| ==> Opens(ins[i])
    requires |outs| == |amounts|
    requires forall i :: 0 <= i < |outs| ==> Opens(outs[i]) && outs[i].amount == amounts[i]
    requires Sum(Factors(outs)) % N == Sum(Factors(ins)) % N
    requires Sum(Amounts(ins)) % N == Sum(amounts)
    ensures SumPoints(CommitmentsOf(outs)) == SumPoints(CommitmentsOf(ins))
  {
    assert Amounts(outs) == amounts;
    ModMod(Sum(Amounts(ins)), N);
    BalancedCommitments(ins, outs);
  }
}
