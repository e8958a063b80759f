/** The ways an operation of the client can abort. Each stands for an exception the
    client raises (a failed `assert` or an out-of-range index). */
module Results {

  datatype Error =
    | RangeOverflow        // the normalised mantissa does not fit in 8 bits
    | CommitmentMismatch   // 10^exponent · Σ sub-commitments differs from the commitment
    | ChallengeMismatch    // the closing response does not reproduce the signer's challenge
    | BlindingSumMismatch  // input and output blinding factors disagree mod n
    | AmountSumMismatch    // input and output plaintext amounts disagree
    | MissingAmount        // fewer amounts than receivers

  datatype Result<T> = Success(value: T) | Failure(error: Error) {
    predicate IsFailure() { Failure? }

    function PropagateFailure<U>(): Result<U>
      requires Failure?
    {
      Failure(error)
    }

    function Extract(): T
      requires Success?
    {
      value
    }
  }
}
