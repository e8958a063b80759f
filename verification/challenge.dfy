/** The challenge hash and the point fingerprint. Keccak-256, the ABI encoder and the
    curve coordinates are not modelled: an `Oracle` value stands for them, and only the
    client's own arithmetic around them (reduction mod n, the low 20 bytes) is kept. */
module Challenge {
  import opened Group

  /** The tuples the client hashes, one constructor per ABI type list it encodes. */
  datatype HashInput =
    | Message(cx: nat, cy: nat, xs: seq<nat>, ys: seq<nat>)  // uint256, uint256, uint256[], uint256[]
    | Link(m: nat, address: nat, ring: nat, branch: nat)      // uint256, address, uint8, uint8
    | RingEnds(ends: seq<nat>)                                // uint256[]

  /** The foreign primitives, as uninterpreted functions of the point they are applied to. */
  datatype Oracle = Oracle(
    x: Point -> nat,              // the affine x-coordinate P.x()
    y: Point -> nat,              // the affine y-coordinate P.y()
    invX: Point -> nat,           // numbertheory.inverse_mod(P.x(), n)
    pointDigest: Point -> nat,    // Keccak-256 of P.to_bytes(), read big-endian
    digest: HashInput -> nat)     // Keccak-256 of the ABI encoding, read big-endian

  const AddressSpace: nat := 0x1_0000_0000_0000_0000_0000_0000_0000_0000_0000_0000

  /** The challenge hash: the digest of the encoded tuple reduced mod n. */
  function Hash(o: Oracle, input: HashInput): (r: nat)
    ensures r < N
  {
    o.digest(input) % N
  }

  /** The 20-byte address derived from a point: the low 20 bytes of its digest. */
  function Address(o: Oracle, p: Point): (a: nat)
    ensures a < AddressSpace
  {
    o.pointDigest(p) % AddressSpace
  }
}
