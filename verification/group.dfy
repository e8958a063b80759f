/** The secp256k1 group as the client uses it. Every point the client builds is a
    combination g·G + h·H of the base point G and the second generator H, so a point is
    kept as its pair of coefficients mod N. Equal pairs denote equal curve points, so
    every point equation proved here also holds on the curve. Distinct pairs are taken to
    be distinct points, which holds as long as the discrete log of H to base G is unknown. */
module Group {
  import opened ModArith

  /** The order n of the secp256k1 group. */
  const N: nat := 0xFFFFFFFFFFFFFFFFFFFFFFFFFFFFFFFEBAAEDCE6AF48A03BBFD25E8CD0364141

  /** The inverse of 10 modulo N. */
  const Inv10: nat := 0xb33333333333333333333333333333324f7a676e477fa35d0646756291bf9414

  type Scalar = x: int | 0 <= x < N

  /** The point g·G + h·H. */
  datatype Point = Point(g: Scalar, h: Scalar)

  /** The point at infinity, the group's identity. */
  const Infinity: Point := Point(0, 0)
  const G: Point := Point(1, 0)
  /** The second generator, whose discrete log relative to G nobody knows. */
  const H: Point := Point(0, 1)

  function Add(p: Point, q: Point): Point {
    Point((p.g + q.g) % N, (p.h + q.h) % N)
  }

  function Neg(p: Point): Point {
    Point((N - p.g) % N, (N - p.h) % N)
  }

  /** Scalar multiplication k·p. */
  function Mul(k: int, p: Point): Point {
    Point((k * p.g) % N, (k * p.h) % N)
  }

  /** The Pedersen commitment blindingFactor·G + amount·H, by its coefficients
      (CommitIsCombination shows it is that sum). */
  function Commit(blindingFactor: int, amount: int): Point {
    Point(blindingFactor % N, amount % N)
  }

  function Pow2(i: nat): nat {
    if i == 0 then 1 else 2 * Pow2(i - 1)
  }

  function Pow10(e: nat): nat {
    if e == 0 then 1 else 10 * Pow10(e - 1)
  }

  /** The precomputed offset iaH[i] = -(2^i·H). */
  function IaH(i: nat): Point {
    Neg(Mul(Pow2(i), H))
  }

  /** The commitment is the point blindingFactor·G + amount·H the client computes. */
  lemma CommitIsCombination(blindingFactor: int, amount: int)
    ensures Commit(blindingFactor, amount) == Add(Mul(blindingFactor, G), Mul(amount, H))
  {
    ModMod(blindingFactor, N);
    ModMod(amount, N);
  }

  /** Commitments add coefficient-wise: the sum of two commitments commits to the sums
      of their openings. */
  lemma CommitAdd(a: int, b: int, c: int, d: int)
    ensures Add(Commit(a, b), Commit(c, d)) == Commit(a + c, b + d)
  {
    AddMod(a, c, N);
    AddMod(b, d, N);
  }

  /** Scaling a commitment scales both halves of its opening. */
  lemma CommitMul(k: int, a: int, b: int)
    ensures Mul(k, Commit(a, b)) == Commit(k * a, k * b)
  {
    MulModRight(k, a, N);
    MulModRight(k, b, N);
  }

  /** Adding iaH[i] to a commitment takes 2^i off its amount. */
  lemma CommitOffset(blindingFactor: int, amount: int, i: nat)
    ensures Add(Commit(blindingFactor, amount), IaH(i)) == Commit(blindingFactor, amount - Pow2(i))
  {
    var p := Pow2(i);
    assert Mul(p, H) == Point(0, p % N);
    assert IaH(i) == Point(0, (N - p % N) % N);
    ModMod(blindingFactor, N);
    AddNegMod(amount, p, N);
  }

  lemma Inv10IsInverse()
    ensures (10 * Inv10) % N == 1
  {
  }

  /** The inverse of 10^e modulo N, as Python's pow(10**e, -1, n) returns it. */
  function Pow10Inverse(e: nat): (r: nat)
    ensures r < N && (Pow10(e) * r) % N == 1
  {
    if e == 0 then 1
    else
      var r' := Pow10Inverse(e - 1);
      var r := (Inv10 * r') % N;
      assert (Pow10(e) * r) % N == 1 by {
        Inv10IsInverse();
        ProductInverse(10, Inv10, Pow10(e - 1), r', N);
      }
      r
  }

  /** The inverse mod N is unique, so Pow10Inverse is the value pow(10**e, -1, n) gives. */
  lemma Pow10InverseUnique(e: nat, r: int)
    requires 0 <= r < N && (Pow10(e) * r) % N == 1
    ensures r == Pow10Inverse(e)
  {
    InverseUnique(Pow10(e), r, Pow10Inverse(e), N);
  }
}
