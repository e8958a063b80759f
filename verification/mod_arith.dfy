/** Facts about Euclidean remainder that the scalar arithmetic mod N relies on. */
module ModArith {

  /** Euclidean division is unique: a quotient/remainder pair pins down x / m and x % m. */
  lemma DivModUnique(x: int, q: int, r: int, m: int)
    requires m > 0 && 0 <= r < m && x == q * m + r
    ensures x % m == r && x / m == q
  {
    var q', r' := x / m, x % m;
    var d := q - q';
    assert d * m == r' - r by {
      assert x == q' * m + r';
      assert q * m - q' * m == (q - q') * m;
    }
  }

  lemma ModMultipleAdd(q: int, r: int, m: int)
    requires m > 0
    ensures (q * m + r) % m == r % m
  {
    var x := q * m + r;
    assert r == (r / m) * m + r % m;
    assert x == (q + r / m) * m + r % m;
    DivModUnique(x, q + r / m, r % m, m);
  }

  lemma AddMod(a: int, b: int, m: int)
    requires m > 0
    ensures (a + b) % m == (a % m + b % m) % m
  {
    assert a == (a / m) * m + a % m;
    assert b == (b / m) * m + b % m;
    assert a + b == (a / m + b / m) * m + (a % m + b % m);
    ModMultipleAdd(a / m + b / m, a % m + b % m, m);
  }

  lemma SubMod(a: int, b: int, m: int)
    requires m > 0
    ensures (a - b) % m == (a % m - b % m) % m
  {
    assert a == (a / m) * m + a % m;
    assert b == (b / m) * m + b % m;
    assert a - b == (a / m - b / m) * m + (a % m - b % m);
    ModMultipleAdd(a / m - b / m, a % m - b % m, m);
  }

  lemma MulModRight(a: int, b: int, m: int)
    requires m > 0
    ensures (a * b) % m == (a * (b % m)) % m
  {
    assert b == (b / m) * m + b % m;
    assert a * b == (a * (b / m)) * m + a * (b % m) by {
      calc {
        a * b;
        a * ((b / m) * m + b % m);
        (a * (b / m)) * m + a * (b % m);
      }
    }
    ModMultipleAdd(a * (b / m), a * (b % m), m);
  }

  lemma MulMod(a: int, b: int, m: int)
    requires m > 0
    ensures (a * b) % m == ((a % m) * (b % m)) % m
  {
    MulModRight(a, b, m);
    MulModRight(b % m, a, m);
  }

  lemma ModMod(a: int, m: int)
    requires m > 0
    ensures (a % m) % m == a % m
  {
    DivModUnique(a % m, 0, a % m, m);
  }

  /** Reducing the left summand first does not change the sum mod m. */
  lemma AddModLeft(a: int, b: int, m: int)
    requires m > 0
    ensures (a % m + b) % m == (a + b) % m
  {
    AddMod(a, b, m);
    AddMod(a % m, b, m);
    ModMod(a, m);
  }

  /** Adding the additive inverse m - (b mod m) subtracts b. */
  lemma AddNegMod(a: int, b: int, m: int)
    requires m > 0
    ensures (a % m + (m - b % m) % m) % m == (a - b) % m
  {
    calc {
      (m - b % m) % m;
      { assert m - b % m == 1 * m + (-(b % m)); ModMultipleAdd(1, -(b % m), m); }
      (-(b % m)) % m;
      { SubMod(0, b, m); assert 0 % m == 0; }
      (-b) % m;
    }
    AddMod(a, -b, m);
  }

  /** An inverse modulo m, where one exists, is unique among the residues. */
  lemma InverseUnique(a: int, r: int, s: int, m: int)
    requires m > 0 && 0 <= r < m && 0 <= s < m
    requires (a * r) % m == 1 && (a * s) % m == 1
    ensures r == s
  {
    calc {
      r;
      { DivModUnique(r, 0, r, m); }
      (r * 1) % m;
      (r * ((a * s) % m)) % m;
      { MulModRight(r, a * s, m); }
      (r * (a * s)) % m;
      { assert r * (a * s) == s * (a * r); }
      (s * (a * r)) % m;
      { MulModRight(s, a * r, m); }
      (s * 1) % m;
      { DivModUnique(s, 0, s, m); }
      s;
    }
  }

  /** Multiplying by x·v where p·v ≡ 1 (mod m) cancels p: p·(x·v) ≡ x. */
  lemma InverseCancels(p: int, v: int, x: int, m: int)
    requires m > 0 && (p * v) % m == 1
    ensures (p * (x * v)) % m == x % m
  {
    calc {
      (p * (x * v)) % m;
      { assert p * (x * v) == x * (p * v); }
      (x * (p * v)) % m;
      { MulModRight(x, p * v, m); }
      (x * 1) % m;
    }
  }

  /** The product of two invertible residues is inverted by the product of their
      inverses. */
  lemma ProductInverse(a: int, x: int, b: int, y: int, m: int)
    requires m > 0 && (a * x) % m == 1 && (b * y) % m == 1
    ensures ((a * b) * ((x * y) % m)) % m == 1
  {
    calc {
      ((a * b) * ((x * y) % m)) % m;
      { MulModRight(a * b, x * y, m); }
      ((a * b) * (x * y)) % m;
      { assert (a * b) * (x * y) == (a * x) * (b * y); }
      ((a * x) * (b * y)) % m;
      { MulMod(a * x, b * y, m); }
      (1 * 1) % m;
      { DivModUnique(1, 0, 1, m); }
      1;
    }
  }

  /** A residue s that equals x·v, where v inverts p, is scaled back to x by p. */
  lemma ScaledResidue(p: int, v: int, s: int, x: int, m: int)
    requires m > 0 && (p * v) % m == 1 && s % m == (x * v) % m
    ensures (p * s) % m == x % m
  {
    calc {
      (p * s) % m;
      { MulModRight(p, s, m); }
      (p * (s % m)) % m;
      (p * ((x * v) % m)) % m;
      { MulModRight(p, x * v, m); }
      (p * (x * v)) % m;
      { InverseCancels(p, v, x, m); }
      x % m;
    }
  }

  /** The residue arithmetic behind a ring signature's closing response s = (e·b - k) mod m:
      e·b - s leaves k. */
  lemma ResponseCancels(e: int, b: int, k: int, m: int)
    requires m > 0
    ensures ((e * (b % m)) % m + (m - ((e * b - k) % m) % m) % m) % m == k % m
  {
    var s := (e * b - k) % m;
    MulModRight(e, b, m);
    AddNegMod(e * b, s, m);
    calc {
      (e * b - s) % m;
      { SubMod(e * b, s, m); ModMod(e * b - k, m); }
      ((e * b) % m - s) % m;
      { SubMod(e * b, e * b - k, m); }
      (e * b - (e * b - k)) % m;
      { assert e * b - (e * b - k) == k; }
      k % m;
    }
  }
}
