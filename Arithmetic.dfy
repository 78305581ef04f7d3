/** Facts about products, quotients and remainders of naturals that the
    index arithmetic of the tensor and sparse-matrix models rests on. */
module Arithmetic {

  lemma MulMonotone(a: nat, b: nat, c: nat)
    requires a <= b
    ensures a * c <= b * c
  {
  }

  lemma Distributes(a: int, b: int, c: int)
    ensures (a + b) * c == a * c + b * c
  {
  }

  /** A common factor k comes out of s plus a k-scaled product. */
  lemma ScaleDistributes(k: int, s: int, a: int, b: int)
    ensures k * s + (k * a) * b == k * (s + a * b)
    ensures k * s + (a * k) * b == k * (s + a * b)
  {
    assert (k * a) * b == k * (a * b) == (a * k) * b;
  }

  lemma MulLeftCommutes(a: int, b: int, c: int)
    ensures a * (b * c) == b * (a * c)
  {
  }

  /** Quotient and remainder are determined by a decomposition a = q*d + r with r < d. */
  lemma DivModOf(a: nat, d: nat, q: nat, r: nat)
    requires 0 < d && r < d && a == q * d + r
    ensures a / d == q && a % d == r
  {
    var q', r' := a / d, a % d;
    assert q' * d + r' == q * d + r;
    if q' < q {
      MulMonotone(q' + 1, q, d);
    } else if q < q' {
      MulMonotone(q + 1, q', d);
    }
  }

  /** a*d + x < d*b when a < b and x < d. */
  lemma MulAddBelow(a: nat, b: nat, x: nat, d: nat)
    requires a < b && x < d
    ensures a * d + x < d * b
  {
    MulMonotone(a + 1, b, d);
  }

  /** Carrying into the next multiple of d: (a+1)*d reaches d*b exactly
      when a+1 reaches b. */
  lemma CarryProduct(a: nat, b: nat, d: nat)
    requires 0 < d && a < b
    ensures a * d + d == (a + 1) * d
    ensures a * d + d == d * b <==> a + 1 == b
  {
    if a + 1 < b {
      MulAddBelow(a + 1, b, 0, d);
    }
  }

  lemma DivModSplit(t: nat, d: nat)
    requires 0 < d
    ensures (t / d) * d + t % d == t
  {
  }

  lemma DivBelow(t: nat, d: nat, m: nat)
    requires 0 < d && t < d * m
    ensures t / d < m
  {
    if t / d >= m {
      MulMonotone(m, t / d, d);
    }
  }
}
