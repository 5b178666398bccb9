/** Facts about division with remainder. */
module Modular {

  lemma MulBounds(d: int, p: int)
    requires 0 < p
    ensures d >= 1 ==> d * p >= p
    ensures d <= -1 ==> d * p <= -p
  {
    if d >= 1 {
      assert (d - 1) * p >= 0;
    } else if d <= -1 {
      assert (-d - 1) * p >= 0;
    }
  }

  /** Division with remainder is unique. */
  lemma ModUnique(a: int, q: int, r: int, p: int)
    requires 0 < p && a == q * p + r && 0 <= r < p
    ensures a % p == r
  {
    var d, r' := q - a / p, a % p;
    assert d * p == q * p - (a / p) * p;
    assert a == (a / p) * p + r';
    MulBounds(d, p);
  }

  lemma ModShift(a: int, k: int, p: int)
    requires 0 < p
    ensures (a + k * p) % p == a % p
  {
    var q, r := a / p, a % p;
    assert (q + k) * p == q * p + k * p;
    ModUnique(a + k * p, q + k, r, p);
  }

  lemma ModMul(a: int, b: int, c: int, p: int)
    requires 0 < p && a % p == b % p
    ensures (a * c) % p == (b * c) % p
  {
    var k := a / p - b / p;
    QuotientGap(a, b, p);
    MulDistributes(b, k, p, c);
    ModShift(b * c, k * c, p);
  }

  lemma QuotientGap(a: int, b: int, p: int)
    requires 0 < p && a % p == b % p
    ensures a == b + (a / p - b / p) * p
  {
    assert (a / p - b / p) * p == (a / p) * p - (b / p) * p;
  }

  lemma MulDistributes(b: int, k: int, p: int, c: int)
    ensures (b + k * p) * c == b * c + (k * c) * p
  {
    assert (b + k * p) * c == b * c + (k * p) * c;
    assert (k * p) * c == k * (p * c) == k * (c * p) == (k * c) * p;
  }

  /** The quotient of a number below n blocks of length q. */
  lemma QuotientBelow(x: int, n: int, q: int)
    requires 0 < q && 0 <= x < n * q
    ensures 0 <= x / q < n && x / q * q <= x < x / q * q + q
  {
    var j := x / q;
    assert (j - n) * q == j * q - n * q;
    MulBounds(j - n, q);
    MulBounds(j, q);
  }

  lemma ModAdd(a: int, b: int, c: int, p: int)
    requires 0 < p && a % p == b % p
    ensures (a + c) % p == (b + c) % p
  {
    var k := a / p - b / p;
    assert k * p == (a / p) * p - (b / p) * p;
    assert a + c == (b + c) + k * p;
    ModShift(b + c, k, p);
  }

  lemma ModIdentity(a: int, p: int)
    requires 0 <= a < p
    ensures a % p == a
  {
    ModUnique(a, 0, a, p);
  }

  lemma ModIdempotent(a: int, p: int)
    requires 0 < p
    ensures 0 <= a % p < p && (a % p) % p == a % p
  {
    ModIdentity(a % p, p);
  }

  lemma MulNonNegative(a: int, b: int)
    requires 0 <= a && 0 <= b
    ensures 0 <= a * b
  {
  }

  /** Two numbers less than L apart, and different, have different remainders modulo L. */
  lemma NearbyRemaindersDiffer(x: int, y: int, L: int)
    requires 0 < L && 0 < y - x < L
    ensures x % L != y % L
  {
    var d := y / L - x / L;
    assert d * L == (y / L) * L - (x / L) * L;
    MulBounds(d, L);
  }
}
