/** The proof-of-work function (`pow_hash`), as an affine map x -> (X x + Y) mod P
    whose slope X has an inverse modulo P.

    Everything that the programs need from the function - that every target in
    [0, P) has exactly one preimage in [0, P) - follows from the inverse alone. */
module Pow {
  import opened CTypes
  import opened Modular

  const POW_LIMIT := 99997669
  const BIG_X := 435679812
  const BIG_Y := 100001819

  /** BIG_X * BIG_X_INVERSE == 1 + 5418467 * POW_LIMIT. */
  const BIG_X_INVERSE := 1243652

  /** An affine hash: modulus, slope, offset, and an inverse of the slope. */
  datatype Hash = Hash(p: int, x: int, y: int, inv: int) {
    ghost predicate Good() {
      && 1 < p && 0 < x && 0 <= y
      && (x * inv) % p == 1
    }
  }

  const HASH := Hash(POW_LIMIT, BIG_X, BIG_Y, BIG_X_INVERSE)

  function Eval(h: Hash, x: int): int
    requires h.p != 0
  {
    CRem(x * h.x + h.y, h.p)
  }

  function PowHash(x: int): int {
    Eval(HASH, x)
  }

  /** The one argument in [0, p) that hashes to `t`. */
  function Preimage(h: Hash, t: int): int
    requires h.p != 0
  {
    ((t - h.y) * h.inv) % h.p
  }

  /** Multiplying by the slope and then by its inverse changes nothing modulo p. */
  lemma SlopeCancels(h: Hash, a: int)
    requires h.Good()
    ensures (a * h.inv * h.x) % h.p == a % h.p
  {
    assert a * h.inv * h.x == (h.x * h.inv) * a;
    assert 1 % h.p == 1;
    ModMul(h.x * h.inv, 1, a, h.p);
  }

  lemma PreimageTimesSlope(h: Hash, t: int)
    requires h.Good()
    ensures 0 <= Preimage(h, t) < h.p
    ensures (Preimage(h, t) * h.x) % h.p == (t - h.y) % h.p
  {
    var a := (t - h.y) * h.inv;
    ModIdempotent(a, h.p);
    ModMul(a % h.p, a, h.x, h.p);
    SlopeCancels(h, t - h.y);
  }

  // ---------------------------------------------------------------- bijection

  /** Onto: the preimage of a target in range is in range and hashes to the target. */
  lemma PreimageIsPreimage(h: Hash, t: int)
    requires h.Good() && 0 <= t < h.p
    ensures 0 <= Preimage(h, t) < h.p
    ensures Eval(h, Preimage(h, t)) == t
  {
    var r := Preimage(h, t);
    PreimageTimesSlope(h, t);
    MulNonNegative(r, h.x);
    ModAdd(r * h.x, t - h.y, h.y, h.p);
    ModIdentity(t, h.p);
  }

  /** One-to-one: an argument in range is the preimage of its own hash. */
  lemma PreimageInverts(h: Hash, x: int)
    requires h.Good() && 0 <= x < h.p
    ensures 0 <= Eval(h, x) < h.p
    ensures Preimage(h, Eval(h, x)) == x
  {
    MulNonNegative(x, h.x);
    var e := x * h.x + h.y;
    var t := Eval(h, x);
    ModIdempotent(e, h.p);
    ModAdd(t, e, -h.y, h.p);
    var d, f := t - h.y, x * h.x;
    ModMul(d, f, h.inv, h.p);
    assert f * h.inv == x * h.inv * h.x by { assert x * h.x * h.inv == x * h.inv * h.x; }
    SlopeCancels(h, x);
    ModIdentity(x, h.p);
  }

  /** Hashing to a target in range is the same as being its preimage. */
  lemma HashesToIff(h: Hash, x: int, t: int)
    requires h.Good() && 0 <= x < h.p
    ensures Eval(h, x) == t <==> 0 <= t < h.p && x == Preimage(h, t)
  {
    PreimageInverts(h, x);
    if 0 <= t < h.p {
      PreimageIsPreimage(h, t);
    }
  }

  // ---------------------------------------------------------------- the repository's constants

  lemma HashIsGood()
    ensures HASH.Good()
  {
    assert BIG_X * BIG_X_INVERSE == 5418467 * POW_LIMIT + 1;
    ModUnique(BIG_X * BIG_X_INVERSE, 5418467, 1, POW_LIMIT);
  }

  /** On its whole domain the computation stays within a 64-bit `long`, lands in
      [0, POW_LIMIT), and the map is a permutation of that range. */
  lemma PowHashIsABijection(x: int)
    requires 0 <= x < POW_LIMIT
    ensures 0 <= x * BIG_X <= x * BIG_X + BIG_Y <= LONG_MAX
    ensures 0 <= PowHash(x) < POW_LIMIT
    ensures 0 <= Preimage(HASH, x) < POW_LIMIT && PowHash(Preimage(HASH, x)) == x
    ensures forall z :: 0 <= z < POW_LIMIT && PowHash(z) == PowHash(x) ==> z == x
  {
    HashIsGood();
    PreimageInverts(HASH, x);
    PreimageIsPreimage(HASH, x);
    forall z | 0 <= z < POW_LIMIT && PowHash(z) == PowHash(x) ensures z == x {
      PreimageInverts(HASH, z);
    }
  }

  /** Iterated preimages of a target: the chain that a miner walks. */
  function Ancestor(t: int, k: nat): int {
    if k == 0 then t else Preimage(HASH, Ancestor(t, k - 1))
  }
}
