/** Which slots a ring of L entries uses when it is addressed by a free-running counter.

    The counter either never wraps (modulus 0) or wraps at `modulus`. When the length does
    not divide the modulus, the slot sequence jumps at the wrap: with 8-bit counters and
    10 slots it goes ..., 4, 5, 0, 1, ... instead of continuing with 6. */
module RingSlots {
  import opened Modular

  datatype Shape = Shape(modulus: nat, length: nat) {
    predicate Good() {
      1 <= length && (modulus == 0 || length <= modulus)
    }

    /** The value the counter variable holds after c increments. */
    function Counter(c: nat): nat {
      if modulus == 0 then c else c % modulus
    }

    /** The slot addressed by the counter after c increments. */
    function Slot(c: nat): nat
      requires Good()
      ensures Slot(c) < length
    {
      Counter(c) % length
    }

    /** Some wrap of the counter falls inside the window [a, a + k). */
    predicate Straddles(a: nat, k: nat) {
      modulus != 0 && a % modulus + k > modulus
    }

    /** The condition under which k entries starting at count a occupy k different slots. */
    predicate WindowFits(a: nat, k: nat)
      requires Good()
    {
      && k <= length
      && (!Straddles(a, k) || modulus % length == 0 || k <= modulus % length)
    }

    ghost predicate DistinctSlots(a: nat, k: nat)
      requires Good()
    {
      forall i: nat, j: nat :: a <= i < j < a + k ==> Slot(i) != Slot(j)
    }
  }

  /** The ring of the final project: `uint8_t` counters, 10 slots. */
  const BYTE_RING := Shape(256, 10)

  /** The ring of P3: counters taken as unbounded, 6 slots. */
  const INT_RING := Shape(0, 6)

  /** Inside a window, the counter of an entry is the distance from the window's start,
      minus one modulus if the wrap lies between. */
  lemma CounterInWindow(r: Shape, a: nat, i: nat)
    requires r.Good() && r.modulus != 0 && a <= i < a + r.modulus
    ensures r.Counter(i) == if a % r.modulus + (i - a) < r.modulus
                            then a % r.modulus + (i - a)
                            else a % r.modulus + (i - a) - r.modulus
  {
    var m := r.modulus;
    var v := a % m + (i - a);
    assert i == (a / m) * m + v;
    if v < m {
      ModUnique(i, a / m, v, m);
    } else {
      assert (a / m + 1) * m == (a / m) * m + m;
      ModUnique(i, a / m + 1, v - m, m);
    }
  }

  /** Remainders modulo L of numbers m - d apart, where m % L and d differ by less than L. */
  lemma RemaindersAcrossWrap(x: int, y: int, d: int, m: int, L: int)
    requires 0 < L && x - y == m - d
    requires m % L != d && -L < m % L - d < L
    ensures x % L != y % L
  {
    var e := x / L - y / L - m / L;
    assert e * L == (x / L) * L - (y / L) * L - (m / L) * L;
    MulBounds(e, L);
  }

  lemma FittingSlotsDiffer(r: Shape, a: nat, k: nat, i: nat, j: nat)
    requires r.Good() && r.WindowFits(a, k) && a <= i < j < a + k
    ensures r.Slot(i) != r.Slot(j)
  {
    if r.modulus == 0 {
      NearbyRemaindersDiffer(i, j, r.length);
    } else {
      CounterInWindow(r, a, i);
      CounterInWindow(r, a, j);
      if r.Counter(i) < r.Counter(j) {
        NearbyRemaindersDiffer(r.Counter(i), r.Counter(j), r.length);
      } else {
        RemaindersAcrossWrap(r.Counter(i), r.Counter(j), j - i, r.modulus, r.length);
      }
    }
  }

  /** L steps later the counter has advanced by L, or by L less one modulus. */
  lemma CounterWraps(r: Shape, a: nat, d: nat)
    requires r.Good() && r.modulus != 0 && d <= r.modulus && r.Straddles(a, d + 1)
    ensures r.Counter(a + d) == r.Counter(a) + d - r.modulus
  {
    var m := r.modulus;
    assert (a / m + 1) * m == (a / m) * m + m;
    ModUnique(a + d, a / m + 1, a % m + d - m, m);
  }

  lemma RepeatWithoutWrap(r: Shape, a: nat)
    requires r.Good() && (r.modulus == 0 || !r.Straddles(a, r.length + 1))
    ensures r.Slot(a) == r.Slot(a + r.length)
  {
    if r.modulus != 0 {
      CounterInWindow(r, a, a + r.length);
    }
    ModShift(r.Counter(a), 1, r.length);
  }

  lemma RepeatAcrossWrap(r: Shape, a: nat)
    requires r.Good() && r.modulus != 0 && r.modulus % r.length == 0 && r.Straddles(a, r.length + 1)
    ensures r.Slot(a) == r.Slot(a + r.length)
  {
    var m, L := r.modulus, r.length;
    CounterWraps(r, a, L);
    var q: int := m / L;
    assert m == q * L;
    assert (1 - q) * L == L - q * L;
    ModShift(r.Counter(a), 1 - q, L);
  }

  /** At the wrap, entries modulus mod length apart share a slot. */
  lemma RepeatAtJump(r: Shape, w: nat, x: nat)
    requires r.Good() && r.modulus != 0 && w > 0 && w % r.modulus == 0 && 1 <= x <= r.modulus % r.length
    ensures x <= w && r.Slot(w - x) == r.Slot(w - x + r.modulus % r.length)
  {
    var m, L := r.modulus, r.length;
    var s := m % L;
    var q := w / m;
    assert w == q * m;
    MulBounds(q, m);
    assert (q - 1) * m == q * m - m;
    ModUnique(w - x, q - 1, m - x, m);
    ModUnique(w - x + s, q, s - x, m);
    assert m - x == s - x + (m / L) * L;
    ModShift(s - x, m / L, L);
  }

  /** Two entries of a window that does not fit share a slot. */
  lemma Collision(r: Shape, a: nat, k: nat) returns (i: nat, j: nat)
    requires r.Good() && !r.WindowFits(a, k)
    ensures a <= i < j < a + k && r.Slot(i) == r.Slot(j)
  {
    if r.modulus == 0 || !r.Straddles(a, r.length + 1) {
      i, j := a, a + r.length;
      RepeatWithoutWrap(r, a);
    } else if r.modulus % r.length == 0 {
      i, j := a, a + r.length;
      RepeatAcrossWrap(r, a);
    } else {
      var s := r.modulus % r.length;
      var before := r.modulus - a % r.modulus;
      var w := a + before;
      assert w == (a / r.modulus + 1) * r.modulus by {
        assert (a / r.modulus + 1) * r.modulus == (a / r.modulus) * r.modulus + r.modulus;
      }
      ModUnique(w, a / r.modulus + 1, 0, r.modulus);
      var x := if before <= s then before else s;
      RepeatAtJump(r, w, x);
      i, j := w - x, w - x + s;
    }
  }

  /** The slots of a window are pairwise different exactly when the window has at most
      `length` entries and, if the counter wraps inside it and the length does not divide
      the modulus, at most modulus mod length of them. */
  lemma DistinctIffFits(r: Shape, a: nat, k: nat)
    requires r.Good()
    ensures r.DistinctSlots(a, k) <==> r.WindowFits(a, k)
  {
    if r.WindowFits(a, k) {
      forall i: nat, j: nat | a <= i < j < a + k ensures r.Slot(i) != r.Slot(j) {
        FittingSlotsDiffer(r, a, k, i, j);
      }
    } else {
      var i, j := Collision(r, a, k);
    }
  }

  /** For P3's ring: distinct slots exactly for windows of at most 6 entries. */
  lemma IntRingWindows(a: nat, k: nat)
    ensures INT_RING.DistinctSlots(a, k) <==> k <= 6
  {
    DistinctIffFits(INT_RING, a, k);
  }

  /** For the final project's ring and at most 10 unread blocks: distinct slots unless the
      window straddles the 255 -> 0 wrap and holds more than 6. */
  lemma ByteRingWindows(a: nat, k: nat)
    requires k <= 10
    ensures BYTE_RING.DistinctSlots(a, k) <==> a % 256 + k <= 256 || k <= 6
  {
    DistinctIffFits(BYTE_RING, a, k);
  }
}
