/** The occupancy bound of `Ring.FifoAtLowOccupancy` is tight: for every ring whose length
    does not divide its counter's modulus there is a schedule that never holds more than one
    block above the bound and makes a monitor read the wrong block. */
module RingJump {
  import opened Modular
  import opened RingSlots
  import opened Ring

  /** Legal, and never more than `bound` unread blocks on the way. */
  ghost predicate Tame(r: Shape, s0: State<int>, steps: seq<Step<int>>, bound: int)
    requires r.Good() && |s0.mem.slots| == r.length
  {
    && Legal(r, s0, steps)
    && (forall k :: 0 <= k <= |steps| ==> Legal(r, s0, steps[..k]) && Occupancy(After(r, s0, steps[..k])) <= bound)
  }

  lemma Take(r: Shape, s0: State<int>, steps: seq<Step<int>>, step: Step<int>, bound: int)
    returns (steps': seq<Step<int>>)
    requires r.Good() && |s0.mem.slots| == r.length && Tame(r, s0, steps, bound)
    requires Enabled(After(r, s0, steps), step)
    requires Occupancy(Next(r, After(r, s0, steps), step)) <= bound
    ensures Tame(r, s0, steps', bound) && After(r, s0, steps') == Next(r, After(r, s0, steps), step)
  {
    steps' := steps + [step];
    assert steps'[..|steps|] == steps;
    forall k | 0 <= k <= |steps'|
      ensures Legal(r, s0, steps'[..k]) && Occupancy(After(r, s0, steps'[..k])) <= bound
    {
      if k <= |steps| {
        assert steps'[..k] == steps[..k];
      } else {
        assert steps'[..k] == steps';
      }
    }
  }

  /** One idle monitor; the blocks 0, 1, 2, ... have been written up to n + k and n of them
      have been taken out. */
  ghost predicate Holding(r: Shape, s: State<int>, n: nat, k: nat) {
    && s.mem.Fits(r) && k <= r.length
    && s.mem.writing == r.Counter(n + k) && s.mem.reading == r.Counter(n)
    && s.mutex == 1 && s.empty == r.length - k && s.fill == k
    && s.producer == Receiving && s.consumers == map[0 := AwaitFill]
    && |s.written| == n + k && |s.read| == n
    && (forall i :: 0 <= i < n + k ==> s.written[i] == i)
    && (n + k > 0 ==> s.mem.slots[r.Slot(n + k - 1)] == n + k - 1)
  }

  /** The producer passes block number n + k through the buffer's semaphores. */
  lemma Produce(r: Shape, s0: State<int>, steps: seq<Step<int>>, bound: int, n: nat, k: nat)
    returns (steps': seq<Step<int>>)
    requires r.Good() && |s0.mem.slots| == r.length && Tame(r, s0, steps, bound)
    requires Holding(r, After(r, s0, steps), n, k) && k < r.length && k < bound
    ensures Tame(r, s0, steps', bound) && Holding(r, After(r, s0, steps'), n, k + 1)
  {
    var s := After(r, s0, steps);
    steps' := Take(r, s0, steps, Receive(n + k), bound);
    steps' := Take(r, s0, steps', ProducerEmpty, bound);
    steps' := Take(r, s0, steps', ProducerLock, bound);
    var inside := s.(empty := s.empty - 1, mutex := 0, producer := Writing(n + k));
    assert After(r, s0, steps') == inside;
    steps' := Release(r, s0, steps', bound, n, k, s);
  }

  lemma HoldingOneMore(r: Shape, s: State<int>, n: nat, k: nat)
    requires Holding(r, s, n, k) && k < r.length
    ensures Holding(r, s.(mem := s.mem.Put(r, n + k), empty := s.empty - 1, fill := s.fill + 1,
                          written := s.written + [n + k]), n, k + 1)
  {
    CounterSuccessor(r, n + k);
    assert s.mem.Put(r, n + k).slots[r.Slot(n + k)] == n + k;
  }

  lemma Release(r: Shape, s0: State<int>, steps: seq<Step<int>>, bound: int, n: nat, k: nat, s: State<int>)
    returns (steps': seq<Step<int>>)
    requires r.Good() && |s0.mem.slots| == r.length && Tame(r, s0, steps, bound)
    requires Holding(r, s, n, k) && k < r.length && k < bound
    requires After(r, s0, steps) == s.(empty := s.empty - 1, mutex := 0, producer := Writing(n + k))
    ensures Tame(r, s0, steps', bound) && Holding(r, After(r, s0, steps'), n, k + 1)
  {
    var mem := s.mem.Put(r, n + k);
    HoldingOneMore(r, s, n, k);
    steps' := Take(r, s0, steps, ProducerWrite, bound);
    assert After(r, s0, steps') == s.(mem := mem, empty := s.empty - 1, mutex := 0, written := s.written + [n + k],
        producer := Written);
    steps' := Take(r, s0, steps', ProducerUnlock, bound);
    steps' := Take(r, s0, steps', ProducerFill, bound);
    assert After(r, s0, steps') == s.(mem := mem, empty := s.empty - 1, fill := s.fill + 1,
        written := s.written + [n + k]);
  }

  /** The monitor gets its token and the mutex. */
  lemma LockToRead(r: Shape, s0: State<int>, steps: seq<Step<int>>, bound: int, n: nat, k: nat)
    returns (steps': seq<Step<int>>)
    requires r.Good() && |s0.mem.slots| == r.length && Tame(r, s0, steps, bound)
    requires Holding(r, After(r, s0, steps), n, k + 1) && k + 1 <= bound
    ensures Tame(r, s0, steps', bound)
    ensures var s := After(r, s0, steps);
      After(r, s0, steps') == s.(mutex := 0, fill := s.fill - 1, consumers := map[0 := Reading])
  {
    steps' := Take(r, s0, steps, ConsumerFill(0), bound);
    steps' := Take(r, s0, steps', ConsumerLock(0), bound);
    assert After(r, s0, steps').consumers == map[0 := Reading];
  }

  /** It reads block number n. */
  lemma ReadOne(r: Shape, s0: State<int>, steps: seq<Step<int>>, bound: int, n: nat, k: nat)
    returns (steps': seq<Step<int>>)
    requires r.Good() && |s0.mem.slots| == r.length && Tame(r, s0, steps, bound)
    requires Holding(r, After(r, s0, steps), n, k + 1) && k + 1 <= bound
    ensures Tame(r, s0, steps', bound)
    ensures var s := After(r, s0, steps); var item := s.mem.slots[r.Slot(n)];
      After(r, s0, steps') == s.(mem := Memory(s.mem.slots, s.mem.writing, r.Counter(n + 1)), mutex := 0,
                                 fill := s.fill - 1, read := s.read + [(0, item)], consumers := map[0 := Taken(item)])
  {
    var s := After(r, s0, steps);
    steps' := LockToRead(r, s0, steps, bound, n, k);
    CounterSuccessor(r, n);
    steps' := Take(r, s0, steps', ConsumerRead(0), bound);
    assert After(r, s0, steps').consumers == map[0 := Taken(s.mem.slots[r.Slot(n)])];
  }

  /** The monitor takes one block out. */
  lemma Consume(r: Shape, s0: State<int>, steps: seq<Step<int>>, bound: int, n: nat, k: nat)
    returns (steps': seq<Step<int>>)
    requires r.Good() && |s0.mem.slots| == r.length && Tame(r, s0, steps, bound)
    requires Holding(r, After(r, s0, steps), n, k + 1) && k + 1 <= bound
    ensures Tame(r, s0, steps', bound) && Holding(r, After(r, s0, steps'), n + 1, k)
  {
    steps' := ReadOne(r, s0, steps, bound, n, k);
    steps' := Take(r, s0, steps', ConsumerUnlock(0), bound);
    steps' := Take(r, s0, steps', ConsumerEmpty(0), bound);
    assert After(r, s0, steps').consumers == map[0 := AwaitFill];
  }

  lemma Start(r: Shape, bound: nat) returns (s0: State<int>, steps: seq<Step<int>>)
    requires r.Good()
    ensures Init(r, s0) && Tame(r, s0, steps, bound) && Holding(r, After(r, s0, steps), 0, 0)
  {
    s0 := State(Memory(seq(r.length, i => 0), 0, 0), 1, r.length, 0, Receiving, map[], [], []);
    if r.modulus != 0 {
      ModIdentity(0, r.modulus);
    }
    assert Tame(r, s0, [], bound);
    steps := Take(r, s0, [], Attach(0), bound);
  }

  lemma {:induction false} Cycle(r: Shape, bound: nat, n: nat) returns (s0: State<int>, steps: seq<Step<int>>)
    requires r.Good() && bound >= 1
    ensures Init(r, s0) && Tame(r, s0, steps, bound) && Holding(r, After(r, s0, steps), n, 0)
  {
    hide Legal, After, Tame, Holding;
    if n == 0 {
      s0, steps := Start(r, bound);
    } else {
      s0, steps := Cycle(r, bound, n - 1);
      steps := Produce(r, s0, steps, bound, n - 1, 0);
      steps := Consume(r, s0, steps, bound, n - 1, 0);
    }
  }

  lemma {:induction false} FillUp(r: Shape, bound: nat, n: nat, k: nat) returns (s0: State<int>, steps: seq<Step<int>>)
    requires r.Good() && 1 <= bound && k <= bound && k <= r.length
    ensures Init(r, s0) && Tame(r, s0, steps, bound) && Holding(r, After(r, s0, steps), n, k)
  {
    if k == 0 {
      s0, steps := Cycle(r, bound, n);
    } else {
      s0, steps := FillUp(r, bound, n, k - 1);
      steps := Produce(r, s0, steps, bound, n, k - 1);
    }
  }

  /** A ring fills up to its length while nothing is read. */
  lemma RingFills(r: Shape) returns (s0: State<int>, steps: seq<Step<int>>)
    requires r.Good()
    ensures Init(r, s0) && Legal(r, s0, steps)
    ensures After(r, s0, steps).read == [] && |After(r, s0, steps).written| == r.length
  {
    s0, steps := FillUp(r, r.length, 0, r.length);
  }

  /** The ring of P3 comes to hold six unread blocks, and never holds more. */
  lemma IntRingHoldsSix() returns (s0: State<int>, steps: seq<Step<int>>)
    ensures Init(INT_RING, s0) && Legal(INT_RING, s0, steps)
    ensures After(INT_RING, s0, steps).read == [] && |After(INT_RING, s0, steps).written| == 6
    ensures forall others :: Legal(INT_RING, s0, others) ==> Occupancy(After(INT_RING, s0, others)) <= 6
  {
    s0, steps := RingFills(INT_RING);
    forall others | Legal(INT_RING, s0, others) ensures Occupancy(After(INT_RING, s0, others)) <= 6 {
      SemaphoreAccounting(INT_RING, s0, others);
    }
  }

  /** The ring of the final project comes to hold ten unread blocks, and never holds more. */
  lemma ByteRingHoldsTen() returns (s0: State<int>, steps: seq<Step<int>>)
    ensures Init(BYTE_RING, s0) && Legal(BYTE_RING, s0, steps)
    ensures After(BYTE_RING, s0, steps).read == [] && |After(BYTE_RING, s0, steps).written| == 10
    ensures forall others :: Legal(BYTE_RING, s0, others) ==> Occupancy(After(BYTE_RING, s0, others)) <= 10
  {
    s0, steps := RingFills(BYTE_RING);
    forall others | Legal(BYTE_RING, s0, others) ensures Occupancy(After(BYTE_RING, s0, others)) <= 10 {
      SemaphoreAccounting(BYTE_RING, s0, others);
    }
  }

  /** Up to the jump, with one block more than the bound. */
  lemma FillToJump(r: Shape, n: nat, d: nat) returns (s0: State<int>, steps: seq<Step<int>>)
    requires r.Good() && r.modulus != 0 && d == r.modulus % r.length > 0 && n == r.modulus - d
    ensures Init(r, s0) && Tame(r, s0, steps, d + 1) && Holding(r, After(r, s0, steps), n, d + 1)
    ensures r.Slot(n) == r.Slot(n + d)
  {
    hide Legal, After, Tame, Holding;
    s0, steps := FillUp(r, d + 1, n, d + 1);
    ModUnique(r.modulus, 1, 0, r.modulus);
    RepeatAtJump(r, r.modulus, d);
  }

  /** One block above the bound is enough: some schedule never exceeds an occupancy of
      modulus mod length + 1, and yet the last block read is not the one written in its place. */
  lemma JumpBreaksFifo(r: Shape) returns (s0: State<int>, steps: seq<Step<int>>)
    requires r.Good() && r.modulus != 0 && r.modulus % r.length != 0
    ensures Init(r, s0) && Tame(r, s0, steps, r.modulus % r.length + 1)
    ensures !InOrder(After(r, s0, steps))
  {
    hide Legal, Holding, InOrder, Shape.Slot;
    var d := r.modulus % r.length;
    var n := r.modulus - d;
    s0, steps := FillToJump(r, n, d);
    ghost var s := After(r, s0, steps);
    steps := ReadOne(r, s0, steps, d + 1, n, d);
    Misread(r, s, After(r, s0, steps), n, d);
  }

  /** Block n + d in the slot of block n is read in its place. */
  lemma Misread(r: Shape, s: State<int>, s': State<int>, n: nat, d: nat)
    requires Holding(r, s, n, d + 1) && d > 0 && r.Slot(n) == r.Slot(n + d)
    requires s'.written == s.written && s'.read == s.read + [(0, s.mem.slots[r.Slot(n)])]
    ensures !InOrder(s')
  {
    assert s'.written[n] == n;
    assert Items(s'.read)[n] == n + d;
  }

  /** In the final project's ring seven unread blocks suffice. */
  lemma ByteRingBreaksAtSeven() returns (s0: State<int>, steps: seq<Step<int>>)
    ensures Init(BYTE_RING, s0) && Tame(BYTE_RING, s0, steps, 7)
    ensures !InOrder(After(BYTE_RING, s0, steps))
  {
    s0, steps := JumpBreaksFifo(BYTE_RING);
  }
}
