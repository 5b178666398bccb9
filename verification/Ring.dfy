/** The bounded buffer between the comprobador (one producer) and the monitors (any number
    of consumers): a ring in shared memory, a mutex, and two counting semaphores.

    Every step is one semaphore operation or one protected region; a schedule interleaves
    the steps of all processes arbitrarily. `sem_wait` is taken to return only after it has
    acquired. The results cover the P3 ring and the final project's ring, which differ in
    their Shape. */
module Ring {
  import opened Counting
  import opened RingSlots

  // ---------------------------------------------------------------- shared memory

  /** The slots and the two counters as stored. */
  datatype Memory<T> = Memory(slots: seq<T>, writing: nat, reading: nat) {
    ghost predicate Fits(r: Shape) {
      r.Good() && |slots| == r.length
    }

    /** The producer's protected region. */
    function Put(r: Shape, x: T): Memory<T>
      requires r.Good() && |slots| == r.length
    {
      Memory(slots[writing % r.length := x], r.Counter(writing + 1), reading)
    }

    /** The consumer's protected region: what it copies out, and the advanced counter. */
    function Get(r: Shape): (T, Memory<T>)
      requires r.Good() && |slots| == r.length
    {
      (slots[reading % r.length], Memory(slots, writing, r.Counter(reading + 1)))
    }
  }

  // ---------------------------------------------------------------- processes

  datatype Producer<T> =
    | Receiving                 // at mq_receive
    | AwaitEmpty(msg: T)        // before sem_wait(gym_empty)
    | AwaitMutex(msg: T)        // before sem_wait(gym_mutex)
    | Writing(msg: T)           // holds the mutex, block not yet written
    | Written                   // holds the mutex, block written
    | PostFill                  // before sem_post(gym_fill)

  datatype Consumer<T> =
    | AwaitFill                 // before sem_wait(gym_fill)
    | AwaitLock                 // before sem_wait(gym_mutex)
    | Reading                   // holds the mutex, block not yet read
    | Taken(item: T)            // holds the mutex, block read
    | PostEmpty(item: T)        // before sem_post(gym_empty)

  datatype State<T> = State(mem: Memory<T>, mutex: nat, empty: nat, fill: nat,
                            producer: Producer<T>, consumers: map<int, Consumer<T>>,
                            written: seq<T>, read: seq<(int, T)>)

  datatype Step<T> =
    | Receive(msg: T) | ProducerEmpty | ProducerLock | ProducerWrite | ProducerUnlock | ProducerFill
    | Attach(c: int) | Detach(c: int)
    | ConsumerFill(c: int) | ConsumerLock(c: int) | ConsumerRead(c: int) | ConsumerUnlock(c: int)
    | ConsumerEmpty(c: int)

  ghost predicate Init<T>(r: Shape, s: State<T>) {
    && s.mem.Fits(r) && s.mem.writing == 0 && s.mem.reading == 0
    && s.mutex == 1 && s.empty == r.length && s.fill == 0
    && s.producer == Receiving && s.consumers == map[] && s.written == [] && s.read == []
  }

  predicate Enabled<T>(s: State<T>, step: Step<T>) {
    match step
    case Receive(_) => s.producer.Receiving?
    case ProducerEmpty => s.producer.AwaitEmpty? && s.empty > 0
    case ProducerLock => s.producer.AwaitMutex? && s.mutex > 0
    case ProducerWrite => s.producer.Writing?
    case ProducerUnlock => s.producer.Written?
    case ProducerFill => s.producer.PostFill?
    case Attach(c) => c !in s.consumers && s.mutex > 0
    case Detach(c) => c in s.consumers && s.consumers[c].AwaitFill?
    case ConsumerFill(c) => c in s.consumers && s.consumers[c].AwaitFill? && s.fill > 0
    case ConsumerLock(c) => c in s.consumers && s.consumers[c].AwaitLock? && s.mutex > 0
    case ConsumerRead(c) => c in s.consumers && s.consumers[c].Reading?
    case ConsumerUnlock(c) => c in s.consumers && s.consumers[c].Taken?
    case ConsumerEmpty(c) => c in s.consumers && s.consumers[c].PostEmpty?
  }

  function Next<T>(r: Shape, s: State<T>, step: Step<T>): State<T>
    requires r.Good() && |s.mem.slots| == r.length && Enabled(s, step)
  {
    match step
    case Receive(msg) => s.(producer := AwaitEmpty(msg))
    case ProducerEmpty => s.(empty := s.empty - 1, producer := AwaitMutex(s.producer.msg))
    case ProducerLock => s.(mutex := s.mutex - 1, producer := Writing(s.producer.msg))
    case ProducerWrite =>
      s.(mem := s.mem.Put(r, s.producer.msg), written := s.written + [s.producer.msg], producer := Written)
    case ProducerUnlock => s.(mutex := s.mutex + 1, producer := PostFill)
    case ProducerFill => s.(fill := s.fill + 1, producer := Receiving)
    case Attach(c) => s.(consumers := s.consumers[c := AwaitFill])
    case Detach(c) => s.(consumers := s.consumers - {c})
    case ConsumerFill(c) => s.(fill := s.fill - 1, consumers := s.consumers[c := AwaitLock])
    case ConsumerLock(c) => s.(mutex := s.mutex - 1, consumers := s.consumers[c := Reading])
    case ConsumerRead(c) =>
      var (item, mem) := s.mem.Get(r);
      s.(mem := mem, read := s.read + [(c, item)], consumers := s.consumers[c := Taken(item)])
    case ConsumerUnlock(c) => s.(mutex := s.mutex + 1, consumers := s.consumers[c := PostEmpty(s.consumers[c].item)])
    case ConsumerEmpty(c) => s.(empty := s.empty + 1, consumers := s.consumers[c := AwaitFill])
  }

  /** Each step of the schedule is enabled where it is taken. */
  ghost predicate Legal<T>(r: Shape, s0: State<T>, steps: seq<Step<T>>)
    requires r.Good() && |s0.mem.slots| == r.length
    decreases |steps|, 0
  {
    steps == [] ||
    (Legal(r, s0, steps[..|steps| - 1]) && Enabled(After(r, s0, steps[..|steps| - 1]), steps[|steps| - 1]))
  }

  ghost function After<T>(r: Shape, s0: State<T>, steps: seq<Step<T>>): (s: State<T>)
    requires r.Good() && |s0.mem.slots| == r.length && Legal(r, s0, steps)
    ensures |s.mem.slots| == r.length
    decreases |steps|, 1
  {
    if steps == [] then s0 else Next(r, After(r, s0, steps[..|steps| - 1]), steps[|steps| - 1])
  }

  // ---------------------------------------------------------------- accounting

  predicate ProducerHoldsMutex<T>(p: Producer<T>) { p.Writing? || p.Written? }
  predicate ProducerHoldsToken<T>(p: Producer<T>) { p.AwaitMutex? || p.Writing? || p.Written? || p.PostFill? }
  predicate ProducerAhead<T>(p: Producer<T>) { p.Written? || p.PostFill? }

  predicate HoldsMutex<T>(c: Consumer<T>) { c.Reading? || c.Taken? }
  predicate HoldsToken<T>(c: Consumer<T>) { c.AwaitLock? || c.Reading? || c.Taken? || c.PostEmpty? }
  predicate Claims<T>(c: Consumer<T>) { c.AwaitLock? || c.Reading? }

  function Occupancy<T>(s: State<T>): int {
    |s.written| - |s.read|
  }

  /** The mutex and the semaphores account for every process, and the stored counters for
      every write and read. */
  ghost predicate Accounts<T>(r: Shape, s: State<T>) {
    && s.mem.Fits(r)
    && s.mem.writing == r.Counter(|s.written|) && s.mem.reading == r.Counter(|s.read|)
    && s.mutex + One(ProducerHoldsMutex(s.producer)) + Count(s.consumers, HoldsMutex<T>) == 1
    && s.empty + s.fill + One(ProducerHoldsToken(s.producer)) + Count(s.consumers, HoldsToken<T>) == r.length
    && Occupancy(s) == s.fill + One(ProducerAhead(s.producer)) + Count(s.consumers, Claims<T>)
  }

  /** Incrementing a stored counter is the same as storing the incremented count. */
  lemma CounterSuccessor(r: Shape, n: nat)
    requires r.Good()
    ensures r.Counter(r.Counter(n) + 1) == r.Counter(n + 1)
  {
    if r.modulus != 0 {
      Modular.ModAdd(n % r.modulus, n, 1, r.modulus);
      Modular.ModIdempotent(n, r.modulus);
    }
  }

  lemma InitAccounts<T>(r: Shape, s: State<T>)
    requires r.Good() && Init(r, s)
    ensures Accounts(r, s)
  {
    if r.modulus != 0 {
      Modular.ModIdentity(0, r.modulus);
    }
    AllWaiting(s);
  }

  predicate IsProducers<T>(step: Step<T>) {
    step.Receive? || step.ProducerEmpty? || step.ProducerLock? || step.ProducerWrite? || step.ProducerUnlock?
        || step.ProducerFill?
  }

  lemma ProducerAccounts<T>(r: Shape, s: State<T>, step: Step<T>)
    requires Accounts(r, s) && Enabled(s, step) && IsProducers(step)
    ensures Accounts(r, Next(r, s, step))
  {
    CounterSuccessor(r, |s.written|);
  }

  lemma ConsumerAccounts<T>(r: Shape, s: State<T>, step: Step<T>)
    requires Accounts(r, s) && Enabled(s, step) && !IsProducers(step) && !step.Detach?
    ensures Accounts(r, Next(r, s, step))
  {
    var s' := Next(r, s, step);
    CounterSuccessor(r, |s.read|);
    CountUpdate(s.consumers, step.c, s'.consumers[step.c], HoldsMutex<T>);
    CountUpdate(s.consumers, step.c, s'.consumers[step.c], HoldsToken<T>);
    CountUpdate(s.consumers, step.c, s'.consumers[step.c], Claims<T>);
  }

  lemma NextAccounts<T>(r: Shape, s: State<T>, step: Step<T>)
    requires Accounts(r, s) && Enabled(s, step)
    ensures Accounts(r, Next(r, s, step))
  {
    if IsProducers(step) {
      ProducerAccounts(r, s, step);
    } else if step.Detach? {
      CountRemove(s.consumers, step.c, HoldsMutex<T>);
      CountRemove(s.consumers, step.c, HoldsToken<T>);
      CountRemove(s.consumers, step.c, Claims<T>);
    } else {
      ConsumerAccounts(r, s, step);
    }
  }

  lemma {:induction false} AfterAccounts<T>(r: Shape, s0: State<T>, steps: seq<Step<T>>)
    requires r.Good() && Init(r, s0) && Legal(r, s0, steps)
    ensures Accounts(r, After(r, s0, steps))
  {
    if steps == [] {
      InitAccounts(r, s0);
    } else {
      var l := |steps| - 1;
      AfterAccounts(r, s0, steps[..l]);
      NextAccounts(r, After(r, s0, steps[..l]), steps[l]);
    }
  }

  lemma OccupancyBounds<T>(r: Shape, s: State<T>)
    requires Accounts(r, s)
    ensures 0 <= Occupancy(s) <= r.length
  {
    CountMonotone(s.consumers, Claims<T>, HoldsToken<T>);
  }

  /** Semaphore accounting in every reachable state, and the bound on the occupancy that
      follows from it. */
  lemma SemaphoreAccounting<T>(r: Shape, s0: State<T>, steps: seq<Step<T>>)
    requires r.Good() && Init(r, s0) && Legal(r, s0, steps)
    ensures var s := After(r, s0, steps);
      && s.empty + s.fill + One(ProducerHoldsToken(s.producer)) + Count(s.consumers, HoldsToken<T>) == r.length
      && s.mutex + One(ProducerHoldsMutex(s.producer)) + Count(s.consumers, HoldsMutex<T>) == 1
      && 0 <= Occupancy(s) <= r.length
  {
    AfterAccounts(r, s0, steps);
    OccupancyBounds(r, After(r, s0, steps));
  }

  lemma AllWaiting<T>(s: State<T>)
    requires forall c :: c in s.consumers ==> s.consumers[c].AwaitFill?
    ensures Count(s.consumers, HoldsMutex<T>) == 0
    ensures Count(s.consumers, HoldsToken<T>) == 0 && Count(s.consumers, Claims<T>) == 0
  {
    forall c | c in s.consumers
      ensures !HoldsMutex<T>(s.consumers[c]) && !HoldsToken<T>(s.consumers[c]) && !Claims<T>(s.consumers[c])
    {
      assert s.consumers[c].AwaitFill?;
    }
    CountZero(s.consumers, HoldsMutex<T>);
    CountZero(s.consumers, HoldsToken<T>);
    CountZero(s.consumers, Claims<T>);
  }

  predicate IsInternal<T>(step: Step<T>) {
    !step.Receive? && !step.Attach? && !step.Detach?
  }

  /** Everything written has been read, and every process waits for new work. */
  ghost predicate Quiet<T>(s: State<T>) {
    s.producer.Receiving? && (forall c :: c in s.consumers ==> s.consumers[c].AwaitFill?) && Occupancy(s) == 0
  }

  lemma SomeoneMoves<T>(r: Shape, s: State<T>)
    requires Accounts(r, s) && exists c :: c in s.consumers
    ensures (exists step: Step<T> :: IsInternal(step) && Enabled(s, step)) || Quiet(s)
  {
    if Enabled(s, ProducerEmpty) || Enabled(s, ProducerLock) || Enabled(s, ProducerWrite)
       || Enabled(s, ProducerUnlock) || Enabled(s, ProducerFill) {
    } else if s.mutex == 0 {
      var c := CountWitness(s.consumers, HoldsMutex<T>);
      assert Enabled(s, if s.consumers[c].Reading? then ConsumerRead(c) else ConsumerUnlock(c));
    } else if c :| c in s.consumers && !s.consumers[c].AwaitFill? {
      assert s.consumers[c].AwaitLock? || s.consumers[c].PostEmpty? by {
        if HoldsMutex(s.consumers[c]) {
          CountPositive(s.consumers, c, HoldsMutex<T>);
        }
      }
      assert Enabled(s, if s.consumers[c].AwaitLock? then ConsumerLock(c) else ConsumerEmpty(c));
    } else {
      assert forall c :: c in s.consumers ==> s.consumers[c].AwaitFill?;
      AllWaiting(s);
      if s.fill > 0 {
        var c :| c in s.consumers;
        assert Enabled(s, ConsumerFill(c));
      }
    }
  }

  /** No deadlock, with at least one monitor: some process other than the message source can
      always move, unless everything written has been read and all wait for new work. */
  lemma NoDeadlock<T>(r: Shape, s0: State<T>, steps: seq<Step<T>>)
    requires r.Good() && Init(r, s0) && Legal(r, s0, steps)
    requires exists c :: c in After(r, s0, steps).consumers
    ensures (exists step: Step<T> :: IsInternal(step) && Enabled(After(r, s0, steps), step))
        || Quiet(After(r, s0, steps))
  {
    AfterAccounts(r, s0, steps);
    SomeoneMoves(r, After(r, s0, steps));
  }

  /** The two sides never block each other: the comprobador is not stopped at `gym_empty`
      while every monitor is stopped at `gym_fill`. */
  lemma NotBothBlocked<T>(r: Shape, s0: State<T>, steps: seq<Step<T>>)
    requires r.Good() && Init(r, s0) && Legal(r, s0, steps)
    ensures var s := After(r, s0, steps);
      !(s.producer.AwaitEmpty? && s.empty == 0 && s.fill == 0
          && forall c :: c in s.consumers ==> s.consumers[c].AwaitFill?)
  {
    var s := After(r, s0, steps);
    AfterAccounts(r, s0, steps);
    if forall c :: c in s.consumers ==> s.consumers[c].AwaitFill? {
      AllWaiting(s);
    }
  }

  /** Whoever holds the mutex is never waiting: its next step is enabled. */
  lemma MutexHolderMoves<T>(r: Shape, s0: State<T>, steps: seq<Step<T>>)
    requires r.Good() && Init(r, s0) && Legal(r, s0, steps) && After(r, s0, steps).mutex == 0
    ensures var s := After(r, s0, steps);
      || Enabled(s, ProducerWrite) || Enabled(s, ProducerUnlock)
      || exists c :: Enabled(s, ConsumerRead(c)) || Enabled(s, ConsumerUnlock(c))
  {
    var s := After(r, s0, steps);
    AfterAccounts(r, s0, steps);
    if !ProducerHoldsMutex(s.producer) {
      var c := CountWitness(s.consumers, HoldsMutex<T>);
      assert Enabled(s, ConsumerRead(c)) || Enabled(s, ConsumerUnlock(c));
    }
  }

  /** A monitor comes in through the mutex: it can attach exactly while no process is inside a
      protected region. */
  lemma AttachesIffFree<T>(r: Shape, s0: State<T>, steps: seq<Step<T>>, c: int)
    requires r.Good() && Init(r, s0) && Legal(r, s0, steps)
    ensures var s := After(r, s0, steps);
      Enabled(s, Attach(c))
      <==> c !in s.consumers && !ProducerHoldsMutex(s.producer)
           && forall d :: d in s.consumers ==> !HoldsMutex(s.consumers[d])
  {
    var s := After(r, s0, steps);
    AfterAccounts(r, s0, steps);
    if s.mutex == 0 && !ProducerHoldsMutex(s.producer) {
      var d := CountWitness(s.consumers, HoldsMutex<T>);
    }
    if d :| d in s.consumers && HoldsMutex(s.consumers[d]) {
      CountPositive(s.consumers, d, HoldsMutex<T>);
    }
  }

  // ---------------------------------------------------------------- who has read what

  /** The last item that consumer c has read is this one. */
  ghost predicate ReadLast<T>(read: seq<(int, T)>, c: int, item: T) {
    exists i :: 0 <= i < |read| && read[i] == (c, item) && forall j :: i < j < |read| ==> read[j].0 != c
  }

  /** The consumer has read an item, and not yet printed it. */
  predicate HoldsItem<T>(c: Consumer<T>) { c.Taken? || c.PostEmpty? }

  /** What a consumer holds is the item that it has read last. */
  ghost predicate HandsOk<T>(s: State<T>) {
    forall c :: c in s.consumers && HoldsItem(s.consumers[c]) ==> ReadLast(s.read, c, s.consumers[c].item)
  }

  lemma ReadLastKept<T>(read: seq<(int, T)>, c: int, item: T, d: int, other: T)
    requires ReadLast(read, c, item) && d != c
    ensures ReadLast(read + [(d, other)], c, item)
  {
    var i :| 0 <= i < |read| && read[i] == (c, item) && forall j :: i < j < |read| ==> read[j].0 != c;
    assert (read + [(d, other)])[i] == (c, item);
  }

  lemma NextHands<T>(r: Shape, s: State<T>, step: Step<T>)
    requires HandsOk(s) && |s.mem.slots| == r.length && r.Good() && Enabled(s, step)
    ensures HandsOk(Next(r, s, step))
  {
    var s' := Next(r, s, step);
    forall c | c in s'.consumers && HoldsItem(s'.consumers[c]) ensures ReadLast(s'.read, c, s'.consumers[c].item) {
      if step == ConsumerRead(c) {
        assert s'.read[|s.read|] == (c, s'.consumers[c].item);
      } else {
        assert HoldsItem(s.consumers[c]) && s.consumers[c].item == s'.consumers[c].item;
        if step.ConsumerRead? {
          ReadLastKept(s.read, c, s.consumers[c].item, step.c, s'.read[|s.read|].1);
        }
      }
    }
  }

  /** Each read is its reader's: what a monitor holds, and then prints, is what the record of
      reads says that this monitor has read last. */
  lemma {:induction false} HeldIsReadLast<T>(r: Shape, s0: State<T>, steps: seq<Step<T>>)
    requires r.Good() && Init(r, s0) && Legal(r, s0, steps)
    ensures HandsOk(After(r, s0, steps))
  {
    if steps != [] {
      HeldIsReadLast(r, s0, steps[..|steps| - 1]);
      NextHands(r, After(r, s0, steps[..|steps| - 1]), steps[|steps| - 1]);
    }
  }

  // ---------------------------------------------------------------- the buffer as a queue

  /** The unread blocks, as a reader of the memory would see them. */
  ghost function Queue<T>(r: Shape, s: State<T>): seq<T>
    requires s.mem.Fits(r) && Occupancy(s) >= 0
  {
    seq(Occupancy(s), i requires 0 <= i < Occupancy(s) => s.mem.slots[r.Slot(|s.read| + i)])
  }

  function Items<T>(read: seq<(int, T)>): seq<T> {
    seq(|read|, i requires 0 <= i < |read| => read[i].1)
  }

  /** What has been read is what was written first. */
  ghost predicate InOrder<T>(s: State<T>) {
    |s.read| <= |s.written| && Items(s.read) == s.written[..|s.read|]
  }

  /** What has been read is what was written first, and the memory still holds the rest. */
  ghost predicate Faithful<T>(r: Shape, s: State<T>) {
    && s.mem.Fits(r)
    && InOrder(s)
    && Queue(r, s) == s.written[|s.read|..]
  }

  /** The unread window of the state occupies distinct slots. */
  predicate WindowOk<T>(r: Shape, s: State<T>)
    requires r.Good()
  {
    Occupancy(s) >= 0 && r.WindowFits(|s.read|, Occupancy(s))
  }

  lemma WriteAppends<T>(r: Shape, s: State<T>)
    requires Accounts(r, s) && Occupancy(s) >= 0 && Enabled(s, ProducerWrite)
    requires WindowOk(r, Next(r, s, ProducerWrite))
    ensures Next(r, s, ProducerWrite).mem.Fits(r)
    ensures Queue(r, Next(r, s, ProducerWrite)) == Queue(r, s) + [s.producer.msg]
  {
    var s' := Next(r, s, ProducerWrite);
    var k := Occupancy(s);
    var slot := r.Slot(|s.written|);
    assert s'.mem.slots == s.mem.slots[slot := s.producer.msg];
    assert |s.read| + k == |s.written|;
    forall i | 0 <= i < k ensures Queue(r, s')[i] == Queue(r, s)[i] {
      FittingSlotsDiffer(r, |s.read|, k + 1, |s.read| + i, |s.written|);
    }
    assert Queue(r, s')[k] == s.producer.msg;
  }

  lemma ReadTakesHead<T>(r: Shape, s: State<T>, c: int)
    requires Accounts(r, s) && Occupancy(s) >= 1 && Enabled(s, ConsumerRead(c))
    ensures var s' := Next(r, s, ConsumerRead(c));
      && s'.mem.Fits(r) && s'.read[..|s.read|] == s.read
      && Queue(r, s) == [s'.read[|s.read|].1] + Queue(r, s')
  {
    var s' := Next(r, s, ConsumerRead(c));
    var q, q' := Queue(r, s), Queue(r, s');
    assert s'.mem.slots == s.mem.slots;
    assert s'.read[|s.read|].1 == s.mem.slots[r.Slot(|s.read|)] == q[0];
    assert |q| == |q'| + 1;
    forall i | 0 <= i < |q'| ensures q'[i] == q[i + 1] {
      assert |s'.read| + i == |s.read| + (i + 1);
    }
  }

  /** One step, seen at the queue: the write appends its block, the read removes the head
      and returns it, and no other step touches it - provided that the new window fits. */
  lemma StepOnQueue<T>(r: Shape, s: State<T>, step: Step<T>)
    requires Accounts(r, s) && Occupancy(s) >= 0 && Enabled(s, step)
    requires WindowOk(r, Next(r, s, step))
    ensures var s' := Next(r, s, step);
      && s'.mem.Fits(r)
      && (if step.ProducerWrite? then Queue(r, s') == Queue(r, s) + [s.producer.msg]
          else if step.ConsumerRead? then
            Queue(r, s) == [s'.read[|s.read|].1] + Queue(r, s') && s'.read[..|s.read|] == s.read
          else Queue(r, s') == Queue(r, s) && s'.read == s.read)
  {
    if step.ProducerWrite? {
      WriteAppends(r, s);
    } else if step.ConsumerRead? {
      ReadTakesHead(r, s, step.c);
    }
  }

  lemma NextFaithful<T>(r: Shape, s: State<T>, step: Step<T>)
    requires Accounts(r, s) && Faithful(r, s) && Enabled(s, step)
    requires WindowOk(r, Next(r, s, step))
    ensures Faithful(r, Next(r, s, step))
  {
    var s' := Next(r, s, step);
    StepOnQueue(r, s, step);
    if step.ProducerWrite? {
      assert s'.written[|s'.read|..] == s.written[|s.read|..] + [s.producer.msg];
      assert s'.written[..|s'.read|] == s.written[..|s.read|];
    } else if step.ConsumerRead? {
      var item := s'.read[|s.read|].1;
      assert s'.read == s.read + [s'.read[|s.read|]];
      assert Items(s'.read) == Items(s.read) + [item];
      assert Queue(r, s)[0] == item == s.written[|s.read|];
      assert Queue(r, s') == Queue(r, s)[1..] == s.written[|s.read|..][1..];
    }
  }

  /** FIFO refinement. If along the whole schedule the unread window fits, then at its end
      the blocks read - in the order of the protected regions, each by one monitor - are the
      first blocks written, and the memory holds all the others in order. */
  lemma {:induction false} Fifo<T>(r: Shape, s0: State<T>, steps: seq<Step<T>>)
    requires r.Good() && Init(r, s0) && Legal(r, s0, steps)
    requires forall k :: 0 <= k <= |steps| ==> Legal(r, s0, steps[..k]) && WindowOk(r, After(r, s0, steps[..k]))
    ensures Faithful(r, After(r, s0, steps))
  {
    if steps == [] {
      assert Items(s0.read) == s0.written;
    } else {
      var l := |steps| - 1;
      assert forall k :: 0 <= k <= l ==> steps[..l][..k] == steps[..k];
      Fifo(r, s0, steps[..l]);
      AfterAccounts(r, s0, steps[..l]);
      assert steps[..|steps|] == steps;
      NextFaithful(r, After(r, s0, steps[..l]), steps[l]);
    }
  }

  lemma {:induction false} LegalPrefix<T>(r: Shape, s0: State<T>, steps: seq<Step<T>>, k: nat)
    requires r.Good() && |s0.mem.slots| == r.length && Legal(r, s0, steps) && k <= |steps|
    ensures Legal(r, s0, steps[..k])
    ensures After(r, s0, steps[..k]).written <= After(r, s0, steps).written
    decreases |steps|
  {
    if k == |steps| {
      assert steps[..k] == steps;
    } else {
      var front, step := steps[..|steps| - 1], steps[|steps| - 1];
      var s := After(r, s0, front);
      assert Enabled(s, step) && After(r, s0, steps) == Next(r, s, step) && Legal(r, s0, front);
      hide Legal, After;
      WrittenGrows(r, s, step);
      assert front[..k] == steps[..k];
      LegalPrefix(r, s0, front, k);
    }
  }

  lemma WrittenGrows<T>(r: Shape, s: State<T>, step: Step<T>)
    requires r.Good() && |s.mem.slots| == r.length && Enabled(s, step)
    ensures s.written <= Next(r, s, step).written
  {
  }

  ghost predicate Distinct<T>(xs: seq<T>) {
    forall i, j :: 0 <= i < j < |xs| ==> xs[i] != xs[j]
  }

  /** If all blocks differ, a memory that holds the unread ones in order has room for them. */
  lemma FaithfulNeedsFit<T>(r: Shape, s: State<T>)
    requires Accounts(r, s) && Faithful(r, s) && Distinct(s.written)
    ensures WindowOk(r, s)
  {
    forall i: nat, j: nat | |s.read| <= i < j < |s.written| ensures r.Slot(i) != r.Slot(j) {
      SlotHolds(r, s, i);
      SlotHolds(r, s, j);
    }
    DistinctIffFits(r, |s.read|, Occupancy(s));
  }

  lemma SlotHolds<T>(r: Shape, s: State<T>, i: nat)
    requires Faithful(r, s) && |s.read| <= i < |s.written|
    ensures s.mem.slots[r.Slot(i)] == s.written[i]
  {
    assert Queue(r, s)[i - |s.read|] == s.written[|s.read|..][i - |s.read|];
  }

  ghost predicate FaithfulAt<T>(r: Shape, s0: State<T>, steps: seq<Step<T>>, k: nat)
    requires r.Good() && |s0.mem.slots| == r.length && k <= |steps|
  {
    Legal(r, s0, steps[..k]) && Faithful(r, After(r, s0, steps[..k]))
  }

  ghost predicate FitsAt<T>(r: Shape, s0: State<T>, steps: seq<Step<T>>, k: nat)
    requires r.Good() && |s0.mem.slots| == r.length && k <= |steps|
  {
    Legal(r, s0, steps[..k]) && WindowOk(r, After(r, s0, steps[..k]))
  }

  lemma FitIsNeeded<T>(r: Shape, s0: State<T>, steps: seq<Step<T>>, k: nat)
    requires r.Good() && Init(r, s0) && Legal(r, s0, steps) && Distinct(After(r, s0, steps).written) && k <= |steps|
    requires FaithfulAt(r, s0, steps, k)
    ensures FitsAt(r, s0, steps, k)
  {
    LegalPrefix(r, s0, steps, k);
    AfterAccounts(r, s0, steps[..k]);
    hide Legal, After, Accounts, Faithful, WindowOk;
    FaithfulNeedsFit(r, After(r, s0, steps[..k]));
  }

  lemma FitIsEnough<T>(r: Shape, s0: State<T>, steps: seq<Step<T>>, k: nat)
    requires r.Good() && Init(r, s0) && k <= |steps|
    requires forall i :: 0 <= i <= k ==> FitsAt(r, s0, steps, i)
    ensures FaithfulAt(r, s0, steps, k)
  {
    hide Legal, After, Faithful, WindowOk;
    assert FitsAt(r, s0, steps, k);
    forall i | 0 <= i <= k
      ensures Legal(r, s0, steps[..k][..i]) && WindowOk(r, After(r, s0, steps[..k][..i]))
    {
      assert steps[..k][..i] == steps[..i] && FitsAt(r, s0, steps, i);
    }
    assert |steps[..k]| == k;
    Fifo(r, s0, steps[..k]);
  }

  /** The refinement, exactly: in a run whose blocks all differ, the buffer is a queue at every
      moment if and only if the unread window fits at every moment. */
  lemma FifoIff<T>(r: Shape, s0: State<T>, steps: seq<Step<T>>)
    requires r.Good() && Init(r, s0) && Legal(r, s0, steps) && Distinct(After(r, s0, steps).written)
    ensures (forall k :: 0 <= k <= |steps| ==> FaithfulAt(r, s0, steps, k))
       <==> (forall k :: 0 <= k <= |steps| ==> FitsAt(r, s0, steps, k))
  {
    if forall k :: 0 <= k <= |steps| ==> FaithfulAt(r, s0, steps, k) {
      forall k | 0 <= k <= |steps| ensures FitsAt(r, s0, steps, k) {
        FitIsNeeded(r, s0, steps, k);
      }
    }
    if forall k :: 0 <= k <= |steps| ==> FitsAt(r, s0, steps, k) {
      forall k | 0 <= k <= |steps| ensures FaithfulAt(r, s0, steps, k) {
        FitIsEnough(r, s0, steps, k);
      }
    }
  }

  /** Counters that do not wrap count the blocks: an `int` holds them up to 2147483647 blocks. */
  lemma CountersCountBlocks<T>(r: Shape, s0: State<T>, steps: seq<Step<T>>)
    requires r.Good() && Init(r, s0) && Legal(r, s0, steps) && r.modulus == 0
    ensures var s := After(r, s0, steps);
      s.mem.reading == |s.read| <= s.mem.writing == |s.written| <= s.mem.reading + r.length
  {
    AfterAccounts(r, s0, steps);
    OccupancyBounds(r, After(r, s0, steps));
  }

  /** When the length divides the modulus, or the counters never wrap, the window always
      fits and the buffer is a queue for ever: the ring of P3. */
  lemma FifoWithoutJump<T>(r: Shape, s0: State<T>, steps: seq<Step<T>>)
    requires r.Good() && Init(r, s0) && Legal(r, s0, steps)
    requires r.modulus == 0 || r.modulus % r.length == 0
    ensures Faithful(r, After(r, s0, steps))
  {
    forall k | 0 <= k <= |steps|
      ensures Legal(r, s0, steps[..k]) && WindowOk(r, After(r, s0, steps[..k]))
    {
      LegalPrefix(r, s0, steps, k);
      SemaphoreAccounting(r, s0, steps[..k]);
    }
    Fifo(r, s0, steps);
  }

  /** Otherwise the buffer is a queue for unboundedly many blocks while the occupancy stays
      within modulus mod length. */
  lemma FifoAtLowOccupancy<T>(r: Shape, s0: State<T>, steps: seq<Step<T>>)
    requires r.Good() && Init(r, s0) && Legal(r, s0, steps) && r.modulus != 0
    requires forall k :: 0 <= k <= |steps| && Legal(r, s0, steps[..k])
               ==> Occupancy(After(r, s0, steps[..k])) <= r.modulus % r.length
    ensures Faithful(r, After(r, s0, steps))
  {
    forall k | 0 <= k <= |steps|
      ensures Legal(r, s0, steps[..k]) && WindowOk(r, After(r, s0, steps[..k]))
    {
      LegalPrefix(r, s0, steps, k);
      SemaphoreAccounting(r, s0, steps[..k]);
    }
    Fifo(r, s0, steps);
  }

  /** And it is a queue at any occupancy until the counter first wraps. */
  lemma FifoBeforeWrap<T>(r: Shape, s0: State<T>, steps: seq<Step<T>>)
    requires r.Good() && Init(r, s0) && Legal(r, s0, steps)
    requires |After(r, s0, steps).written| <= r.modulus
    ensures Faithful(r, After(r, s0, steps))
  {
    forall k | 0 <= k <= |steps|
      ensures Legal(r, s0, steps[..k]) && WindowOk(r, After(r, s0, steps[..k]))
    {
      LegalPrefix(r, s0, steps, k);
      SemaphoreAccounting(r, s0, steps[..k]);
      var s := After(r, s0, steps[..k]);
      if r.modulus != 0 && |s.read| < r.modulus {
        Modular.ModIdentity(|s.read|, r.modulus);
      }
    }
    Fifo(r, s0, steps);
  }
}
