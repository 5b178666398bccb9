/** The P3 programs end to end: one miner of N >= 1 rounds, the message queue, the
    comprobador, the ring and one monitor. `mq_send` and `mq_receive` keep the order of the
    messages, which all have the same priority, and `mq_send` waits while the queue is full.
    The end of the model is the end marker: tearing down the semaphores is not in it. */
module Pipeline {
  import opened CTypes
  import opened Counting
  import opened Pow
  import opened RingSlots
  import opened Ring
  import opened Buffers

  const MAX_MSG := 7

  /** A message of the queue. The miner stores the hash in `solution` and the argument in
      `target`. */
  datatype Msg = Msg(target: int, solution: int, end: bool)

  /** What the comprobador puts into the ring for a message: a block marked `end` is replaced
      by the end marker. */
  function ItemOf(m: Msg): Item {
    if m.end then End else Decode(m.target, m.solution, FlagOf(m.target, m.solution))
  }

  datatype Pipe = Pipe(sent: nat, globalTarget: int, queue: seq<Msg>, ended: bool, ring: State<Item>,
                       attached: bool, exited: bool, lines: seq<Item>)

  datatype Action =
    | Send                          // the miner sends its next block
    | Take                          // the comprobador receives a message
    | Inner(step: Ring.Step<Item>)  // a step on the ring
    | Open                          // the monitor starts
    | Exit                          // the monitor has read the end marker and leaves

  function Start(): Pipe {
    Pipe(0, 0, [], false,
         State(Memory(seq(INT_RING.length, i => Data(0, 0, false)), 0, 0), 1, INT_RING.length, 0,
               Receiving, map[], [], []),
         false, false, [])
  }

  predicate SawEnd(ring: State<Item>) {
    |ring.read| > 0 && ring.read[|ring.read| - 1].1 == End
  }

  predicate CanAct(n: nat, s: Pipe, a: Action) {
    match a
    case Send => s.sent < n && |s.queue| < MAX_MSG
    case Take => s.queue != [] && !s.ended && s.ring.producer.Receiving?
    case Inner(step) => IsInternal(step) && Enabled(s.ring, step) && !(step.ConsumerFill? && SawEnd(s.ring))
    case Open => !s.attached && Enabled(s.ring, Attach(0))
    case Exit => !s.exited && Enabled(s.ring, Detach(0)) && SawEnd(s.ring)
  }

  /** The block that `work` returns for a target, and its place in the run. */
  function Mined(n: nat, s: Pipe): Msg {
    Msg(Preimage(HASH, s.globalTarget), s.globalTarget, s.sent == n - 1)
  }

  function Act(n: nat, s: Pipe, a: Action): Pipe
    requires CanAct(n, s, a) && |s.ring.mem.slots| == INT_RING.length
  {
    match a
    case Send =>
      s.(sent := s.sent + 1, globalTarget := Preimage(HASH, s.globalTarget), queue := s.queue + [Mined(n, s)])
    case Take =>
      s.(queue := s.queue[1..], ended := s.queue[0].end, ring := Next(INT_RING, s.ring, Receive(ItemOf(s.queue[0]))))
    case Inner(step) =>
      s.(ring := Next(INT_RING, s.ring, step), lines := s.lines + Printed(s.ring, step))
    case Open => s.(attached := true, ring := Next(INT_RING, s.ring, Attach(0)))
    case Exit => s.(exited := true, ring := Next(INT_RING, s.ring, Detach(0)))
  }

  /** After it has posted `gym_empty`, the monitor prints a line for a block, none for the end. */
  function Printed(ring: State<Item>, step: Ring.Step<Item>): seq<Item> {
    if step.ConsumerEmpty? && Enabled(ring, step) && ring.consumers[step.c].item.Data?
        then [ring.consumers[step.c].item] else []
  }

  predicate Legal(n: nat, acts: seq<Action>)
    decreases |acts|, 0
  {
    acts == [] || (Legal(n, acts[..|acts| - 1]) && CanAct(n, After(n, acts[..|acts| - 1]), acts[|acts| - 1]))
  }

  function After(n: nat, acts: seq<Action>): (s: Pipe)
    requires Legal(n, acts)
    ensures |s.ring.mem.slots| == INT_RING.length
    decreases |acts|, 1
  {
    if acts == [] then Start() else Act(n, After(n, acts[..|acts| - 1]), acts[|acts| - 1])
  }

  // ---------------------------------------------------------------- what flows

  /** The k-th item that ever enters the ring. */
  function ItemAt(n: nat, k: nat): Item {
    if k == n - 1 then End else Data(Ancestor(0, k + 1), Ancestor(0, k), true)
  }

  function Items(n: nat, from: nat, to: nat): seq<Item>
    requires from <= to
  {
    seq(to - from, i requires 0 <= i < to - from => ItemAt(n, from + i))
  }

  /** The message in the comprobador's hands. */
  function InHand(p: Producer<Item>): seq<Item> {
    if p.AwaitEmpty? || p.AwaitMutex? || p.Writing? then [p.msg] else []
  }

  /** An item that has been read but whose line is not yet printed. */
  function Unprinted(ring: State<Item>): nat {
    if 0 in ring.consumers && (ring.consumers[0].Taken? || ring.consumers[0].PostEmpty?) then 1 else 0
  }

  /** The message carries the k-th item. */
  predicate Carries(n: nat, m: Msg, k: nat) {
    ItemOf(m) == ItemAt(n, k) && (m.end <==> k == n - 1)
  }

  function TakenCount(s: Pipe): nat {
    |s.ring.written| + |InHand(s.ring.producer)|
  }

  ghost predicate Flow(n: nat, s: Pipe) {
    && s.sent <= n && s.globalTarget == Ancestor(0, s.sent) && 0 <= s.globalTarget < POW_LIMIT
    && TakenCount(s) + |s.queue| == s.sent
    && (forall k :: 0 <= k < |s.ring.written| ==> s.ring.written[k] == ItemAt(n, k))
    && (InHand(s.ring.producer) != [] ==> InHand(s.ring.producer)[0] == ItemAt(n, |s.ring.written|))
    && (forall k :: 0 <= k < |s.queue| ==> Carries(n, s.queue[k], TakenCount(s) + k))
    && (s.ended <==> TakenCount(s) == n)
  }

  /** The blocks among the items read. */
  function DataOf(read: seq<(int, Item)>): seq<Item> {
    if read == [] then []
    else DataOf(read[..|read| - 1]) + (if read[|read| - 1].1.Data? then [read[|read| - 1].1] else [])
  }

  ghost predicate MonitorOk(s: Pipe) {
    && s.ring.consumers.Keys <= {0}
    && (0 in s.ring.consumers <==> s.attached && !s.exited)
    && (s.exited ==> s.attached && SawEnd(s.ring))
    && Unprinted(s.ring) <= |s.ring.read|
    && (Unprinted(s.ring) == 1 ==> s.ring.consumers[0].item == s.ring.read[|s.ring.read| - 1].1)
    && s.lines == DataOf(s.ring.read[..|s.ring.read| - Unprinted(s.ring)])
  }

  ghost predicate Inv(n: nat, s: Pipe) {
    && Accounts(INT_RING, s.ring)
    && Faithful(INT_RING, s.ring)
    && Flow(n, s)
    && MonitorOk(s)
  }

  // ---------------------------------------------------------------- invariance

  /** The message for the next round arrives in the ring as the item expected there; a block
      is never taken for the end marker. */
  lemma MinedItem(n: nat, s: Pipe)
    requires Flow(n, s)
    ensures Carries(n, Mined(n, s), s.sent)
    ensures Preimage(HASH, s.globalTarget) == Ancestor(0, s.sent + 1) && 0 <= Preimage(HASH, s.globalTarget) < POW_LIMIT
  {
    HashIsGood();
    PreimageIsPreimage(HASH, s.globalTarget);
    IntIdentity(s.globalTarget);
    IntIdentity(Preimage(HASH, s.globalTarget));
  }

  lemma RingInv(ring: State<Item>, step: Ring.Step<Item>)
    requires Accounts(INT_RING, ring) && Faithful(INT_RING, ring) && Enabled(ring, step)
    ensures Accounts(INT_RING, Next(INT_RING, ring, step)) && Faithful(INT_RING, Next(INT_RING, ring, step))
  {
    NextAccounts(INT_RING, ring, step);
    OccupancyBounds(INT_RING, Next(INT_RING, ring, step));
    NextFaithful(INT_RING, ring, step);
  }

  lemma SendFlow(n: nat, s: Pipe)
    requires Flow(n, s) && CanAct(n, s, Send) && |s.ring.mem.slots| == INT_RING.length
    ensures Flow(n, Act(n, s, Send))
  {
    hide Ancestor, ItemAt, ItemOf;
    MinedItem(n, s);
    KeepsFlow(n, s, Mined(n, s), Preimage(HASH, s.globalTarget));
  }

  lemma KeepsFlow(n: nat, s: Pipe, m: Msg, t: int)
    requires Flow(n, s) && s.sent < n && Carries(n, m, s.sent)
    requires t == Ancestor(0, s.sent + 1) && 0 <= t < POW_LIMIT
    ensures Flow(n, s.(sent := s.sent + 1, globalTarget := t, queue := s.queue + [m]))
  {
    hide Ancestor, ItemAt, ItemOf;
    var queue := s.queue + [m];
    forall k | 0 <= k < |queue| ensures Carries(n, queue[k], TakenCount(s) + k) {
      if k < |s.queue| {
        assert Carries(n, s.queue[k], TakenCount(s) + k);
      }
    }
    var s' := s.(sent := s.sent + 1, globalTarget := t, queue := queue);
    assert TakenCount(s') == TakenCount(s);
    assert s'.ring == s.ring;
  }

  lemma TakeFlow(n: nat, s: Pipe)
    requires Flow(n, s) && CanAct(n, s, Take) && |s.ring.mem.slots| == INT_RING.length
    ensures Flow(n, Act(n, s, Take))
  {
    hide Ancestor, ItemAt, ItemOf;
    var s' := Act(n, s, Take);
    assert InHand(s.ring.producer) == [] && InHand(s'.ring.producer) == [ItemOf(s.queue[0])];
    assert TakenCount(s') == TakenCount(s) + 1;
    forall k | 0 <= k < |s'.queue| ensures Carries(n, s'.queue[k], TakenCount(s') + k) {
      assert Carries(n, s.queue[k + 1], TakenCount(s) + (k + 1));
    }
    assert Carries(n, s.queue[0], TakenCount(s) + 0);
  }

  lemma RingFlow(n: nat, s: Pipe, s': Pipe, step: Ring.Step<Item>)
    requires Flow(n, s) && |s.ring.mem.slots| == INT_RING.length
    requires !step.Receive? && Enabled(s.ring, step) && s'.ring == Next(INT_RING, s.ring, step)
    requires s'.sent == s.sent && s'.globalTarget == s.globalTarget && s'.queue == s.queue && s'.ended == s.ended
    ensures Flow(n, s')
  {
    assert TakenCount(s') == TakenCount(s);
  }

  lemma InnerMonitor(n: nat, s: Pipe, step: Ring.Step<Item>)
    requires MonitorOk(s) && CanAct(n, s, Inner(step)) && |s.ring.mem.slots| == INT_RING.length
    requires !s.exited
    ensures MonitorOk(Act(n, s, Inner(step)))
  {
    if step.ConsumerRead? {
      hide MonitorOk, CanAct, Act;
      ReadMonitor(n, s, step.c);
    } else if step.ConsumerEmpty? {
      hide MonitorOk, CanAct, Act;
      PrintMonitor(n, s, step.c);
    } else {
      WaitMonitor(n, s, step);
    }
  }

  /** No other step reads or prints anything. */
  lemma WaitMonitor(n: nat, s: Pipe, step: Ring.Step<Item>)
    requires MonitorOk(s) && CanAct(n, s, Inner(step)) && |s.ring.mem.slots| == INT_RING.length
    requires !s.exited && !step.ConsumerRead? && !step.ConsumerEmpty?
    ensures MonitorOk(Act(n, s, Inner(step)))
  {
    hide DataOf;
  }

  /** Reading an item: its line is still to be printed. */
  lemma ReadMonitor(n: nat, s: Pipe, c: int)
    requires MonitorOk(s) && CanAct(n, s, Inner(ConsumerRead(c))) && |s.ring.mem.slots| == INT_RING.length
    ensures MonitorOk(Act(n, s, Inner(ConsumerRead(c))))
  {
    hide DataOf, Ring.Items;
    var s' := Act(n, s, Inner(ConsumerRead(c)));
    assert c == 0 && Unprinted(s.ring) == 0 && Unprinted(s'.ring) == 1;
    assert s'.ring.read[..|s.ring.read|] == s.ring.read;
    assert s.ring.read[..|s.ring.read|] == s.ring.read;
  }

  lemma PrintEffect(n: nat, s: Pipe, c: int)
    requires CanAct(n, s, Inner(ConsumerEmpty(c))) && |s.ring.mem.slots| == INT_RING.length
    ensures c in s.ring.consumers && s.ring.consumers[c].PostEmpty?
    ensures var item := s.ring.consumers[c].item;
      Act(n, s, Inner(ConsumerEmpty(c)))
      == s.(ring := s.ring.(empty := s.ring.empty + 1, consumers := s.ring.consumers[c := AwaitFill]),
            lines := s.lines + (if item.Data? then [item] else []))
  {
  }

  /** Printing the line of the last item read. */
  lemma PrintMonitor(n: nat, s: Pipe, c: int)
    requires MonitorOk(s) && CanAct(n, s, Inner(ConsumerEmpty(c))) && |s.ring.mem.slots| == INT_RING.length
    ensures MonitorOk(Act(n, s, Inner(ConsumerEmpty(c))))
  {
    hide CanAct, Act, DataOf;
    PrintEffect(n, s, c);
    LastLine(s.ring.read);
    assert s.ring.read[..|s.ring.read|] == s.ring.read;
  }

  lemma LastLine(read: seq<(int, Item)>)
    requires |read| > 0
    ensures var m := |read| - 1; DataOf(read) == DataOf(read[..m]) + (if read[m].1.Data? then [read[m].1] else [])
  {
  }

  /** After the monitor has left, only the comprobador moves on the ring. */
  lemma InnerAfterExit(n: nat, s: Pipe, step: Ring.Step<Item>)
    requires MonitorOk(s) && CanAct(n, s, Inner(step)) && |s.ring.mem.slots| == INT_RING.length
    requires s.exited
    ensures MonitorOk(Act(n, s, Inner(step)))
  {
    assert s.ring.consumers == map[];
  }

  lemma ActInv(n: nat, s: Pipe, a: Action)
    requires Inv(n, s) && CanAct(n, s, a)
    ensures Inv(n, Act(n, s, a))
  {
    match a {
      case Send => SendFlow(n, s);
      case Take => TakeInv(n, s);
      case Inner(step) => InnerInv(n, s, step);
      case _ => OpenOrExitInv(n, s, a);
    }
  }

  lemma TakeInv(n: nat, s: Pipe)
    requires Inv(n, s) && CanAct(n, s, Take)
    ensures Inv(n, Act(n, s, Take))
  {
    hide Flow, Faithful, DataOf, ItemOf;
    RingInv(s.ring, Receive(ItemOf(s.queue[0])));
    TakeFlow(n, s);
  }

  lemma OpenOrExitInv(n: nat, s: Pipe, a: Action)
    requires Inv(n, s) && CanAct(n, s, a) && (a.Open? || a.Exit?)
    ensures Inv(n, Act(n, s, a))
  {
    var step: Ring.Step<Item> := if a.Open? then Attach(0) else Detach(0);
    RingInv(s.ring, step);
    RingFlow(n, s, Act(n, s, a), step);
    hide Flow, Faithful, Accounts, DataOf;
  }

  lemma InnerInv(n: nat, s: Pipe, step: Ring.Step<Item>)
    requires Inv(n, s) && CanAct(n, s, Inner(step))
    ensures Inv(n, Act(n, s, Inner(step)))
  {
    RingInv(s.ring, step);
    RingFlow(n, s, Act(n, s, Inner(step)), step);
    hide MonitorOk, Flow, Faithful;
    if s.exited {
      InnerAfterExit(n, s, step);
    } else {
      InnerMonitor(n, s, step);
    }
  }

  lemma {:induction false} AfterInv(n: nat, acts: seq<Action>)
    requires n >= 1 && Legal(n, acts)
    ensures Inv(n, After(n, acts))
  {
    if acts == [] {
      InitAccounts(INT_RING, Start().ring);
      assert Ring.Items<Item>([]) == [];
    } else {
      AfterInv(n, acts[..|acts| - 1]);
      ActInv(n, After(n, acts[..|acts| - 1]), acts[|acts| - 1]);
    }
  }

  // ---------------------------------------------------------------- main results

  /** How many of the first k items are blocks. */
  function Blocks(n: nat, k: nat): nat {
    if k < n || n == 0 then k else n - 1
  }

  lemma {:induction false} DataOfItems(n: nat, read: seq<(int, Item)>)
    requires |read| <= n
    requires forall k :: 0 <= k < |read| ==> read[k].1 == ItemAt(n, k)
    ensures DataOf(read) == Items(n, 0, Blocks(n, |read|))
  {
    if read != [] {
      var l := |read| - 1;
      DataOfItems(n, read[..l]);
      assert read[l].1.Data? ==> Items(n, 0, l + 1) == Items(n, 0, l) + [ItemAt(n, l)];
    }
  }

  lemma ReadItems(n: nat, s: Pipe)
    requires Inv(n, s)
    ensures |s.ring.read| <= n
    ensures forall k :: 0 <= k < |s.ring.read| ==> s.ring.read[k].1 == ItemAt(n, k)
  {
    forall k | 0 <= k < |s.ring.read| ensures s.ring.read[k].1 == ItemAt(n, k) {
      assert s.ring.read[k].1 == Ring.Items(s.ring.read)[k] == s.ring.written[k];
    }
  }

  /** At any moment the monitor has printed the first lines of the expected run, and nothing
      else: no line is lost, repeated, out of order or rejected. */
  lemma LinesAreExpected(n: nat, acts: seq<Action>)
    requires n >= 1 && Legal(n, acts)
    ensures var s := After(n, acts); |s.lines| <= n - 1 && s.lines == Items(n, 0, |s.lines|)
  {
    AfterInv(n, acts);
    hide Legal, After, Inv, ItemAt;
    LinesOf(n, After(n, acts));
  }

  lemma LinesOf(n: nat, s: Pipe)
    requires n >= 1 && Inv(n, s)
    ensures |s.lines| <= n - 1 && s.lines == Items(n, 0, |s.lines|)
  {
    ReadItems(n, s);
    hide ItemAt, DataOf, Flow, Accounts, Faithful;
    var read := s.ring.read[..|s.ring.read| - Unprinted(s.ring)];
    DataOfItems(n, read);
    assert s.lines == Items(n, 0, Blocks(n, |read|));
  }

  /** The whole run. When the monitor has left, it has printed exactly N - 1 lines, all
      accepted; line k shows the k-th ancestor of 0 as solution and the next one as target. The
      miner has sent all its N blocks, and nothing is left in the queue. */
  lemma CompletedRun(n: nat, acts: seq<Action>)
    requires n >= 1 && Legal(n, acts) && After(n, acts).exited
    ensures var s := After(n, acts); s.sent == n && s.queue == [] && |s.lines| == n - 1
    ensures forall k :: 0 <= k < n - 1 ==> LineAt(After(n, acts), k) == Data(Ancestor(0, k + 1), Ancestor(0, k), true)
  {
    AfterInv(n, acts);
    hide Legal, After, Inv, Ancestor;
    var s := After(n, acts);
    LinesAtExit(n, s);
    assert forall k :: 0 <= k < n - 1 ==> s.lines[k] == ItemAt(n, k);
  }

  lemma LinesAtExit(n: nat, s: Pipe)
    requires n >= 1 && Inv(n, s) && s.exited
    ensures s.sent == n && s.queue == [] && s.lines == Items(n, 0, n - 1)
  {
    ReadItems(n, s);
    assert |s.ring.read| == n;
    assert s.ring.read[..n] == s.ring.read;
    DataOfItems(n, s.ring.read);
  }

  function LineAt(s: Pipe, k: nat): Item {
    if k < |s.lines| then s.lines[k] else End
  }

  /** So the lines chain: the first solution is 0, every other one is the target of the line
      before, and every line shows a true proof of work. */
  lemma LinesChain(n: nat, acts: seq<Action>, k: nat)
    requires n >= 1 && Legal(n, acts) && After(n, acts).exited && k < n - 1
    ensures LineAt(After(n, acts), k).Data? && LineAt(After(n, acts), k).accepted
    ensures PowHash(LineAt(After(n, acts), k).target) == LineAt(After(n, acts), k).solution
    ensures LineAt(After(n, acts), 0).Data? && LineAt(After(n, acts), 0).solution == 0
    ensures k > 0 ==> LineAt(After(n, acts), k - 1).Data?
                      && LineAt(After(n, acts), k).solution == LineAt(After(n, acts), k - 1).target
  {
    CompletedRun(n, acts);
    AncestorInRange(k);
    assert LineAt(After(n, acts), 0) == Data(Ancestor(0, 1), Ancestor(0, 0), true);
    if k > 0 {
      assert LineAt(After(n, acts), k - 1) == Data(Ancestor(0, k), Ancestor(0, k - 1), true);
    }
  }

  lemma AncestorStep(k: nat)
    ensures Ancestor(0, 0) == 0 && Ancestor(0, k + 1) == Preimage(HASH, Ancestor(0, k))
  {
  }

  lemma {:induction false} AncestorInRange(k: nat)
    ensures 0 <= Ancestor(0, k) < POW_LIMIT && PowHash(Ancestor(0, k + 1)) == Ancestor(0, k)
  {
    HashIsGood();
    if k > 0 {
      AncestorInRange(k - 1);
      PreimageIsPreimage(HASH, Ancestor(0, k - 1));
    }
    PreimageIsPreimage(HASH, Ancestor(0, k));
  }

  /** The pipeline never gets stuck: until the monitor has left, some process can move. */
  lemma NeverStuck(n: nat, acts: seq<Action>)
    requires n >= 1 && Legal(n, acts) && !After(n, acts).exited
    ensures exists a :: CanAct(n, After(n, acts), a)
  {
    var s := After(n, acts);
    AfterInv(n, acts);
    ReadItems(n, s);
    if !s.attached {
      OpenOrBusy(n, s);
    } else if SawEnd(s.ring) && s.ring.consumers[0].AwaitFill? {
      assert CanAct(n, s, Exit);
    } else {
      SomeoneMoves(INT_RING, s.ring);
      if step: Ring.Step<Item> :| IsInternal(step) && Enabled(s.ring, step) {
        assert CanAct(n, s, Inner(step));
      } else {
        SourceMoves(n, s);
      }
    }
  }

  lemma OpenOrBusy(n: nat, s: Pipe)
    requires Inv(n, s) && !s.attached
    ensures exists a :: CanAct(n, s, a)
  {
    if Enabled(s.ring, Attach(0)) {
      assert CanAct(n, s, Open);
    } else {
      CountZero(s.ring.consumers, HoldsMutex<Item>) by {
        assert s.ring.consumers.Keys == {};
      }
      assert CanAct(n, s, Inner(if s.ring.producer.Writing? then ProducerWrite else ProducerUnlock));
    }
  }

  lemma SourceMoves(n: nat, s: Pipe)
    requires Inv(n, s) && Quiet(s.ring) && !SawEnd(s.ring)
    requires |s.ring.read| <= n && forall k :: 0 <= k < |s.ring.read| ==> s.ring.read[k].1 == ItemAt(n, k)
    requires n >= 1
    ensures CanAct(n, s, Take) || CanAct(n, s, Send)
  {
    assert TakenCount(s) == |s.ring.read|;
  }

  // ---------------------------------------------------------------- the message queue

  lemma {:induction false} QueueBound(n: nat, acts: seq<Action>)
    requires Legal(n, acts)
    ensures |After(n, acts).queue| <= 7
  {
    if acts != [] {
      QueueBound(n, acts[..|acts| - 1]);
    }
  }

  lemma {:induction false} OnlySends(n: nat, k: nat) returns (acts: seq<Action>)
    requires k <= n && k <= 7
    ensures Legal(n, acts) && After(n, acts).sent == k == |After(n, acts).queue|
  {
    if k == 0 {
      acts := [];
    } else {
      var front := OnlySends(n, k - 1);
      acts := front + [Send];
      assert acts[..|acts| - 1] == front;
    }
  }

  /** The queue comes to hold seven messages, and never holds more. */
  lemma QueueHoldsSeven(n: nat) returns (acts: seq<Action>)
    requires n >= 7
    ensures Legal(n, acts) && |After(n, acts).queue| == 7
    ensures forall others :: Legal(n, others) ==> |After(n, others).queue| <= 7
  {
    acts := OnlySends(n, 7);
    forall others | Legal(n, others) ensures |After(n, others).queue| <= 7 {
      QueueBound(n, others);
    }
  }

  // ---------------------------------------------------------------- the length of a run

  /** The steps of the comprobador so far: six for each item. */
  function ProducerSteps(ring: State<Item>): int {
    6 * |ring.written| +
    match ring.producer
    case Receiving => 0
    case AwaitEmpty(_) => 1
    case AwaitMutex(_) => 2
    case Writing(_) => 3
    case Written => -2
    case PostFill => -1
  }

  /** The steps of the monitor on the ring so far: five for each item. */
  function MonitorSteps(ring: State<Item>): int {
    5 * |ring.read| +
    if 0 !in ring.consumers then 0
    else match ring.consumers[0]
      case AwaitFill => 0
      case AwaitLock => 1
      case Reading => 2
      case Taken(_) => -2
      case PostEmpty(_) => -1
  }

  function ActionsTaken(s: Pipe): int {
    s.sent + ProducerSteps(s.ring) + MonitorSteps(s.ring) + One(s.attached) + One(s.exited)
  }

  lemma OneActionMore(n: nat, s: Pipe, a: Action)
    requires MonitorOk(s) && CanAct(n, s, a) && |s.ring.mem.slots| == INT_RING.length
    ensures ActionsTaken(Act(n, s, a)) == ActionsTaken(s) + 1
  {
    hide DataOf, ItemOf, Mined, Printed;
    if a.Inner? {
      OneRingStepMore(s.ring, a.step);
    }
  }

  lemma OneRingStepMore(ring: State<Item>, step: Ring.Step<Item>)
    requires ring.consumers.Keys <= {0} && Enabled(ring, step) && IsInternal(step)
    requires |ring.mem.slots| == INT_RING.length
    ensures var ring' := Next(INT_RING, ring, step);
      ProducerSteps(ring') + MonitorSteps(ring') == ProducerSteps(ring) + MonitorSteps(ring) + 1
  {
  }

  /** A monitor that holds an item has been posted one that is not yet read. */
  lemma ItemsBound(n: nat, s: Pipe)
    requires n >= 1 && Inv(n, s)
    ensures ProducerSteps(s.ring) <= 6 * n && MonitorSteps(s.ring) <= 5 * n
    ensures s.exited ==> s.sent == n && ProducerSteps(s.ring) == 6 * n && MonitorSteps(s.ring) == 5 * n
  {
    OccupancyBounds(INT_RING, s.ring);
    ReadItems(n, s);
    if 0 in s.ring.consumers && Claims(s.ring.consumers[0]) {
      CountPositive(s.ring.consumers, 0, Claims<Item>);
    }
    if s.exited {
      LinesAtExit(n, s);
    }
    hide DataOf, ItemAt, ItemOf, Ancestor, Faithful;
  }

  lemma {:induction false} CountActions(n: nat, acts: seq<Action>)
    requires n >= 1 && Legal(n, acts)
    ensures |acts| == ActionsTaken(After(n, acts))
  {
    if acts != [] {
      var front := acts[..|acts| - 1];
      CountActions(n, front);
      AfterInv(n, front);
      hide Accounts, Faithful, Flow, MonitorOk, ActionsTaken;
      OneActionMore(n, After(n, front), acts[|acts| - 1]);
    }
  }

  /** Every item costs twelve actions and the monitor's coming and going two more, so a run of
      N items has at most 12 N + 2, and exactly as many when the monitor has left: with
      `NeverStuck`, every run completes. */
  lemma ActionsOfRun(n: nat, acts: seq<Action>)
    requires n >= 1 && Legal(n, acts)
    ensures |acts| <= 12 * n + 2
    ensures After(n, acts).exited <==> |acts| == 12 * n + 2
  {
    AfterInv(n, acts);
    CountActions(n, acts);
    hide Legal, After;
    ItemsBound(n, After(n, acts));
    hide Accounts, Faithful, ProducerSteps, MonitorSteps;
  }

  // ---------------------------------------------------------------- the miner's loop

  /** A number is some hash value exactly when it lies in the range of the hash. */
  lemma TargetsAreHashes(t: int)
    ensures 0 <= t < POW_LIMIT <==> exists x :: 0 <= x < POW_LIMIT && PowHash(x) == t
  {
    HashIsGood();
    if 0 <= t < POW_LIMIT {
      PreimageIsPreimage(HASH, t);
      assert PowHash(Preimage(HASH, t)) == t;
    } else if x :| 0 <= x < POW_LIMIT && PowHash(x) == t {
      PreimageInverts(HASH, x);
    }
  }

  /** `work`: scans the whole range for an argument that hashes to the target, and makes it
      the next target. Outside the range of the hash it finds nothing, and the block is
      returned unset. */
  class Miner {
    var globalTarget: int

    constructor ()
      ensures globalTarget == 0
    {
      globalTarget := 0;
    }

    method Work() returns (found: bool, block: Msg)
      modifies this
      ensures found <==> 0 <= old(globalTarget) < POW_LIMIT
      ensures found ==> globalTarget == Preimage(HASH, old(globalTarget))
                        && block == Msg(globalTarget, old(globalTarget), false)
      ensures !found ==> globalTarget == old(globalTarget)
    {
      HashIsGood();
      TargetsAreHashes(globalTarget);
      found, block := false, Msg(0, 0, false);
      var i := 0;
      while i < POW_LIMIT
        invariant 0 <= i <= POW_LIMIT && !found && globalTarget == old(globalTarget)
        invariant forall j :: 0 <= j < i ==> PowHash(j) != globalTarget
      {
        HashesToIff(HASH, i, globalTarget);
        var result := PowHash(i);
        if result == globalTarget {
          block := Msg(i, result, false);
          globalTarget := i;
          found := true;
          return;
        }
        i := i + 1;
      }
    }

    /** The rounds of `main`: the messages in the order in which they are sent. */
    method Rounds(rounds: int) returns (sent: seq<Msg>)
      requires globalTarget == 0
      modifies this
      ensures |sent| == if rounds <= 0 then 0 else rounds
      ensures forall k :: 0 <= k < |sent| ==> sent[k] == Msg(Ancestor(0, k + 1), Ancestor(0, k), k == rounds - 1)
    {
      hide Ancestor, Preimage, PowHash;
      AncestorStep(0);
      sent := [];
      var i := 0;
      while i < rounds
        invariant 0 <= i && (i <= rounds || i == 0) && |sent| == i && globalTarget == Ancestor(0, i)
        invariant forall k :: 0 <= k < i ==> sent[k] == Msg(Ancestor(0, k + 1), Ancestor(0, k), k == rounds - 1)
      {
        AncestorInRange(i);
        AncestorStep(i);
        var found, block := Work();
        if i == rounds - 1 {
          block := block.(end := true);
        }
        sent := sent + [block];
        i := i + 1;
      }
    }
  }
}
