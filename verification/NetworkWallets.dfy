/** The wallets over whole runs: what each block records for a miner, exactly, and when the
    records of a miner never decrease along the chain. */
module NetworkWallets {
  import opened CTypes
  import opened MinerTable
  import opened Counting
  import opened Network
  import opened NetworkRounds
  import opened NetworkChain

  // ---------------------------------------------------------------- coins and prizes

  /** A pid that never was a process has no coins. */
  function Coins(s: Net, p: int): int {
    if p in s.procs then s.procs[p].coins else 0
  }

  /** How often the process has awarded itself a block. */
  function PrizesOf(prizes: seq<Prize>, p: int): nat {
    if prizes == [] then 0
    else PrizesOf(prizes[..|prizes| - 1], p) + One(prizes[|prizes| - 1].pid == p)
  }

  predicate HasPassed(pr: Proc) { pr.phase.Awarding? }

  /** Acceptance tests passed by p and not yet paid: 1 between lines 313 and 314. */
  function Due(s: Net, p: int): nat {
    One(p in s.procs && HasPassed(s.procs[p]))
  }

  predicate Balanced(s: Net, p: int) {
    s.accepted[p] == PrizesOf(s.prizes, p) + Due(s, p) && Coins(s, p) == ToShort(PrizesOf(s.prizes, p))
  }

  ghost predicate Wallets(s: Net) {
    forall p :: Balanced(s, p)
  }

  lemma OwnCoins(s: Net, step: Step)
    requires Enabled(s, step) && !step.Admit?
    ensures var a, b := s.procs[step.pid], OwnNext(s, step);
      && b.coins == (if step.Award? then ToShort(a.coins + 1) else a.coins)
      && One(HasPassed(b)) == One(HasPassed(a)) + One(step.Judge? && Unanimous(s.sys.cur)) - One(step.Award?)
  {
  }

  lemma CoinsMove(s: Net, step: Step, p: int)
    requires Enabled(s, step)
    ensures Coins(Next(s, step), p) == if step == Step.Award(p) then ToShort(Coins(s, p) + 1) else Coins(s, p)
    ensures Due(Next(s, step), p)
         == Due(s, p) + One(step == Judge(p) && Unanimous(s.sys.cur)) - One(step == Step.Award(p))
  {
    if step.Admit? {
      AdmissionFrame(s, step);
      hide Next;
    } else {
      StepIsOnePidsStep(s, step);
      OwnFrame(s, step);
      OwnCoins(s, step);
      hide Next, OwnNext, OthersNext, SysNext, CleanNext, PublisherNext, ToShort;
      if p in s.procs && p != step.pid {
        assert Similar(s.procs[p], Next(s, step).procs[p]);
      }
    }
  }

  lemma PrizesMove(s: Net, step: Step, p: int)
    requires Enabled(s, step)
    ensures PrizesOf(Next(s, step).prizes, p) == PrizesOf(s.prizes, p) + One(step == Step.Award(p))
    ensures Next(s, step).accepted[p] == s.accepted[p] + One(step == Judge(p) && Unanimous(s.sys.cur))
  {
    hide OwnNext, OthersNext, SysNext, CleanNext, PublisherNext;
    if step.Award? {
      assert Next(s, step).prizes[..|s.prizes|] == s.prizes;
    }
  }

  lemma StaysBalanced(s: Net, step: Step, p: int)
    requires Enabled(s, step) && Balanced(s, p)
    ensures Balanced(Next(s, step), p)
    ensures Coins(Next(s, step), p) == Coins(s, p)
            || (step == Step.Award(p)
                && (PrizesOf(Next(s, step).prizes, p) <= SHORT_MAX ==> Coins(Next(s, step), p) > Coins(s, p)))
  {
    CoinsMove(s, step, p);
    PrizesMove(s, step, p);
    var n := PrizesOf(s.prizes, p);
    ShortSuccessor(n);
    hide Coins, Due, Next, ToShort, PrizesOf;
    if n < SHORT_MAX {
      ShortIdentity(n);
      ShortIdentity(n + 1);
    }
  }

  // ---------------------------------------------------------------- prizes before a round

  /** How many blocks the process had awarded itself when round k began. */
  function PrizesBefore(prizes: seq<Prize>, p: int, k: int): nat {
    if prizes == [] then 0
    else
      var last := prizes[|prizes| - 1];
      PrizesBefore(prizes[..|prizes| - 1], p, k) + One(last.pid == p && last.round < k)
  }

  lemma {:induction false} PrizesBeforeGrow(prizes: seq<Prize>, p: int, j: int, k: int)
    requires j <= k
    ensures PrizesBefore(prizes, p, j) <= PrizesBefore(prizes, p, k) <= PrizesOf(prizes, p)
  {
    if prizes != [] {
      PrizesBeforeGrow(prizes[..|prizes| - 1], p, j, k);
    }
  }

  lemma {:induction false} AllBefore(prizes: seq<Prize>, p: int, k: int)
    requires forall i :: 0 <= i < |prizes| && prizes[i].pid == p ==> prizes[i].round < k
    ensures PrizesBefore(prizes, p, k) == PrizesOf(prizes, p)
  {
    if prizes != [] {
      AllBefore(prizes[..|prizes| - 1], p, k);
    }
  }

  /** A prize of a later step does not count for a round that has begun. */
  lemma PrizesBeforeKept(s: Net, step: Step, p: int, k: int)
    requires Enabled(s, step) && k <= s.Round()
    ensures PrizesBefore(Next(s, step).prizes, p, k) == PrizesBefore(s.prizes, p, k)
  {
    hide OwnNext, OthersNext, SysNext, CleanNext, PublisherNext;
    if step.Award? {
      assert Next(s, step).prizes[..|s.prizes|] == s.prizes;
    }
  }

  /** A process that has a prize of the current round is about to rotate it. */
  ghost predicate FreshPrizes(s: Net) {
    forall i :: 0 <= i < |s.prizes| ==>
      s.prizes[i].round < s.Round()
      || (s.prizes[i].round == s.Round() && s.prizes[i].pid in s.procs && s.procs[s.prizes[i].pid].phase.Rotating?)
  }

  lemma StaysRotating(s: Net, step: Step, p: int)
    requires Enabled(s, step) && !step.Rotate? && p in s.procs && s.procs[p].phase.Rotating?
    ensures p in Next(s, step).procs && Next(s, step).procs[p].phase.Rotating?
  {
    if step.Admit? {
      AdmissionFrame(s, step);
      hide Next;
    } else {
      StepIsOnePidsStep(s, step);
      OwnFrame(s, step);
      hide Next;
      assert p != step.pid ==> Similar(s.procs[p], Next(s, step).procs[p]);
    }
  }

  lemma NextFreshPrizes(s: Net, step: Step)
    requires FreshPrizes(s) && Enabled(s, step)
    ensures FreshPrizes(Next(s, step))
  {
    var s' := Next(s, step);
    assert s'.Round() == s.Round() + One(step.Rotate?);
    assert s'.prizes == if step.Award? then s.prizes + [Prize(s.Round(), step.pid)] else s.prizes;
    if step.Award? {
      assert s'.procs[step.pid].phase.Rotating?;
    }
    hide Next;
    forall i | 0 <= i < |s.prizes| && !step.Rotate? && s.prizes[i].round == s.Round()
      ensures s.prizes[i].pid in s'.procs && s'.procs[s.prizes[i].pid].phase.Rotating?
    {
      StaysRotating(s, step, s.prizes[i].pid);
    }
  }

  // ---------------------------------------------------------------- the voters of all blocks

  lemma VotersKept(s: Net, step: Step)
    requires Rounds(s) && Enabled(s, step) && !step.Join? && !step.Rotate?
    ensures Next(s, step).history == s.history
    ensures Next(s, step).sys.cur.voters == s.sys.cur.voters
  {
    if !step.Admit? && !step.Publish? && !step.Vote? {
      KeepBlock(s, step);
    }
  }

  /** Joining adds one voter to the current block, a rotation adds an empty block; otherwise
      the voters of all blocks stay as they are. */
  lemma VotersNext(s: Net, step: Step)
    requires Rounds(s) && Enabled(s, step)
    ensures |Next(s, step).history| == |s.history| + One(step.Rotate?)
    ensures forall k :: 0 <= k <= |s.history| ==>
      Blocks(Next(s, step))[k].voters == Blocks(s)[k].voters
        + (if step.Join? && k == |s.history| then [Miner(step.pid, Coins(s, step.pid))] else [])
    ensures step.Rotate? ==> Blocks(Next(s, step))[|s.history| + 1].voters == []
  {
    hide OwnNext, OthersNext, CleanNext, PublisherNext;
    if !step.Join? && !step.Rotate? {
      VotersKept(s, step);
      hide Next;
    }
  }

  // ---------------------------------------------------------------- what a block records

  /** The record in block k of each of its voters is the number of the voter's prizes when the
      round of that block began, as a `short`. */
  ghost predicate RecordsCounts(prizes: seq<Prize>, voters: seq<Miner>, k: int) {
    forall i :: 0 <= i < |voters| ==> voters[i].coins == ToShort(PrizesBefore(prizes, voters[i].pid, k))
  }

  ghost predicate Recorded(s: Net) {
    forall k :: 0 <= k <= |s.history| ==> RecordsCounts(s.prizes, Blocks(s)[k].voters, k)
  }

  /** What the record of a process that joins now will be. */
  lemma JoinsWithItsCount(s: Net, p: int)
    requires FreshPrizes(s) && Enabled(s, Step.Join(p)) && Balanced(s, p)
    ensures PrizesBefore(s.prizes, p, s.Round()) == PrizesOf(s.prizes, p)
    ensures Coins(s, p) == ToShort(PrizesBefore(s.prizes, p, s.Round()))
  {
    AllBefore(s.prizes, p, s.Round());
  }

  lemma NextRecorded(s: Net, step: Step)
    requires Rounds(s) && Wallets(s) && FreshPrizes(s) && Recorded(s) && Enabled(s, step)
    ensures Recorded(Next(s, step))
  {
    hide Rounds, Next, Blocks, Enabled, FreshPrizes, ToShort, Balanced;
    var s' := Next(s, step);
    VotersNext(s, step);
    forall k | 0 <= k <= |s'.history| ensures RecordsCounts(s'.prizes, Blocks(s')[k].voters, k) {
      if k <= |s.history| {
        if step.Join? && k == |s.history| {
          assert Balanced(s, step.pid);
          JoinsWithItsCount(s, step.pid);
        }
        assert RecordsCounts(s.prizes, Blocks(s)[k].voters, k);
        forall q ensures PrizesBefore(s'.prizes, q, k) == PrizesBefore(s.prizes, q, k) {
          PrizesBeforeKept(s, step, q, k);
        }
      }
    }
  }

  // ---------------------------------------------------------------- how the counts climb

  ghost predicate Lists(s: Net, k: int, p: int) {
    0 <= k <= |s.history| && Has(Blocks(s)[k].voters, p)
  }

  /** Some block up to the k-th lists p with exactly t prizes. */
  ghost predicate Reached(s: Net, p: int, t: int, k: int) {
    exists j :: j <= k && Lists(s, j, p) && PrizesBefore(s.prizes, p, j) == t
  }

  /** Has joined, and not been paid since. */
  predicate Unpaid(ph: Phase) {
    ph.Mining? || ph.Mined? || ph.Winning? || ph.Losing? || ph.Counting? || ph.Judging? || ph.Awarding?
  }

  /** A process is paid at most once between two of its joins, and not before its first. */
  ghost predicate PaidOnce(s: Net, p: int) {
    if p !in s.procs || s.procs[p].joinedAt < 0 then
      PrizesOf(s.prizes, p) == 0 && (p in s.procs ==> !Unpaid(s.procs[p].phase))
    else
      var pr := s.procs[p];
      && Lists(s, pr.joinedAt, p)
      && PrizesOf(s.prizes, p) <= PrizesBefore(s.prizes, p, pr.joinedAt) + One(!Unpaid(pr.phase))
  }

  /** So the counts in its records climb one by one. */
  ghost predicate Climbs(s: Net, p: int) {
    forall k, t :: Lists(s, k, p) && 0 <= t <= PrizesBefore(s.prizes, p, k) ==> Reached(s, p, t, k)
  }

  lemma ListsNext(s: Net, step: Step, k: int, p: int)
    requires Rounds(s) && Enabled(s, step)
    ensures Lists(Next(s, step), k, p) <==> Lists(s, k, p) || (step == Step.Join(p) && k == s.Round())
  {
    hide Rounds, Next, Blocks, Enabled;
    VotersNext(s, step);
    if 0 <= k <= |s.history| {
      if step.Join? && k == |s.history| {
        HasAppend(Blocks(s)[k].voters, Miner(step.pid, Coins(s, step.pid)));
      } else {
        assert Blocks(Next(s, step))[k].voters == Blocks(s)[k].voters;
      }
    }
  }

  lemma ReachedNext(s: Net, step: Step, p: int, t: int, k: int)
    requires Rounds(s) && Enabled(s, step) && Reached(s, p, t, k)
    ensures Reached(Next(s, step), p, t, k)
  {
    hide Rounds, Next, Enabled, PrizesBefore;
    var j :| j <= k && Lists(s, j, p) && PrizesBefore(s.prizes, p, j) == t;
    ListsNext(s, step, j, p);
    PrizesBeforeKept(s, step, p, j);
    assert Lists(Next(s, step), j, p) && PrizesBefore(Next(s, step).prizes, p, j) == t;
  }

  lemma JoinReaches(s: Net, p: int, t: int)
    requires Rounds(s) && FreshPrizes(s) && Balanced(s, p) && PaidOnce(s, p) && Climbs(s, p)
    requires Enabled(s, Step.Join(p)) && 0 <= t < PrizesBefore(s.prizes, p, s.Round())
    ensures Reached(s, p, t, s.Round())
  {
    JoinsWithItsCount(s, p);
    var j := s.procs[p].joinedAt;
    assert Reached(s, p, t, j);
    hide Rounds, Enabled, FreshPrizes, Balanced, PaidOnce, Climbs, PrizesBefore, PrizesOf;
    var i :| i <= j && Lists(s, i, p) && PrizesBefore(s.prizes, p, i) == t;
  }

  lemma NextClimbs(s: Net, step: Step, p: int)
    requires Rounds(s) && FreshPrizes(s) && Balanced(s, p) && PaidOnce(s, p) && Climbs(s, p) && Enabled(s, step)
    ensures Climbs(Next(s, step), p)
  {
    hide Rounds, Next, Enabled, FreshPrizes, Balanced, PaidOnce, Reached, Lists, PrizesBefore;
    var s' := Next(s, step);
    forall k, t | Lists(s', k, p) && 0 <= t <= PrizesBefore(s'.prizes, p, k) ensures Reached(s', p, t, k) {
      ListsNext(s, step, k, p);
      ListedBefore(s, k, p);
      PrizesBeforeKept(s, step, p, k);
      if Lists(s, k, p) {
        ReachedNext(s, step, p, t, k);
      } else if t < PrizesBefore(s.prizes, p, k) {
        JoinReaches(s, p, t);
        ReachedNext(s, step, p, t, k);
      } else {
        ReachedItself(s', p, k);
      }
    }
  }

  lemma ListedBefore(s: Net, k: int, p: int)
    ensures Lists(s, k, p) ==> k <= s.Round()
  {
  }

  lemma ReachedItself(s: Net, p: int, k: int)
    requires Lists(s, k, p)
    ensures Reached(s, p, PrizesBefore(s.prizes, p, k), k)
  {
  }

  lemma NextPaidOnce(s: Net, step: Step, p: int)
    requires Rounds(s) && FreshPrizes(s) && Balanced(s, p) && PaidOnce(s, p) && Enabled(s, step)
    ensures PaidOnce(Next(s, step), p)
  {
    hide Rounds, Next, OwnNext, FreshPrizes, Balanced, Lists, PrizesBefore, PrizesOf;
    var s' := Next(s, step);
    PrizesMove(s, step, p);
    if step.Admit? {
      AdmissionFrame(s, step);
      if p in s.procs {
        ListsNext(s, step, s.procs[p].joinedAt, p);
      }
    } else if step == Step.Join(p) {
      JoinsWithItsCount(s, p);
      PrizesBeforeKept(s, step, p, s.Round());
      ListsNext(s, step, s.Round(), p);
      JoinsItself(s, p);
    } else if p in s.procs {
      KeepsPlace(s, step, p);
      ListsNext(s, step, s.procs[p].joinedAt, p);
      ListedBefore(s, s.procs[p].joinedAt, p);
      if s.procs[p].joinedAt >= 0 {
        PrizesBeforeKept(s, step, p, s.procs[p].joinedAt);
      }
    } else {
      StepIsOnePidsStep(s, step);
    }
  }

  lemma JoinsItself(s: Net, p: int)
    requires Enabled(s, Step.Join(p))
    ensures var s' := Next(s, Step.Join(p));
      p in s'.procs && s'.procs[p].joinedAt == s.Round() && s'.procs[p].phase.Mining?
  {
    hide SysNext, CleanNext, PublisherNext;
  }

  /** Any other step: a payment ends the waiting for it, and nothing but a join begins it. */
  lemma KeepsPlace(s: Net, step: Step, p: int)
    requires Enabled(s, step) && !step.Admit? && step != Step.Join(p) && p in s.procs
    ensures var s' := Next(s, step);
      && p in s'.procs && s'.procs[p].joinedAt == s.procs[p].joinedAt
      && (Unpaid(s'.procs[p].phase) ==> Unpaid(s.procs[p].phase) && step != Step.Award(p))
      && (step == Step.Award(p) ==> Unpaid(s.procs[p].phase))
  {
    hide Next, OwnNext;
    StepIsOnePidsStep(s, step);
    OwnFrame(s, step);
    if p != step.pid {
      assert Similar(s.procs[p], Next(s, step).procs[p]);
    } else {
      OwnPlace(s, step);
    }
  }

  lemma OwnPlace(s: Net, step: Step)
    requires Enabled(s, step) && !step.Admit? && !step.Join?
    ensures Unpaid(OwnNext(s, step).phase) ==> Unpaid(s.procs[step.pid].phase) && !step.Award?
    ensures step.Award? ==> Unpaid(s.procs[step.pid].phase)
  {
  }

  // ---------------------------------------------------------------- all runs

  ghost predicate Ledger(s: Net) {
    && Wallets(s) && FreshPrizes(s) && Recorded(s)
    && (forall p :: PaidOnce(s, p)) && (forall p :: Climbs(s, p))
  }

  lemma NextLedger(s: Net, step: Step)
    requires Rounds(s) && Ledger(s) && Enabled(s, step)
    ensures Ledger(Next(s, step))
  {
    hide Rounds, Next, Enabled, Balanced, FreshPrizes, Recorded, PaidOnce, Climbs;
    NextFreshPrizes(s, step);
    NextRecorded(s, step);
    forall p ensures Balanced(Next(s, step), p) && PaidOnce(Next(s, step), p) && Climbs(Next(s, step), p) {
      assert Balanced(s, p) && PaidOnce(s, p) && Climbs(s, p);
      StaysBalanced(s, step, p);
      NextPaidOnce(s, step, p);
      NextClimbs(s, step, p);
    }
  }

  lemma StartLedger()
    ensures Ledger(START)
  {
    ShortIdentity(0);
  }

  lemma {:induction false} RunLedger(steps: seq<Step>)
    requires Legal(steps)
    ensures Ledger(Run(steps))
  {
    hide Legal, Reachable, Next, Enabled, Rounds, Ledger;
    if steps == [] {
      StartLedger();
    } else {
      hide Run;
      LastStep(steps);
      RunRounds(steps[..|steps| - 1]);
      RunLedger(steps[..|steps| - 1]);
      NextLedger(Run(steps[..|steps| - 1]), steps[|steps| - 1]);
    }
  }

  // ---------------------------------------------------------------- main results

  /** What every block records, exactly: for each of its voters the number of prizes that the
      voter had when the round of the block began, and so when it joined, as a `short`. */
  lemma RecordIsCount(s: Net, k: int, i: int)
    requires Reachable(s) && 0 <= k <= |s.history| && 0 <= i < |Blocks(s)[k].voters|
    ensures Blocks(s)[k].voters[i].coins == ToShort(PrizesBefore(s.prizes, Blocks(s)[k].voters[i].pid, k))
  {
    var steps :| Legal(steps) && s == Run(steps);
    RunLedger(steps);
    assert RecordsCounts(s.prizes, Blocks(s)[k].voters, k);
  }

  /** The records of p never decrease along the blocks. */
  ghost predicate Monotone(bs: seq<Block>, p: int) {
    forall j, k, i, l :: 0 <= j < k < |bs| && 0 <= i < |bs[j].voters| && 0 <= l < |bs[k].voters| ==>
      bs[j].voters[i].pid == p == bs[k].voters[l].pid ==> bs[j].voters[i].coins <= bs[k].voters[l].coins
  }

  /** Every record of p was made with a number of prizes that a `short` holds. */
  ghost predicate Fits(s: Net, p: int) {
    forall k :: Lists(s, k, p) ==> PrizesBefore(s.prizes, p, k) <= SHORT_MAX
  }

  lemma FitsIsMonotone(s: Net, p: int)
    requires Recorded(s) && Fits(s, p)
    ensures Monotone(Blocks(s), p)
  {
    hide ToShort;
    var bs := Blocks(s);
    forall j, k, i, l | 0 <= j < k < |bs| && 0 <= i < |bs[j].voters| && 0 <= l < |bs[k].voters|
      ensures bs[j].voters[i].pid == p == bs[k].voters[l].pid ==> bs[j].voters[i].coins <= bs[k].voters[l].coins
    {
      if bs[j].voters[i].pid == p == bs[k].voters[l].pid {
        RecordThatFits(s, j, i);
        RecordThatFits(s, k, l);
        PrizesBeforeGrow(s.prizes, p, j, k);
      }
    }
  }

  lemma RecordThatFits(s: Net, k: int, i: int)
    requires Recorded(s) && 0 <= k <= |s.history| && 0 <= i < |Blocks(s)[k].voters|
    requires Fits(s, Blocks(s)[k].voters[i].pid)
    ensures Blocks(s)[k].voters[i].coins == PrizesBefore(s.prizes, Blocks(s)[k].voters[i].pid, k)
  {
    assert RecordsCounts(s.prizes, Blocks(s)[k].voters, k);
    assert Lists(s, k, Blocks(s)[k].voters[i].pid);
    ShortIdentity(PrizesBefore(s.prizes, Blocks(s)[k].voters[i].pid, k));
  }

  /** A record beyond what a `short` holds was preceded by one with 32768 prizes, which reads
      -32768, and that one by one with 32767. */
  lemma BeyondShortDecreases(s: Net, p: int)
    requires Recorded(s) && Climbs(s, p) && !Fits(s, p)
    ensures !Monotone(Blocks(s), p)
  {
    var k :| Lists(s, k, p) && PrizesBefore(s.prizes, p, k) > SHORT_MAX;
    assert Reached(s, p, SHORT_MAX, k) && Reached(s, p, SHORT_MAX + 1, k);
    var a :| a <= k && Lists(s, a, p) && PrizesBefore(s.prizes, p, a) == SHORT_MAX;
    var b :| b <= k && Lists(s, b, p) && PrizesBefore(s.prizes, p, b) == SHORT_MAX + 1;
    hide Climbs, Reached;
    PrizesBeforeGrow(s.prizes, p, if a < b then a else b, if a < b then b else a);
    var i :| 0 <= i < |Blocks(s)[a].voters| && Blocks(s)[a].voters[i].pid == p;
    var l :| 0 <= l < |Blocks(s)[b].voters| && Blocks(s)[b].voters[l].pid == p;
    assert RecordsCounts(s.prizes, Blocks(s)[a].voters, a) && RecordsCounts(s.prizes, Blocks(s)[b].voters, b);
    assert Blocks(s)[a].voters[i].coins == 32767 && Blocks(s)[b].voters[l].coins == -32768;
  }

  /** When the records of a process never decrease along the chain, exactly: if and only if it
      joined every block that lists it with at most as many prizes as a `short` holds. */
  lemma MonotoneIff(s: Net, p: int)
    requires Reachable(s)
    ensures Monotone(Blocks(s), p)
       <==> forall k :: Lists(s, k, p) ==> PrizesBefore(s.prizes, p, k) <= SHORT_MAX
  {
    var steps :| Legal(steps) && s == Run(steps);
    RunLedger(steps);
    hide Reachable, Legal, Run;
    assert Climbs(s, p);
    if Fits(s, p) {
      FitsIsMonotone(s, p);
    } else {
      BeyondShortDecreases(s, p);
    }
  }

  /** What block b records for p never exceeds n. */
  ghost predicate RecordsAtMost(b: Block, p: int, n: int) {
    forall i :: 0 <= i < |b.voters| && b.voters[i].pid == p ==> b.voters[i].coins <= n
  }

  /** No block records more for p than it has, and its records never decrease. */
  ghost predicate Grows(s: Net, p: int) {
    && (forall k :: 0 <= k <= |s.history| ==> RecordsAtMost(Blocks(s)[k], p, Coins(s, p)))
    && Monotone(Blocks(s), p)
  }

  /** Hence, over whole runs: the prizes of a process are the acceptance tests it has passed
      and been paid for, and its coins are the number of its prizes as a `short`. As long as
      that number fits, no block records more for the process than it has, and its records
      never decrease along the chain. */
  lemma WalletsOnlyGrow(s: Net, p: int)
    requires p in s.procs && Reachable(s)
    ensures PrizesOf(s.prizes, p) + One(HasPassed(s.procs[p])) == s.accepted[p]
    ensures s.procs[p].coins == ToShort(PrizesOf(s.prizes, p))
    ensures PrizesOf(s.prizes, p) <= SHORT_MAX ==> s.procs[p].coins == PrizesOf(s.prizes, p) && Grows(s, p)
  {
    var steps :| Legal(steps) && s == Run(steps);
    RunLedger(steps);
    hide Reachable, Legal, Run;
    assert Balanced(s, p);
    if PrizesOf(s.prizes, p) <= SHORT_MAX {
      ShortIdentity(PrizesOf(s.prizes, p));
      FewPrizesGrow(s, p);
    }
  }

  lemma FewPrizesGrow(s: Net, p: int)
    requires Recorded(s) && PrizesOf(s.prizes, p) <= SHORT_MAX && Coins(s, p) == PrizesOf(s.prizes, p)
    ensures Grows(s, p)
  {
    forall k ensures PrizesBefore(s.prizes, p, k) <= PrizesOf(s.prizes, p) {
      PrizesBeforeGrow(s.prizes, p, k, k);
    }
    assert Fits(s, p);
    FitsIsMonotone(s, p);
    forall k | 0 <= k <= |s.history| ensures RecordsAtMost(Blocks(s)[k], p, Coins(s, p)) {
      forall i | 0 <= i < |Blocks(s)[k].voters| && Blocks(s)[k].voters[i].pid == p
        ensures Blocks(s)[k].voters[i].coins <= Coins(s, p)
      {
        RecordThatFits(s, k, i);
      }
    }
  }
}
