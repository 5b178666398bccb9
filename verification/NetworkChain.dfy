/** The chain of blocks and their winners, over whole runs and with any number of winners. */
module NetworkChain {
  import opened Modular
  import opened Pow
  import opened ParallelSearch
  import opened CTypes
  import opened MinerTable
  import opened Network
  import opened NetworkRounds

  predicate InDomain(x: int) { 0 <= x < POW_LIMIT }

  ghost predicate Chain(s: Net) {
    && (forall k :: 0 <= k < |s.history| ==>
          s.history[k].block.id == ToShort(k) && InDomain(s.history[k].block.solution))
    && (s.history != [] ==> s.history[0].block.target == 0 && s.sys.last == s.history[|s.history| - 1].block)
    && (forall k :: 0 < k < |s.history| ==> s.history[k].block.target == s.history[k - 1].block.solution)
    && s.sys.cur.id == ToShort(|s.history|)
    && s.sys.cur.target == (if s.history == [] then 0 else s.sys.last.solution)
    && InDomain(s.sys.cur.target) && InDomain(s.sys.cur.solution)
    && (forall p :: p in s.procs ==> InDomain(s.procs[p].solution) && InDomain(s.procs[p].target))
  }

  /** Counting in a `short` from one wrapped value to the next. */
  lemma ShortSuccessor(k: int)
    ensures ToShort(ToShort(k) + 1) == ToShort(k + 1)
  {
    ModAdd((k + 0x8000) % 0x1_0000, k + 0x8000, 1, 0x1_0000);
    ModIdempotent(k + 0x8000, 0x1_0000);
  }

  /** A finished search leaves a solution in the domain. */
  lemma MinedInDomain(s: Net, step: Step)
    requires Rounds(s) && Chain(s) && Enabled(s, step) && step.Mine?
    ensures InDomain(OwnNext(s, step).solution)
  {
    var pr := s.procs[step.pid];
    assert Timely(s.Round(), s.started, s.roster, step.pid, pr);
    HashIsGood();
    SearchOutcome(SearchFor(pr), Cell(0, pr.solution), step.schedule);
    PreimageIsPreimage(HASH, pr.target);
  }

  lemma NextDomains(s: Net, step: Step)
    requires Rounds(s) && Chain(s) && Enabled(s, step) && !step.Admit?
    ensures var s' := Next(s, step);
      forall p :: p in s'.procs ==> InDomain(s'.procs[p].solution) && InDomain(s'.procs[p].target)
  {
    var s' := Next(s, step);
    StepIsOnePidsStep(s, step);
    OwnFrame(s, step);
    if step.Mine? {
      MinedInDomain(s, step);
    }
    forall p | p in s'.procs ensures InDomain(s'.procs[p].solution) && InDomain(s'.procs[p].target) {
      assert p != step.pid ==> Similar(s.procs[p], s'.procs[p]);
    }
  }

  lemma KeepChain(s: Net, s': Net)
    requires Chain(s) && s'.history == s.history && s'.sys.last == s.sys.last
    requires s'.sys.cur.id == s.sys.cur.id && s'.sys.cur.target == s.sys.cur.target && InDomain(s'.sys.cur.solution)
    requires forall p :: p in s'.procs ==> InDomain(s'.procs[p].solution) && InDomain(s'.procs[p].target)
    ensures Chain(s')
  {
  }

  lemma RotateChain(s: Net, s': Net)
    requires Chain(s) && s'.sys.last == s.sys.cur
    requires s'.sys.cur.id == ToShort(|s'.history|) && s'.sys.cur.solution == 0
    requires s'.sys.cur.target == s.sys.cur.solution
    requires |s'.history| == |s.history| + 1 && s'.history[..|s.history|] == s.history
    requires s'.history[|s.history|].block == s.sys.cur
    requires forall p :: p in s'.procs ==> InDomain(s'.procs[p].solution) && InDomain(s'.procs[p].target)
    ensures Chain(s')
  {
    assert forall k :: 0 <= k < |s.history| ==> s'.history[k] == s.history[k];
  }

  /** Apart from rotations, no step changes the identity or the target of the current block. */
  lemma ChainFieldsKept(s: Net, step: Step)
    requires Rounds(s) && Chain(s) && Enabled(s, step) && !step.Admit? && !step.Rotate?
    ensures var s' := Next(s, step);
      && s'.history == s.history && s'.sys.last == s.sys.last
      && s'.sys.cur.id == s.sys.cur.id && s'.sys.cur.target == s.sys.cur.target && InDomain(s'.sys.cur.solution)
  {
    if step.Kick? {
      assert Timely(s.Round(), s.started, s.roster, step.pid, s.procs[step.pid]);
      ShortSuccessor(-1);
      IntIdentity(0);
    }
    hide Rounds, OwnNext, OthersNext, CleanNext, PublisherNext, Covers, Timely;
  }

  lemma AdmitChain(s: Net, step: Step)
    requires Chain(s) && Enabled(s, step) && step.Admit?
    ensures Chain(Next(s, step))
  {
    AdmissionFrame(s, step);
    hide Next;
    KeepChain(s, Next(s, step));
  }

  lemma RotationIs(s: Net, step: Step)
    requires Chain(s) && Enabled(s, step) && step.Rotate?
    ensures var s' := Next(s, step);
      && s'.history == s.history + [Archived(s.sys.cur, s.clean, s.publisher != Nobody)]
      && s'.sys.last == s.sys.cur && s'.sys.cur.id == ToShort(|s'.history|)
      && s'.sys.cur.target == s.sys.cur.solution && s'.sys.cur.solution == 0
  {
    hide OwnNext, OthersNext, CleanNext, PublisherNext;
    ShortSuccessor(|s.history|);
    IntIdentity(s.sys.cur.solution);
  }

  lemma NextChain(s: Net, step: Step)
    requires Rounds(s) && Chain(s) && Enabled(s, step)
    ensures Chain(Next(s, step))
  {
    hide Chain, Rounds, Next;
    if step.Admit? {
      AdmitChain(s, step);
    } else {
      NextDomains(s, step);
      if step.Rotate? {
        RotationIs(s, step);
        RotateChain(s, Next(s, step));
      } else {
        ChainFieldsKept(s, step);
        KeepChain(s, Next(s, step));
      }
    }
  }

  lemma {:induction false} RunChain(steps: seq<Step>)
    requires Legal(steps)
    ensures Chain(Run(steps))
  {
    if steps == [] {
      ModIdentity(0x8000, 0x1_0000);
    } else {
      RunRounds(steps[..|steps| - 1]);
      RunChain(steps[..|steps| - 1]);
      NextChain(Run(steps[..|steps| - 1]), steps[|steps| - 1]);
    }
  }

  /** Block chain safety: the archived ids count 0, 1, 2, ... (as `short`s), the first target
      is 0, every other target is the solution before it, and the current block continues the
      chain - whatever the interleaving, and however many winners a round has. */
  lemma ChainSafety(s: Net)
    requires Reachable(s)
    ensures forall k :: 0 <= k < |s.history| ==> s.history[k].block.id == ToShort(k)
    ensures s.history != [] ==> s.history[0].block.target == 0
    ensures forall k :: 0 < k < |s.history| ==> s.history[k].block.target == s.history[k - 1].block.solution
    ensures s.history != [] ==> s.sys.last == s.history[|s.history| - 1].block
    ensures s.history != [] ==> s.sys.cur.id == ToShort(s.sys.last.id + 1) && s.sys.cur.target == s.sys.last.solution
  {
    var steps :| Legal(steps) && s == Run(steps);
    RunChain(steps);
    ShortSuccessor(|s.history| - 1);
  }

  // ---------------------------------------------------------------- the winner of a block

  /** All blocks of the run, the current one last. */
  function Blocks(s: Net): (bs: seq<Block>)
    ensures |bs| == |s.history| + 1
  {
    seq(|s.history| + 1, k requires 0 <= k <= |s.history| => if k < |s.history| then s.history[k].block else s.sys.cur)
  }

  /** The last process to award itself the current block of that round, or 0. */
  function WinnerOf(prizes: seq<Prize>, round: nat): int {
    if prizes == [] then 0
    else if prizes[|prizes| - 1].round == round then prizes[|prizes| - 1].pid
    else WinnerOf(prizes[..|prizes| - 1], round)
  }

  ghost predicate Winners(s: Net) {
    && (forall k :: 0 <= k < |s.history| ==> s.history[k].block.winner == WinnerOf(s.prizes, k))
    && s.sys.cur.winner == WinnerOf(s.prizes, s.Round())
    && (forall i :: 0 <= i < |s.prizes| ==> s.prizes[i].round <= s.Round())
    && (!s.started ==> s.prizes == [])
  }

  lemma {:induction false} NoWinnerYet(prizes: seq<Prize>, round: nat)
    requires forall i :: 0 <= i < |prizes| ==> prizes[i].round < round
    ensures WinnerOf(prizes, round) == 0
  {
    if prizes != [] {
      NoWinnerYet(prizes[..|prizes| - 1], round);
    }
  }

  lemma AwardWinners(s: Net, s': Net, p: int)
    requires Winners(s) && s.started && s'.started && s'.history == s.history
    requires s'.prizes == s.prizes + [Prize(s.Round(), p)] && s'.sys.cur.winner == p
    ensures Winners(s')
  {
    assert s'.prizes[..|s.prizes|] == s.prizes;
    assert forall k: nat :: k < |s.history| ==> WinnerOf(s'.prizes, k) == WinnerOf(s.prizes, k);
  }

  lemma RotateWinners(s: Net, s': Net)
    requires Winners(s) && s'.prizes == s.prizes && s'.sys.cur.winner == 0 && s'.started == s.started
    requires |s'.history| == |s.history| + 1 && s'.history[..|s.history|] == s.history
    requires s'.history[|s.history|].block == s.sys.cur
    ensures Winners(s')
  {
    NoWinnerYet(s.prizes, s'.Round());
    assert forall k :: 0 <= k < |s.history| ==> s'.history[k] == s.history[k];
  }

  lemma OtherWinners(s: Net, step: Step)
    requires Rounds(s) && Winners(s) && Enabled(s, step) && !step.Award? && !step.Rotate?
    ensures Winners(Next(s, step))
  {
    if step.Kick? {
      assert Timely(s.Round(), s.started, s.roster, step.pid, s.procs[step.pid]);
    }
    hide Rounds, OwnNext, OthersNext, CleanNext, PublisherNext, Timely;
  }

  lemma NextWinners(s: Net, step: Step)
    requires Rounds(s) && Winners(s) && Enabled(s, step)
    ensures Winners(Next(s, step))
  {
    if step.Rotate? {
      hide Winners, OwnNext, OthersNext, CleanNext, PublisherNext;
      RotateWinners(s, Next(s, step));
    } else if step.Award? {
      assert Timely(s.Round(), s.started, s.roster, step.pid, s.procs[step.pid]);
      hide Winners, OwnNext, OthersNext, CleanNext, PublisherNext;
      AwardWinners(s, Next(s, step), step.pid);
    } else {
      OtherWinners(s, step);
    }
  }

  lemma {:induction false} RunWinners(steps: seq<Step>)
    requires Legal(steps)
    ensures Winners(Run(steps))
  {
    if steps != [] {
      RunRounds(steps[..|steps| - 1]);
      RunWinners(steps[..|steps| - 1]);
      NextWinners(Run(steps[..|steps| - 1]), steps[|steps| - 1]);
    }
  }

  /** The winner that a block names, archived or not, is the last process that awarded itself
      that block while it was current, and 0 if none did. */
  lemma WinnerIsLastAwarded(s: Net)
    requires Reachable(s)
    ensures forall k :: 0 <= k <= |s.history| ==> Blocks(s)[k].winner == WinnerOf(s.prizes, k)
  {
    var steps :| Legal(steps) && s == Run(steps);
    RunWinners(steps);
  }
}
