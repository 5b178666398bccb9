/** When the votes of a round agree. */
module NetworkVotes {
  import opened Pow
  import opened ParallelSearch
  import opened MinerTable
  import opened MinerSystem
  import opened Counting
  import opened Network
  import opened NetworkRounds
  import opened NetworkChain

  /** The search of pr has a preimage of its target to find. */
  predicate Finds(pr: Proc) {
    pr.threads != 0 && Covers(pr)
  }

  predicate HasMined(pr: Proc) {
    pr.phase.Mined? || pr.phase.Winning? || pr.phase.Losing?
  }

  predicate Honest(s: Net, pr: Proc) {
    && (pr.readAt == s.Round() ==> pr.target == s.sys.cur.target)
    && (pr.phase.Ready? || pr.phase.Informed? ==> !pr.usr2)
    && (pr.phase.Losing? ==> pr.usr2)
    && (HasMined(pr) && Finds(pr) ==> pr.solution == Preimage(HASH, pr.target))
    && (pr.joinedAt == s.Round() && Owes(pr) && pr.usr2 ==> s.publisher != Nobody)
    && (pr.joinedAt == s.Round() && Owes(pr) && s.clean ==> pr.readAt == s.Round() && Finds(pr))
  }

  /** A clean round that was published proved its work, and was unanimous. */
  predicate ArchivedOk(a: Archived) {
    a.clean ==> a.block.favorable == a.block.total && (a.published ==> PowHash(a.block.solution) == a.block.target)
  }

  ghost predicate Agreement(s: Net) {
    && (forall p :: p in s.procs ==> Honest(s, s.procs[p]))
    && (s.publisher.Mined? && s.publisher.covered ==>
          InDomain(s.publisher.target) && s.sys.cur.solution == Preimage(HASH, s.publisher.target))
    && (s.clean && s.publisher.Mined? ==> s.publisher == Publisher.Mined(s.sys.cur.target, true))
    && (s.clean ==> s.sys.cur.favorable == s.sys.cur.total)
    && (forall k :: 0 <= k < |s.history| ==> ArchivedOk(s.history[k]))
  }

  // ---------------------------------------------------------------- invariance

  /** The searching process: what it finds is the preimage, if its search covers it. */
  lemma MineHonest(s: Net, step: Step)
    requires Rounds(s) && Agreement(s) && Enabled(s, step) && step.Mine?
    ensures Honest(Next(s, step), OwnNext(s, step))
  {
    var pr := s.procs[step.pid];
    assert Honest(s, pr);
    assert Timely(s.Round(), s.started, s.roster, step.pid, pr);
    HashIsGood();
    SearchOutcome(SearchFor(pr), Cell(0, pr.solution), step.schedule);
  }

  predicate TouchesBlock(step: Step) {
    step.Join? || step.Publish? || step.Vote? || step.Kick? || step.Rotate?
  }

  lemma BlockStepHonest(s: Net, step: Step)
    requires Rounds(s) && Agreement(s) && Enabled(s, step) && TouchesBlock(step)
    ensures Honest(Next(s, step), OwnNext(s, step))
  {
    assert Honest(s, s.procs[step.pid]);
    assert Timely(s.Round(), s.started, s.roster, step.pid, s.procs[step.pid]);
    hide Agreement, Rounds;
  }

  lemma QuietStepHonest(s: Net, step: Step)
    requires Agreement(s) && Enabled(s, step) && !TouchesBlock(step) && !step.Admit? && !step.Mine?
    ensures Honest(Next(s, step), OwnNext(s, step))
  {
    assert Honest(s, s.procs[step.pid]);
    hide Agreement;
  }

  lemma OwnHonest(s: Net, step: Step)
    requires Rounds(s) && Agreement(s) && Enabled(s, step) && !step.Admit? && !step.Mine?
    ensures Honest(Next(s, step), OwnNext(s, step))
  {
    hide Honest, Agreement, Rounds, Next, OwnNext;
    if TouchesBlock(step) {
      BlockStepHonest(s, step);
    } else {
      QuietStepHonest(s, step);
    }
  }

  /** The other processes. A SIGUSR2 reaches only voters of the current block. */
  lemma FlaggedHonest(s: Net, step: Step, q: int)
    requires Rounds(s) && Counts(s) && Agreement(s) && Enabled(s, step) && step.Publish?
    requires q in s.procs && q != step.pid
    ensures q in Next(s, step).procs && Honest(Next(s, step), Next(s, step).procs[q])
  {
    assert Honest(s, s.procs[q]);
    assert Timely(s.Round(), s.started, s.roster, q, s.procs[q]);
    OthersAre(s.sys.cur.voters, step.pid, q);
    assert q in Others(s.sys.cur.voters, step.pid) ==> s.procs[q].joinedAt == s.Round();
    hide Rounds, Counts, Agreement, OwnNext, Covers;
  }

  /** A new round begins for everyone. */
  lemma WokenHonest(s: Net, step: Step, q: int)
    requires Rounds(s) && Agreement(s) && Enabled(s, step) && (step.Kick? || step.Rotate?)
    requires q in s.procs && q != step.pid
    ensures q in Next(s, step).procs && Honest(Next(s, step), Next(s, step).procs[q])
  {
    assert Honest(s, s.procs[q]);
    assert Timely(s.Round(), s.started, s.roster, q, s.procs[q]);
    assert Timely(s.Round(), s.started, s.roster, step.pid, s.procs[step.pid]);
    hide Rounds, Agreement, OwnNext, Covers;
  }

  lemma UnmovedHonest(s: Net, step: Step, q: int)
    requires Agreement(s) && Enabled(s, step)
    requires !step.Admit? && !step.Publish? && !step.Kick? && !step.Rotate?
    requires q in s.procs && q != step.pid
    ensures q in Next(s, step).procs && Honest(Next(s, step), Next(s, step).procs[q])
  {
    assert Honest(s, s.procs[q]);
    hide Agreement, OwnNext, Covers;
  }

  lemma OtherHonest(s: Net, step: Step, q: int)
    requires Rounds(s) && Counts(s) && Agreement(s) && Enabled(s, step) && !step.Admit?
    requires q in s.procs && q != step.pid
    ensures q in Next(s, step).procs && Honest(Next(s, step), Next(s, step).procs[q])
  {
    hide Honest, Rounds, Counts, Agreement, Next;
    if step.Publish? {
      FlaggedHonest(s, step, q);
    } else if step.Kick? || step.Rotate? {
      WokenHonest(s, step, q);
    } else {
      UnmovedHonest(s, step, q);
    }
  }

  /** A process that joined in this clean round votes for the published solution. */
  lemma CleanVoteAgrees(s: Net, p: int)
    requires Agreement(s) && s.clean && p in s.procs && s.procs[p].phase.Losing? && s.procs[p].joinedAt == s.Round()
    ensures s.procs[p].solution == s.sys.cur.solution == Preimage(HASH, s.sys.cur.target)
  {
    assert Honest(s, s.procs[p]);
  }

  /** A process that joined in this clean round publishes the preimage of the target. */
  lemma CleanPublication(s: Net, p: int)
    requires Agreement(s) && s.clean && p in s.procs && s.procs[p].phase.Winning? && s.procs[p].joinedAt == s.Round()
    ensures s.procs[p].solution == Preimage(HASH, s.sys.cur.target)
    ensures Finds(s.procs[p]) && s.procs[p].target == s.sys.cur.target
  {
    assert Honest(s, s.procs[p]);
  }

  /** The conjuncts about the block and its publisher. */
  ghost predicate BlockAgrees(s: Net) {
    && (s.publisher.Mined? && s.publisher.covered ==>
          InDomain(s.publisher.target) && s.sys.cur.solution == Preimage(HASH, s.publisher.target))
    && (s.clean && s.publisher.Mined? ==> s.publisher == Publisher.Mined(s.sys.cur.target, true))
    && (s.clean ==> s.sys.cur.favorable == s.sys.cur.total)
  }

  lemma PublishAgrees(s: Net, step: Step)
    requires Agreement(s) && Enabled(s, step) && step.Publish?
    ensures BlockAgrees(Next(s, step))
  {
    assert Honest(s, s.procs[step.pid]);
    if Next(s, step).clean {
      CleanPublication(s, step.pid);
    }
  }

  lemma VoteAgrees(s: Net, step: Step)
    requires Agreement(s) && Enabled(s, step) && step.Vote?
    ensures BlockAgrees(Next(s, step))
  {
    if Next(s, step).clean {
      CleanVoteAgrees(s, step.pid);
    }
  }

  lemma OtherBlockAgrees(s: Net, step: Step)
    requires Rounds(s) && Agreement(s) && Enabled(s, step) && !step.Publish? && !step.Vote?
    ensures BlockAgrees(Next(s, step))
  {
    if !step.Admit? {
      assert Timely(s.Round(), s.started, s.roster, step.pid, s.procs[step.pid]);
    }
  }

  lemma BlockIsFitToArchive(s: Net)
    requires Chain(s) && Agreement(s)
    ensures ArchivedOk(Archived(s.sys.cur, s.clean, s.publisher != Nobody))
  {
    HashIsGood();
    PreimageIsPreimage(HASH, s.sys.cur.target);
  }

  lemma HistoryMoves(s: Net, step: Step)
    requires Enabled(s, step)
    ensures Next(s, step).history
         == s.history + (if step.Rotate? then [Archived(s.sys.cur, s.clean, s.publisher != Nobody)] else [])
  {
  }

  lemma NextHonest(s: Net, step: Step)
    requires Rounds(s) && Counts(s) && Agreement(s) && Enabled(s, step)
    ensures forall p :: p in Next(s, step).procs ==> Honest(Next(s, step), Next(s, step).procs[p])
  {
    var s' := Next(s, step);
    if step.Admit? {
      AdmitHonest(s, step);
    } else {
      hide Honest, Agreement, Rounds, Counts, OwnNext, SysNext, OthersNext, CleanNext, PublisherNext, Covers;
      StepIsOnePidsStep(s, step);
      OwnFrame(s, step);
      forall p | p in s'.procs ensures Honest(s', s'.procs[p]) {
        if p != step.pid {
          OtherHonest(s, step, p);
        } else if step.Mine? {
          MineHonest(s, step);
        } else {
          OwnHonest(s, step);
        }
      }
    }
  }

  lemma AdmitHonest(s: Net, step: Step)
    requires Agreement(s) && Enabled(s, step) && step.Admit?
    ensures forall p :: p in Next(s, step).procs ==> Honest(Next(s, step), Next(s, step).procs[p])
  {
    AdmissionFrame(s, step);
    hide Next;
    var s' := Next(s, step);
    forall p | p in s'.procs ensures Honest(s', s'.procs[p]) {
      if p in s.procs {
        assert Honest(s, s.procs[p]);
      }
    }
  }

  lemma NextAgreement(s: Net, step: Step)
    requires Rounds(s) && Counts(s) && Chain(s) && Agreement(s) && Enabled(s, step)
    ensures Agreement(Next(s, step))
  {
    NextHonest(s, step);
    HistoryMoves(s, step);
    BlockIsFitToArchive(s);
    if step.Publish? {
      PublishAgrees(s, step);
    } else if step.Vote? {
      VoteAgrees(s, step);
    } else {
      OtherBlockAgrees(s, step);
    }
    assert BlockAgrees(Next(s, step));
  }

  lemma {:induction false} RunAgreement(steps: seq<Step>)
    requires Legal(steps)
    ensures Agreement(Run(steps))
  {
    if steps != [] {
      RunRounds(steps[..|steps| - 1]);
      RunCounts(steps[..|steps| - 1]);
      RunChain(steps[..|steps| - 1]);
      RunAgreement(steps[..|steps| - 1]);
      NextAgreement(Run(steps[..|steps| - 1]), steps[|steps| - 1]);
    }
  }

  // ---------------------------------------------------------------- main results

  /** Vote agreement in every reachable state whose current round is clean: all votes so far
      are favourable, every winner that joined in this round publishes the preimage of the
      block's target, every loser that joined in it votes for it, and an acceptance test
      made now succeeds. */
  lemma VoteAgreement(s: Net)
    requires Reachable(s) && s.clean
    ensures s.sys.cur.favorable == s.sys.cur.total
    ensures forall p :: p in s.procs && s.procs[p].joinedAt == s.Round() && s.procs[p].phase.Winning?
              ==> s.procs[p].solution == Preimage(HASH, s.sys.cur.target)
    ensures forall p :: p in s.procs && s.procs[p].joinedAt == s.Round() && s.procs[p].phase.Losing?
              ==> s.procs[p].solution == s.sys.cur.solution
    ensures forall p :: Enabled(s, Step.Judge(p)) ==> Next(s, Step.Judge(p)).procs[p].phase == Awarding
  {
    var steps :| Legal(steps) && s == Run(steps);
    RunAgreement(steps);
    forall p | p in s.procs && s.procs[p].joinedAt == s.Round() && s.procs[p].phase.Winning?
      ensures s.procs[p].solution == Preimage(HASH, s.sys.cur.target)
    {
      CleanPublication(s, p);
    }
    forall p | p in s.procs && s.procs[p].joinedAt == s.Round() && s.procs[p].phase.Losing?
      ensures s.procs[p].solution == s.sys.cur.solution
    {
      CleanVoteAgrees(s, p);
    }
  }

  /** Proof of work of the chain: a block archived at the end of a clean round in which a
      solution was published is unanimous, and its solution hashes to its target. */
  lemma ArchivedWork(s: Net, k: nat)
    requires k < |s.history| && s.history[k].clean && Reachable(s)
    ensures s.history[k].block.favorable == s.history[k].block.total
    ensures s.history[k].published ==> PowHash(s.history[k].block.solution) == s.history[k].block.target
  {
    var steps :| Legal(steps) && s == Run(steps);
    RunAgreement(steps);
    assert ArchivedOk(s.history[k]);
  }

  lemma SameSolutionIffSamePublished(s: Net, p: int)
    requires Agreement(s) && p in s.procs && s.procs[p].phase.Losing? && Finds(s.procs[p])
    requires s.publisher.Mined? && s.publisher.covered
    ensures s.procs[p].solution == s.sys.cur.solution <==> s.procs[p].target == s.publisher.target
  {
    assert Honest(s, s.procs[p]);
    HashIsGood();
    PreimageIsPreimage(HASH, s.procs[p].target);
    PreimageIsPreimage(HASH, s.publisher.target);
  }

  lemma VoteEffect(s: Net, p: int)
    requires Enabled(s, Step.Vote(p)) && s.sys.cur.favorable <= s.sys.cur.total < MAX_MINERS
    ensures Next(s, Step.Vote(p)).sys.cur.total == s.sys.cur.total + 1
    ensures Next(s, Step.Vote(p)).sys.cur.favorable
         == s.sys.cur.favorable + One(s.procs[p].solution == s.sys.cur.solution)
  {
    hide Covers;
    assert Next(s, Step.Vote(p)).sys == s.sys.Vote(s.procs[p].solution);
  }

  /** Whether a single vote is favourable, exactly: if the voter's search and the publisher's
      both covered their targets, then the vote is favourable if and only if the two processes
      had read the same target - whatever the rounds they read it in. */
  lemma CoveredVoteFavourableIff(s: Net, p: int)
    requires Reachable(s) && Enabled(s, Step.Vote(p))
    requires s.publisher.Mined? && s.publisher.covered && Finds(s.procs[p])
    ensures Next(s, Step.Vote(p)).sys.cur.total == s.sys.cur.total + 1
    ensures Next(s, Step.Vote(p)).sys.cur.favorable
         == s.sys.cur.favorable + One(s.procs[p].target == s.publisher.target)
  {
    var steps :| Legal(steps) && s == Run(steps);
    RunAgreement(steps);
    hide Reachable, Legal, Run, Agreement, Honest, Covers, Next;
    BlockNeverOverruns(s, p);
    VotersOnce(s);
    VoteEffect(s, p);
    SameSolutionIffSamePublished(s, p);
  }
}
