/** Which votes are favourable, and which rounds are unanimous, exactly: for every run, with
    stale targets, late votes, several winners and searches that find nothing. */
module NetworkBallots {
  import opened Pow
  import opened ParallelSearch
  import opened MinerTable
  import opened Counting
  import opened Network
  import opened NetworkRounds
  import opened NetworkChain
  import opened NetworkVotes

  /** A miner whose search has found nothing yet has the solution 0, as if it had found the
      preimage of this target; so has a block that nobody has published. */
  const NOTHING := PowHash(0)

  /** The target for which the process last found a preimage. */
  function LastFound(steps: seq<Step>, p: int): int
    requires Legal(steps)
    decreases |steps|
  {
    if steps == [] then NOTHING
    else
      var front, step := steps[..|steps| - 1], steps[|steps| - 1];
      if step.Mine? && step.pid == p && Finds(Run(front).procs[p]) then Run(front).procs[p].target
      else LastFound(front, p)
  }

  /** The target that the last publisher of the current block had last found. */
  function PublishedTarget(steps: seq<Step>): int
    requires Legal(steps)
    decreases |steps|
  {
    if steps == [] then NOTHING
    else
      var front, step := steps[..|steps| - 1], steps[|steps| - 1];
      if step.Publish? then LastFound(front, step.pid)
      else if step.Kick? || step.Rotate? then NOTHING
      else PublishedTarget(front)
  }

  /** Every vote of the current block was cast by a process that had last found the target
      published at that moment. */
  predicate AllAgreed(steps: seq<Step>)
    requires Legal(steps)
    decreases |steps|
  {
    steps == [] ||
    var front, step := steps[..|steps| - 1], steps[|steps| - 1];
    step.Kick? || step.Rotate? ||
    (AllAgreed(front) && (step.Vote? ==> LastFound(front, step.pid) == PublishedTarget(front)))
  }

  // ---------------------------------------------------------------- solutions and what was found

  predicate Solves(solution: int, target: int) {
    InDomain(target) && solution == Preimage(HASH, target)
  }

  lemma NothingIsZero()
    ensures Solves(0, NOTHING)
  {
    HashIsGood();
    PreimageInverts(HASH, 0);
  }

  lemma SolutionsAgreeIff(x: int, t: int, y: int, u: int)
    requires Solves(x, t) && Solves(y, u)
    ensures x == y <==> t == u
  {
    HashIsGood();
    PreimageIsPreimage(HASH, t);
    PreimageIsPreimage(HASH, u);
  }

  ghost predicate Found(steps: seq<Step>, p: int)
    requires Legal(steps)
  {
    if p in Run(steps).procs then Solves(Run(steps).procs[p].solution, LastFound(steps, p))
    else LastFound(steps, p) == NOTHING
  }

  /** What a step does to the solution of a process. */
  lemma SolutionNext(s: Net, step: Step, p: int)
    requires Rounds(s) && Chain(s) && Enabled(s, step) && p in s.procs
    ensures p in Next(s, step).procs
    ensures Next(s, step).procs[p].solution
         == if step.Mine? && step.pid == p && Finds(s.procs[p]) then Preimage(HASH, s.procs[p].target)
            else s.procs[p].solution
    ensures InDomain(s.procs[p].target)
  {
    if step.Admit? {
      AdmissionFrame(s, step);
      hide Next;
    } else {
      StepIsOnePidsStep(s, step);
      OwnFrame(s, step);
      if p != step.pid {
        assert Similar(s.procs[p], Next(s, step).procs[p]);
        hide Next, OwnNext;
      } else if step.Mine? {
        MinedSolution(s, step);
        hide Next, OwnNext;
      }
    }
  }

  lemma MinedSolution(s: Net, step: Step)
    requires Enabled(s, step) && step.Mine?
    ensures OwnNext(s, step).solution
         == if Finds(s.procs[step.pid]) then Preimage(HASH, s.procs[step.pid].target) else s.procs[step.pid].solution
  {
    HashIsGood();
    SearchOutcome(SearchFor(s.procs[step.pid]), Cell(0, s.procs[step.pid].solution), step.schedule);
  }

  lemma FoundNext(steps: seq<Step>, p: int)
    requires |steps| > 0 && Legal(steps) && Found(steps[..|steps| - 1], p)
    requires Rounds(Run(steps[..|steps| - 1])) && Chain(Run(steps[..|steps| - 1]))
    ensures Found(steps, p)
  {
    var front, step := steps[..|steps| - 1], steps[|steps| - 1];
    var s := Run(front);
    assert Enabled(s, step) && Run(steps) == Next(s, step);
    assert LastFound(steps, p)
        == if step.Mine? && step.pid == p && Finds(s.procs[p]) then s.procs[p].target else LastFound(front, p);
    hide Legal, Run, LastFound, Preimage, Covers;
    if p in s.procs {
      SolutionNext(s, step, p);
    } else {
      Newcomer(s, step, p);
      NothingIsZero();
    }
  }

  lemma Newcomer(s: Net, step: Step, p: int)
    requires Enabled(s, step) && p !in s.procs
    ensures p in Next(s, step).procs ==> Next(s, step).procs[p].solution == 0
    ensures step.Mine? ==> step.pid != p
  {
    if step.Admit? {
      AdmissionFrame(s, step);
      hide Next;
    } else {
      StepIsOnePidsStep(s, step);
      hide Next;
    }
  }

  /** What a step does to the solution of the current block. */
  lemma BlockSolutionNext(s: Net, step: Step)
    requires Rounds(s) && Enabled(s, step)
    ensures Next(s, step).sys.cur.solution
         == if step.Publish? then s.procs[step.pid].solution
            else if step.Kick? || step.Rotate? then 0
            else s.sys.cur.solution
  {
    hide OwnNext, OthersNext, CleanNext, PublisherNext, Covers;
  }

  lemma {:induction false} RunFound(steps: seq<Step>)
    requires Legal(steps)
    ensures forall p :: Found(steps, p)
    ensures Solves(Run(steps).sys.cur.solution, PublishedTarget(steps))
  {
    if steps == [] {
      NothingIsZero();
    } else {
      var front, step := steps[..|steps| - 1], steps[|steps| - 1];
      RunFound(front);
      RunRounds(front);
      RunChain(front);
      forall p ensures Found(steps, p) {
        FoundNext(steps, p);
      }
      PublishedNext(steps);
    }
  }

  lemma PublishedNext(steps: seq<Step>)
    requires |steps| > 0 && Legal(steps) && Rounds(Run(steps[..|steps| - 1]))
    requires Found(steps[..|steps| - 1], steps[|steps| - 1].pid)
    requires Solves(Run(steps[..|steps| - 1]).sys.cur.solution, PublishedTarget(steps[..|steps| - 1]))
    ensures Solves(Run(steps).sys.cur.solution, PublishedTarget(steps))
  {
    var front, step := steps[..|steps| - 1], steps[|steps| - 1];
    var s := Run(front);
    assert Enabled(s, step) && Run(steps) == Next(s, step);
    BlockSolutionNext(s, step);
    NothingIsZero();
    hide Legal, Run, LastFound, Next, Solves;
  }

  // ---------------------------------------------------------------- main results

  /** Whether a block proves its work, exactly, whatever the votes say: the hash of its solution
      is the target that its last publisher had last found, so it is the block's own target if
      and only if that is the one. */
  lemma ProvesWorkIff(steps: seq<Step>)
    requires Legal(steps)
    ensures PowHash(Run(steps).sys.cur.solution) == PublishedTarget(steps)
    ensures PowHash(Run(steps).sys.cur.solution) == Run(steps).sys.cur.target
       <==> PublishedTarget(steps) == Run(steps).sys.cur.target
  {
    RunFound(steps);
    HashIsGood();
    PreimageIsPreimage(HASH, PublishedTarget(steps));
  }

  /** Whether a vote is favourable, exactly and in every case: if and only if the target that
      the voter last found is the one that the block's last publisher had last found. A late
      vote on a block that nobody has published is the case where the latter is NOTHING. */
  lemma VoteFavourableIffSameTarget(steps: seq<Step>, p: int)
    requires Legal(steps) && Enabled(Run(steps), Step.Vote(p))
    ensures var cur, cur' := Run(steps).sys.cur, Next(Run(steps), Step.Vote(p)).sys.cur;
      && cur'.total == cur.total + 1
      && cur'.favorable == cur.favorable + One(LastFound(steps, p) == PublishedTarget(steps))
  {
    var s := Run(steps);
    assert Reachable(s);
    RunFound(steps);
    assert Found(steps, p);
    hide Legal, Run, LastFound, PublishedTarget, Reachable;
    BlockNeverOverruns(s, p);
    VotersOnce(s);
    VoteEffect(s, p);
    SolutionsAgreeIff(s.procs[p].solution, LastFound(steps, p), s.sys.cur.solution, PublishedTarget(steps));
  }

  /** What a step does to the difference between all votes and the favourable ones. */
  lemma OtherStepsKeepUnanimity(s: Net, step: Step)
    requires Reachable(s) && Enabled(s, step) && !step.Vote?
    ensures Unanimous(Next(s, step).sys.cur) <==> step.Kick? || step.Rotate? || Unanimous(s.sys.cur)
  {
    ReachableFacts(s);
    if step.Publish? {
      BlockNeverOverruns(s, step.pid);
      VotersOnce(s);
      PublishEffect(s, step);
    } else if step.Admit? {
      AdmissionFrame(s, step);
      hide Next;
    } else if !step.Join? && !step.Rotate? {
      KeepBlock(s, step);
      if step.Kick? {
        assert Timely(s.Round(), s.started, s.roster, step.pid, s.procs[step.pid]);
      }
      hide Next;
    }
  }

  lemma PublishEffect(s: Net, step: Step)
    requires Enabled(s, step) && step.Publish? && s.sys.cur.favorable <= s.sys.cur.total < MAX_MINERS
    ensures Unanimous(Next(s, step).sys.cur) <==> Unanimous(s.sys.cur)
  {
    assert Next(s, step).sys == s.sys.Publish(s.procs[step.pid].solution);
    hide Next;
  }

  /** When a block is unanimous, exactly: if and only if each of its votes was cast by a
      process that had last found the target published at that moment. */
  lemma {:induction false} UnanimousIff(steps: seq<Step>)
    requires Legal(steps)
    ensures Unanimous(Run(steps).sys.cur) <==> AllAgreed(steps)
  {
    if steps != [] {
      var front, step := steps[..|steps| - 1], steps[|steps| - 1];
      var s := Run(front);
      UnanimousIff(front);
      assert Reachable(s) && Enabled(s, step) && Run(steps) == Next(s, step);
      assert AllAgreed(steps) <==>
        || step.Kick? || step.Rotate?
        || (AllAgreed(front) && (step.Vote? ==> LastFound(front, step.pid) == PublishedTarget(front)));
      VotersOnce(s);
      if step.Vote? {
        VoteFavourableIffSameTarget(front, step.pid);
      } else {
        OtherStepsKeepUnanimity(s, step);
      }
      hide Legal, Run, Reachable, Next, AllAgreed, LastFound, PublishedTarget;
    }
  }

  /** Hence the acceptance test of line 313 succeeds exactly then. */
  lemma AcceptedIff(steps: seq<Step>, p: int)
    requires Legal(steps) && Enabled(Run(steps), Judge(p))
    ensures Next(Run(steps), Judge(p)).procs[p].phase == (if AllAgreed(steps) then Awarding else Rotating)
  {
    UnanimousIff(steps);
    hide Legal, Run, AllAgreed;
  }
}
