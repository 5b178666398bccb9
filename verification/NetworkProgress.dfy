/** A round in which a solution was published is not forgotten: some winner attends to it until
    it rotates the block, or is aborted. */
module NetworkProgress {
  import opened MinerTable
  import opened Network
  import opened NetworkRegistry

  /** Between its publication and its rotation. */
  predicate InWinnerBranch(ph: Phase) {
    ph.Counting? || ph.Judging? || ph.Awarding? || ph.Rotating?
  }

  /** Published in the round that is under way. */
  predicate Attends(s: Net, p: int) {
    p in s.procs && s.procs[p].votedAt == s.Round() && (InWinnerBranch(s.procs[p].phase) || s.procs[p].phase.Aborted?)
  }

  ghost predicate Attended(s: Net) {
    s.publisher != Nobody ==> exists p :: Attends(s, p)
  }

  lemma StillAttends(s: Net, step: Step, p: int)
    requires Enabled(s, step) && !step.Admit? && !step.Rotate? && !step.Kick? && Attends(s, p)
    ensures Attends(Next(s, step), p)
  {
    StepIsOnePidsStep(s, step);
    OwnFrame(s, step);
    if p != step.pid {
      assert Similar(s.procs[p], Next(s, step).procs[p]);
      hide OwnNext, OthersNext, SysNext, CleanNext, PublisherNext;
    }
  }

  lemma NextAttended(s: Net, step: Step)
    requires Attended(s) && Enabled(s, step)
    ensures Attended(Next(s, step))
  {
    if step.Admit? {
      AdmissionFrame(s, step);
      hide Next;
      if p :| Attends(s, p) {
        assert Enabled(s, step) && p != step.pid;
        assert Attends(Next(s, step), p);
      }
    } else if step.Publish? {
      assert Attends(Next(s, step), step.pid);
    } else if !step.Rotate? && !step.Kick? {
      hide OwnNext, OthersNext, SysNext, CleanNext;
      if p :| Attends(s, p) {
        StillAttends(s, step, p);
      }
    }
  }

  /** The mutex exists as long as a miner is registered, and nobody sleeps more than five times. */
  ghost predicate Patient(s: Net) {
    && (s.sys.miners != [] ==> s.mutexAlive)
    && (forall p :: p in s.procs ==> 0 <= s.procs[p].polls <= MAX_POLLS)
  }

  lemma NextPatient(s: Net, step: Step)
    requires Registry(s) && Patient(s) && Enabled(s, step)
    ensures Patient(Next(s, step))
  {
    if step.Admit? {
      AdmissionFrame(s, step);
      hide Next;
    } else {
      MutexOutlives(s, step);
      PollsAreBounded(s, step);
    }
  }

  lemma MutexOutlives(s: Net, step: Step)
    requires Registry(s) && Patient(s) && Enabled(s, step) && !step.Admit?
    ensures Next(s, step).sys.miners != [] ==> Next(s, step).mutexAlive
  {
    if step.Leave? {
      LeaveKeepsRegistry(s, step.pid);
    } else if !step.Register? {
      OwnClass(s, step);
      hide OwnNext, OthersNext, SysNext, CleanNext, PublisherNext;
    }
  }

  lemma PollsAreBounded(s: Net, step: Step)
    requires Patient(s) && Enabled(s, step) && !step.Admit?
    ensures forall p :: p in Next(s, step).procs ==> 0 <= Next(s, step).procs[p].polls <= MAX_POLLS
  {
    var s' := Next(s, step);
    StepIsOnePidsStep(s, step);
    assert s'.procs[step.pid] == OwnNext(s, step) && 0 <= OwnNext(s, step).polls <= MAX_POLLS;
    hide Next, OwnNext;
    forall p | p in s'.procs ensures 0 <= s'.procs[p].polls <= MAX_POLLS {
      assert p != step.pid ==> Similar(s.procs[p], s'.procs[p]);
    }
  }

  lemma {:induction false} RunProgress(steps: seq<Step>)
    requires Legal(steps)
    ensures Attended(Run(steps)) && Patient(Run(steps))
  {
    if steps != [] {
      RunRegistry(steps[..|steps| - 1]);
      RunProgress(steps[..|steps| - 1]);
      NextAttended(Run(steps[..|steps| - 1]), steps[|steps| - 1]);
      NextPatient(Run(steps[..|steps| - 1]), steps[|steps| - 1]);
    }
  }

  // ---------------------------------------------------------------- main results

  /** In every reachable state in which the current block has been published, one of the
      processes that published it is still in its winner branch, or was aborted in it. */
  lemma PublishedRoundIsAttended(s: Net)
    requires Reachable(s) && s.publisher != Nobody
    ensures exists p :: Attends(s, p)
  {
    var steps :| Legal(steps) && s == Run(steps);
    RunProgress(steps);
  }

  /** The next step of a process in its winner branch. */
  function NextInWinnerBranch(ph: Phase, p: int): Step
    requires InWinnerBranch(ph)
  {
    if ph.Counting? then Poll(p) else if ph.Judging? then Judge(p) else if ph.Awarding? then Step.Award(p)
        else Step.Rotate(p)
  }

  function StepsLeft(pr: Proc): int {
    if pr.phase.Counting? then 9 - pr.polls else if pr.phase.Judging? then 3 else if pr.phase.Awarding? then 2 else 1
  }

  lemma WinnerBranchStep(s: Net, p: int)
    requires Registry(s) && Patient(s) && p in s.procs && InWinnerBranch(s.procs[p].phase)
    ensures 1 <= StepsLeft(s.procs[p]) <= 9
    ensures var step := NextInWinnerBranch(s.procs[p].phase, p);
      && Enabled(s, step)
      && (!step.Rotate? ==> p in Next(s, step).procs && InWinnerBranch(Next(s, step).procs[p].phase)
                            && StepsLeft(Next(s, step).procs[p]) < StepsLeft(s.procs[p]))
  {
    assert s.mutexAlive by {
      TableMembers(s);
      assert Has(s.sys.miners, p);
    }
    hide Registry;
    var step := NextInWinnerBranch(s.procs[p].phase, p);
    if !step.Rotate? {
      OwnFrame(s, step);
      StepIsOnePidsStep(s, step);
      hide Next;
    }
  }

  lemma NextOwnStep(steps: seq<Step>, p: int) returns (step: Step)
    requires Legal(steps) && p in Run(steps).procs && InWinnerBranch(Run(steps).procs[p].phase)
    ensures Legal(steps + [step]) && step.pid == p && 1 <= StepsLeft(Run(steps).procs[p]) <= 9
    ensures var s' := Run(steps + [step]);
      step == Step.Rotate(p)
      || (p in s'.procs && InWinnerBranch(s'.procs[p].phase) && StepsLeft(s'.procs[p]) < StepsLeft(Run(steps).procs[p]))
  {
    RunProgress(steps);
    RunRegistry(steps);
    WinnerBranchStep(Run(steps), p);
    step := NextInWinnerBranch(Run(steps).procs[p].phase, p);
    Extend(steps, step);
    hide Legal, Run, Enabled, Next, StepsLeft, Registry, Patient, Attended;
  }

  /** A process in its winner branch needs nobody else: by at most nine steps of its own it can
      rotate the block, whatever votes are missing. */
  lemma {:induction false} WinnerCanRotate(steps: seq<Step>, p: int) returns (more: seq<Step>)
    requires Legal(steps) && p in Run(steps).procs && InWinnerBranch(Run(steps).procs[p].phase)
    ensures Legal(steps + more) && 0 < |more| <= StepsLeft(Run(steps).procs[p]) <= 9
    ensures (forall i :: 0 <= i < |more| ==> more[i].pid == p) && more[|more| - 1] == Step.Rotate(p)
    decreases StepsLeft(Run(steps).procs[p])
  {
    hide Legal, Run, StepsLeft, InWinnerBranch;
    var step := NextOwnStep(steps, p);
    if step == Step.Rotate(p) {
      more := [step];
    } else {
      var rest := WinnerCanRotate(steps + [step], p);
      more := [step] + rest;
      assert steps + more == steps + [step] + rest;
    }
  }

  /** So a published round can always still end, unless a process that published in it was
      aborted: the losers who sleep are not abandoned. */
  lemma PublishedRoundCanEnd(steps: seq<Step>)
    requires Legal(steps) && Run(steps).publisher != Nobody
    ensures || (exists p :: Attends(Run(steps), p) && Run(steps).procs[p].phase.Aborted?)
            || (exists more, p :: Legal(steps + more) && |more| > 0 && more[|more| - 1] == Step.Rotate(p))
  {
    RunProgress(steps);
    var p :| Attends(Run(steps), p);
    if InWinnerBranch(Run(steps).procs[p].phase) {
      var more := WinnerCanRotate(steps, p);
    }
  }
}
