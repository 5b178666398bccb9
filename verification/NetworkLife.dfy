/** The life of the shared memory: until when another miner can come, and until when the mutex
    exists. */
module NetworkLife {
  import opened MinerTable
  import opened Network
  import opened NetworkRegistry

  // ---------------------------------------------------------------- the name

  /** The step removes the name of the shared memory: a process that leaves does so, one that
      is aborted in its wait, and one that is turned away because a hundred are registered. */
  predicate RemovesName(s: Net, step: Step) {
    step.Leave? || step.Abort? || (step.Admit? && s.procs != map[] && |s.sys.miners| == 100)
  }

  predicate NameRemoved(steps: seq<Step>)
    requires Legal(steps)
    decreases |steps|
  {
    steps != [] &&
    var front, step := steps[..|steps| - 1], steps[|steps| - 1];
    NameRemoved(front) || RemovesName(Run(front), step)
  }

  ghost predicate NameKnown(s: Net, removed: bool) {
    if s.procs == map[] then !removed else s.named == !removed
  }

  lemma NextName(s: Net, step: Step, removed: bool)
    requires Registry(s) && Enabled(s, step) && NameKnown(s, removed)
    ensures NameKnown(Next(s, step), removed || RemovesName(s, step))
  {
    hide Registry, OwnNext, OthersNext, SysNext, CleanNext, PublisherNext;
    if step.Admit? {
      AdmissionFrame(s, step);
    } else {
      StepIsOnePidsStep(s, step);
    }
  }

  lemma {:induction false} RunName(steps: seq<Step>)
    requires Legal(steps)
    ensures NameKnown(Run(steps), NameRemoved(steps))
  {
    if steps != [] {
      hide Legal, Run, Reachable, Enabled, Next, Registry, RemovesName, NameKnown;
      LastStep(steps);
      RunRegistry(steps[..|steps| - 1]);
      RunName(steps[..|steps| - 1]);
      NextName(Run(steps[..|steps| - 1]), steps[|steps| - 1], NameRemoved(steps[..|steps| - 1]));
    }
  }

  /** Who can come, exactly: a new process with one to nine threads, as long as no process has
      left, was aborted or was turned away. Afterwards nobody joins this network any more. */
  lemma CanComeIff(steps: seq<Step>, p: int, threads: int)
    requires Legal(steps)
    ensures Enabled(Run(steps), Admit(p, threads))
       <==> p !in Run(steps).procs && 1 <= threads <= 9 && !NameRemoved(steps)
  {
    RunName(steps);
    hide Legal, Run, NameRemoved;
  }

  /** And whoever has come searches, in every round, with the number of threads it came with. */
  lemma {:induction false} ThreadsAsAsked(steps: seq<Step>, p: int)
    requires Legal(steps) && p in Run(steps).procs
    ensures Admit(p, Run(steps).procs[p].threads) in steps
  {
    LastStep(steps);
    var front, step := steps[..|steps| - 1], steps[|steps| - 1];
    if p in Run(front).procs {
      ThreadsAsAsked(front, p);
    }
    hide Legal, Run, Reachable;
    if step.Admit? {
      AdmissionFrame(Run(front), step);
    } else {
      StepIsOnePidsStep(Run(front), step);
      OwnFrame(Run(front), step);
      hide Next, OwnNext;
    }
  }

  /** Who is over, exactly: a process takes no further step, not even for a signal, if and only
      if it has deleted itself, was aborted in its wait, or would have written past the table. */
  lemma OverIff(s: Net, p: int)
    requires p in s.procs
    ensures s.procs[p].phase in {Gone, Aborted, Overran}
       <==> forall step :: Enabled(s, step) ==> step.pid != p
  {
    if s.procs[p].phase !in {Gone, Aborted, Overran} {
      assert Enabled(s, Signal(p));
    }
  }

  // ---------------------------------------------------------------- the mutex

  /** No process but p is registered. */
  ghost predicate OnlyMiner(s: Net, p: int) {
    forall q :: q in s.procs && Registered(s.procs[q].phase) ==> q == p
  }

  /** Some process left as the only registered one. */
  ghost predicate LastHasLeft(steps: seq<Step>)
    requires Legal(steps)
    decreases |steps|
  {
    steps != [] &&
    var front, step := steps[..|steps| - 1], steps[|steps| - 1];
    LastHasLeft(front) || (step.Leave? && OnlyMiner(Run(front), step.pid))
  }

  lemma OnlyMinerIff(s: Net, p: int)
    requires Registry(s) && Enabled(s, Step.Leave(p))
    ensures OnlyMiner(s, p) <==> |s.sys.miners| == 1
  {
    TableMembers(s);
    hide Registry;
    assert Has(s.sys.miners, p);
    if |s.sys.miners| > 1 {
      assert Has(s.sys.miners, s.sys.miners[0].pid) && Has(s.sys.miners, s.sys.miners[1].pid);
    }
  }

  lemma {:induction false} RunMutex(steps: seq<Step>)
    requires Legal(steps)
    ensures Run(steps).mutexAlive <==> !LastHasLeft(steps)
  {
    if steps != [] {
      hide Legal, Run, Reachable, Registry, OnlyMiner, OwnNext, OthersNext, SysNext, CleanNext, PublisherNext;
      LastStep(steps);
      var front, step := steps[..|steps| - 1], steps[|steps| - 1];
      RunRegistry(front);
      RunMutex(front);
      if step.Leave? {
        OnlyMinerIff(Run(front), step.pid);
      }
    }
  }

  /** Until when the mutex exists, exactly: until a process leaves as the only registered one.
      From then on no region under the mutex is entered any more. */
  lemma MutexEndsIff(steps: seq<Step>)
    requires Legal(steps)
    ensures Run(steps).mutexAlive <==> !LastHasLeft(steps)
    ensures LastHasLeft(steps) ==> forall step :: Enabled(Run(steps), step) ==> !NeedsMutex(step)
  {
    hide Legal, Run, LastHasLeft, Enabled;
    RunMutex(steps);
    if LastHasLeft(steps) {
      forall step | Enabled(Run(steps), step) ensures !NeedsMutex(step) {
        NoRegion(Run(steps), step);
      }
    }
  }

  predicate NeedsMutex(step: Step) {
    step.Register? || step.Kick? || step.Join? || step.Publish? || step.Rotate? || step.Vote? || step.Leave?
  }

  lemma NoRegion(s: Net, step: Step)
    requires !s.mutexAlive && Enabled(s, step)
    ensures !NeedsMutex(step)
  {
  }
}
