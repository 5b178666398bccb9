/** Who wakes a suspended miner. `sigsuspend` is entered twice: before the first round
    (Waiting) and after a vote (Suspended); the results hold for both. */
module NetworkSleep {
  import opened MinerSystem
  import opened Network
  import opened NetworkRegistry
  import opened NetworkRounds

  /** The steps that send SIGUSR1 to the registered processes, and the process's own signals. */
  predicate Wakes(step: Step, q: int) {
    step.Rotate? || step.Kick? || step == Signal(q)
  }

  predicate Sleeps(s: Net, q: int) {
    q in s.procs && (s.procs[q].phase.Waiting? || s.procs[q].phase.Suspended?)
  }

  /** One step, exactly: a sleeper is woken by a rotation, by the start of the first round and
      by its own SIGINT or SIGALRM, and by nothing else; otherwise it sleeps on where it was. */
  lemma WokenExactlyBy(s: Net, step: Step, q: int)
    requires Reachable(s) && Enabled(s, step) && Sleeps(s, q)
    ensures Sleeps(Next(s, step), q) <==> !Wakes(step, q)
    ensures Sleeps(Next(s, step), q) ==> Next(s, step).procs[q].phase == s.procs[q].phase
  {
    hide Reachable, Rounds, Counts, Next, Enabled, Others;
    SleeperNext(s, step, q);
    if step.Rotate? || step.Kick? {
      SleeperIsSignalled(s, step, q);
    }
  }

  /** The kill loop reaches every sleeper: it is registered, and not the sender. */
  lemma SleeperIsSignalled(s: Net, step: Step, q: int)
    requires Reachable(s) && Enabled(s, step) && Sleeps(s, q) && (step.Rotate? || step.Kick?)
    ensures q in Others(s.sys.miners, step.pid)
  {
    hide Reachable, Registry, Rounds, Counts, Others;
    ReachableFacts(s);
    TableMembers(s);
    OthersAre(s.sys.miners, step.pid, q);
  }

  /** The process sleeps at the i-th state of the schedule. */
  ghost predicate SleepsAt(steps: seq<Step>, i: nat, q: int)
    requires i <= |steps|
  {
    Legal(steps[..i]) && Sleeps(Run(steps[..i]), q)
  }

  lemma SleepsAtStep(steps: seq<Step>, i: nat, q: int)
    requires Legal(steps) && i < |steps| && SleepsAt(steps, i, q)
    ensures SleepsAt(steps, i + 1, q) <==> !Wakes(steps[i], q)
  {
    hide Legal, Run, Reachable, Sleeps, Wakes, Enabled, Next;
    RunStep(steps, i);
    WokenExactlyBy(Run(steps[..i]), steps[i], q);
  }

  /** Whole schedules, exactly: a process that sleeps at the k-th state sleeps at all later
      ones, up to the m-th, if and only if no step in between is a rotation, the start of the
      first round, or a signal to the process itself. */
  lemma {:induction false} SleepsOnIff(steps: seq<Step>, k: nat, m: nat, q: int)
    requires Legal(steps) && k <= m <= |steps| && SleepsAt(steps, k, q)
    ensures (forall i :: k <= i <= m ==> SleepsAt(steps, i, q))
       <==> (forall i :: k <= i < m ==> !Wakes(steps[i], q))
    decreases m
  {
    hide Legal, SleepsAt, Wakes;
    if k < m {
      SleepsOnIff(steps, k, m - 1, q);
      if SleepsAt(steps, m - 1, q) {
        SleepsAtStep(steps, m - 1, q);
      }
    }
  }

  /** A rotation leaves nobody asleep: neither those who voted nor those who wait for their
      first round, nor the losers of earlier rounds. */
  lemma RotationWakesEveryone(s: Net, p: int)
    requires Reachable(s) && Enabled(s, Step.Rotate(p))
    ensures forall q :: !Sleeps(Next(s, Step.Rotate(p)), q)
  {
    forall q ensures !Sleeps(Next(s, Step.Rotate(p)), q) {
      if Sleeps(s, q) {
        WokenExactlyBy(s, Step.Rotate(p), q);
      } else {
        StaysAwake(s, Step.Rotate(p), q);
      }
    }
  }

  /** Only a process's own `sigsuspend` puts it to sleep. */
  lemma StaysAwake(s: Net, step: Step, q: int)
    requires Enabled(s, step) && step != Pause(q) && !Sleeps(s, q)
    ensures !Sleeps(Next(s, step), q)
  {
    hide Next, OwnNext;
    var s' := Next(s, step);
    if step.Admit? {
      AdmissionFrame(s, step);
    } else {
      StepIsOnePidsStep(s, step);
      OwnFrame(s, step);
      if q in s'.procs && q != step.pid {
        assert Similar(s.procs[q], s'.procs[q]);
      } else if q == step.pid {
        OwnStaysAwake(s, step);
      }
    }
  }

  lemma OwnStaysAwake(s: Net, step: Step)
    requires Enabled(s, step) && !step.Admit? && !step.Pause? && !Asleep(s.procs[step.pid].phase)
    ensures !Asleep(OwnNext(s, step).phase)
  {
  }
}
