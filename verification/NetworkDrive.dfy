/** Whether a run can ever begin another round. All sleepers wait for that: nobody but the
    process that starts the first round, or a winner that rotates a block, wakes them. */
module NetworkDrive {
  import opened ParallelSearch
  import opened Pow
  import opened MinerTable
  import opened Counting
  import opened Network
  import opened NetworkRegistry
  import opened NetworkRounds
  import opened NetworkVotes
  import opened NetworkProgress
  import opened NetworkSleep

  /** The step begins a round. */
  predicate Begins(step: Step) { step.Rotate? || step.Kick? }

  /** A process that can come to begin a round by itself: one that mines and has not been told
      of a solution, or is on its way there or to its rotation; or the first miner before it
      has started the first round, as long as the mutex exists. */
  predicate Drives(s: Net, p: int) {
    p in s.procs &&
    var pr := s.procs[p];
    || (pr.phase.Admitted? && pr.first && s.mutexAlive)
    || pr.phase.Starting?
    || (pr.phase.LoopTop? && !pr.shutdown) || pr.phase.Ready? || pr.phase.Informed?
    || ((pr.phase.Mining? || pr.phase.Mined?) && !pr.usr2)
    || pr.phase.Winning? || InWinnerBranch(pr.phase)
  }

  /** Some process drives the network, or none has come yet. */
  ghost predicate Driven(s: Net) {
    s.procs == map[] || exists p :: Drives(s, p)
  }

  // ---------------------------------------------------------------- once nobody drives

  lemma NoBeginning(s: Net, step: Step)
    requires Enabled(s, step) && !Driven(s)
    ensures !Begins(step)
  {
    assert step.pid in s.procs ==> !Drives(s, step.pid);
  }

  /** The step's own process does not become a driver. */
  lemma OwnStaysIdle(s: Net, step: Step)
    requires Enabled(s, step) && !step.Admit? && !Drives(s, step.pid)
    ensures !Drives(Next(s, step), step.pid)
  {
    assert Next(s, step).procs[step.pid] == OwnNext(s, step);
    assert Next(s, step).mutexAlive ==> s.mutexAlive;
    hide Next;
  }

  lemma OtherStaysIdle(s: Net, step: Step, q: int)
    requires Enabled(s, step) && !step.Admit? && !Begins(step) && !Drives(s, q) && q != step.pid
    ensures !Drives(Next(s, step), q)
  {
    assert Next(s, step).mutexAlive ==> s.mutexAlive;
    StepIsOnePidsStep(s, step);
    if q in s.procs {
      OtherKeepsPhase(s, step, q);
    }
    hide Next;
  }

  /** Only the beginning of a round, and its own steps, take a process to another phase. */
  lemma OtherKeepsPhase(s: Net, step: Step, q: int)
    requires Enabled(s, step) && !step.Admit? && !Begins(step) && q in s.procs && q != step.pid
    ensures q in Next(s, step).procs
    ensures Next(s, step).procs[q] == s.procs[q].(usr2 := Next(s, step).procs[q].usr2)
    ensures s.procs[q].usr2 ==> Next(s, step).procs[q].usr2
  {
    hide SysNext, CleanNext, PublisherNext, OwnNext;
  }

  lemma StaysIdle(s: Net, step: Step)
    requires Enabled(s, step) && !Driven(s)
    ensures !Driven(Next(s, step))
  {
    NoBeginning(s, step);
    if step.Admit? {
      AdmittedIdle(s, step);
    } else {
      StepIsOnePidsStep(s, step);
      hide Next, Enabled, Drives;
      forall q ensures !Drives(Next(s, step), q) {
        if q == step.pid {
          OwnStaysIdle(s, step);
        } else {
          OtherStaysIdle(s, step, q);
        }
      }
    }
  }

  /** Whoever comes later is not the first miner. */
  lemma AdmittedIdle(s: Net, step: Step)
    requires Enabled(s, step) && step.Admit? && !Driven(s)
    ensures !Driven(Next(s, step))
  {
    AdmissionFrame(s, step);
    assert s.procs != map[];
    assert Next(s, step).procs != s.procs ==> !Next(s, step).procs[step.pid].first;
    hide Next;
    forall q ensures !Drives(Next(s, step), q) {
      assert !Drives(s, q);
    }
  }

  lemma {:induction false} IdleForEver(steps: seq<Step>, more: seq<Step>)
    requires Legal(steps) && Legal(steps + more) && !Driven(Run(steps))
    ensures !Driven(Run(steps + more)) && forall i :: 0 <= i < |more| ==> !Begins(more[i])
    decreases |more|
  {
    hide Legal, Run, Reachable, Enabled, Next, Driven, Begins;
    if more == [] {
      assert steps + more == steps;
    } else {
      var l := |more| - 1;
      LastStep(steps + more);
      assert (steps + more)[..|steps + more| - 1] == steps + more[..l];
      IdleForEver(steps, more[..l]);
      NoBeginning(Run(steps + more[..l]), more[l]);
      StaysIdle(Run(steps + more[..l]), more[l]);
    }
  }

  // ---------------------------------------------------------------- what the drivers rely on

  /** Nobody is aborted before the first round, and before anyone has come the mutex is there. */
  ghost predicate Orderly(s: Net) {
    && (s.procs == map[] ==> s.mutexAlive)
    && (forall p :: p in s.procs && s.procs[p].phase.Aborted? ==> s.started)
  }

  lemma NextOrderly(s: Net, step: Step)
    requires Rounds(s) && Orderly(s) && Enabled(s, step)
    ensures Orderly(Next(s, step))
  {
    var s' := Next(s, step);
    if step.Admit? {
      AdmissionFrame(s, step);
      hide Next;
    } else {
      StepIsOnePidsStep(s, step);
      assert s'.procs[step.pid] == OwnNext(s, step) && (s.started ==> s'.started);
      assert Timely(s.Round(), s.started, s.roster, step.pid, s.procs[step.pid]);
      assert OwnNext(s, step).phase.Aborted? ==> s.started;
      hide Next, OwnNext, Rounds, Timely;
      forall p | p in s'.procs && s'.procs[p].phase.Aborted? ensures s'.started {
        assert p != step.pid ==> Similar(s.procs[p], s'.procs[p]);
      }
    }
  }

  lemma {:induction false} RunOrderly(steps: seq<Step>)
    requires Legal(steps)
    ensures Orderly(Run(steps))
  {
    if steps != [] {
      hide Legal, Run, Reachable, Enabled, Next, Rounds, Orderly;
      LastStep(steps);
      RunRounds(steps[..|steps| - 1]);
      RunOrderly(steps[..|steps| - 1]);
      NextOrderly(Run(steps[..|steps| - 1]), steps[|steps| - 1]);
    }
  }

  ghost predicate Known(s: Net) {
    && Registry(s) && Rounds(s) && Patient(s) && Orderly(s)
    && (forall p :: p in s.procs && (s.procs[p].phase.Ready? || s.procs[p].phase.Informed?) ==> !s.procs[p].usr2)
  }

  lemma RunKnown(steps: seq<Step>)
    requires Legal(steps)
    ensures Known(Run(steps))
  {
    hide Legal, Run, Registry, Rounds, Patient, Orderly, Attended;
    RunRegistry(steps);
    RunRounds(steps);
    RunProgress(steps);
    RunOrderly(steps);
    RunAgreement(steps);
    forall p | p in Run(steps).procs && (Run(steps).procs[p].phase.Ready? || Run(steps).procs[p].phase.Informed?)
      ensures !Run(steps).procs[p].usr2
    {
      assert Honest(Run(steps), Run(steps).procs[p]);
    }
  }

  /** The mutex exists while a registered process does. */
  lemma MutexThere(s: Net, p: int)
    requires Known(s) && p in s.procs && Registered(s.procs[p].phase)
    ensures s.mutexAlive
  {
    TableMembers(s);
    assert Has(s.sys.miners, p);
    hide Registry, Rounds, Orderly;
  }

  // ---------------------------------------------------------------- the way to the winner branch

  /** The next step of a driver that mines or is about to. */
  function Ahead(ph: Phase): nat {
    if ph.LoopTop? then 6 else if ph.Ready? then 5 else if ph.Informed? then 4 else if ph.Mining? then 3
    else if ph.Mined? then 2 else if ph.Winning? then 1 else 0
  }

  lemma NextAhead(s: Net, p: int) returns (step: Step)
    requires Known(s) && Drives(s, p) && Ahead(s.procs[p].phase) > 0
    ensures Enabled(s, step) && step.pid == p && !step.Signal?
    ensures Drives(Next(s, step), p) && Ahead(Next(s, step).procs[p].phase) < Ahead(s.procs[p].phase)
    ensures Ahead(Next(s, step).procs[p].phase) > 0 || InWinnerBranch(Next(s, step).procs[p].phase)
  {
    MutexThere(s, p);
    assert Timely(s.Round(), s.started, s.roster, p, s.procs[p]);
    hide Registry, Rounds, Patient, Orderly;
    var pr := s.procs[p];
    if pr.phase.Mining? {
      step := MinesOn(s, p);
    } else {
      step := if pr.phase.LoopTop? then Step.Top(p) else if pr.phase.Ready? then Read(p)
              else if pr.phase.Informed? then Step.Join(p) else if pr.phase.Mined? then Decide(p) else Step.Publish(p);
    }
    MovesAhead(s, step);
  }

  lemma MinesOn(s: Net, p: int) returns (step: Step)
    requires p in s.procs && s.procs[p].phase.Mining? && s.procs[p].threads >= 1
    ensures Enabled(s, step) && step.pid == p && step.Mine?
  {
    var pr := s.procs[p];
    HashIsGood();
    var schedule := CanFinish(SearchFor(pr), Cell(0, pr.solution), []);
    assert [] + schedule == schedule;
    step := Mine(p, schedule);
  }

  lemma MovesAhead(s: Net, step: Step)
    requires Enabled(s, step) && Drives(s, step.pid)
    requires step.Top? || step.Read? || step.Join? || step.Mine? || step.Decide? || step.Publish?
    requires step.Join? ==> !s.procs[step.pid].usr2
    ensures Drives(Next(s, step), step.pid)
    ensures Ahead(Next(s, step).procs[step.pid].phase) < Ahead(s.procs[step.pid].phase)
    ensures Ahead(Next(s, step).procs[step.pid].phase) > 0 || InWinnerBranch(Next(s, step).procs[step.pid].phase)
  {
    assert Next(s, step).procs[step.pid] == OwnNext(s, step);
    hide Next, Covers;
  }

  /** A continuation that begins a round with its last step, and sends q no signal of its own. */
  ghost predicate BeginsAtLast(steps: seq<Step>, more: seq<Step>, q: int) {
    && |more| > 0 && Legal(steps + more) && Begins(more[|more| - 1])
    && forall i :: 0 <= i < |more| ==> more[i] != Signal(q)
  }

  lemma Prepend(steps: seq<Step>, step: Step, rest: seq<Step>, q: int)
    requires BeginsAtLast(steps + [step], rest, q) && step != Signal(q)
    ensures BeginsAtLast(steps, [step] + rest, q)
  {
    hide Legal, Begins;
    var more := [step] + rest;
    assert steps + more == steps + [step] + rest;
    assert more[|more| - 1] == rest[|rest| - 1];
  }

  /** A driver that mines, or is about to, comes to rotate a block. */
  lemma {:induction false} MinerBegins(steps: seq<Step>, p: int, q: int) returns (more: seq<Step>)
    requires Legal(steps) && p in Run(steps).procs && q != p
    requires var ph := Run(steps).procs[p].phase; InWinnerBranch(ph) || (Ahead(ph) > 0 && Drives(Run(steps), p))
    ensures BeginsAtLast(steps, more, q)
    decreases Ahead(Run(steps).procs[p].phase)
  {
    hide Legal, Run, Drives, Ahead, Enabled, Next, InWinnerBranch;
    if InWinnerBranch(Run(steps).procs[p].phase) {
      more := WinnerCanRotate(steps, p);
    } else {
      RunKnown(steps);
      var step := NextAhead(Run(steps), p);
      Extend(steps, step);
      StillThere(Run(steps), step, p);
      var rest := MinerBegins(steps + [step], p, q);
      Prepend(steps, step, rest, q);
      more := [step] + rest;
    }
  }

  lemma StillThere(s: Net, step: Step, p: int)
    requires Enabled(s, step) && Drives(Next(s, step), p)
    ensures p in Next(s, step).procs
  {
  }

  // ---------------------------------------------------------------- the first miner

  predicate IsFounder(s: Net, p: int) {
    p in s.procs && s.procs[p].first && ((s.procs[p].phase.Admitted? && s.mutexAlive) || s.procs[p].phase.Starting?)
  }

  /** A registered process before the first round: how far it is from leaving. */
  function Stay(ph: Phase): nat {
    if ph.Arriving? then 4 else if ph.Waiting? then 3 else if ph.LoopTop? then 2 else if ph.Leaving? then 1 else 0
  }

  /** Before the first round a registered process other than the first miner can only leave. */
  lemma OnlyLeaves(s: Net, p: int, v: int)
    requires Known(s) && IsFounder(s, p) && v in s.procs && v != p && Registered(s.procs[v].phase)
    ensures Stay(s.procs[v].phase) > 0 && (s.procs[v].phase.LoopTop? ==> s.procs[v].shutdown)
  {
    assert Timely(s.Round(), s.started, s.roster, p, s.procs[p]);
    assert Timely(s.Round(), s.started, s.roster, v, s.procs[v]);
    hide Registry, Patient;
  }

  function NextToLeave(ph: Phase, v: int): Step {
    if ph.Arriving? then Pause(v) else if ph.Waiting? then Signal(v) else if ph.LoopTop? then Step.Top(v)
        else Step.Leave(v)
  }

  /** Its next step brings it closer to leaving, or makes room in the table. */
  lemma LeavesStep(s: Net, p: int, v: int)
    requires Known(s) && IsFounder(s, p) && v in s.procs && v != p && Registered(s.procs[v].phase)
    requires s.procs[p].phase.Admitted? && !HasRoom(s)
    ensures var step := NextToLeave(s.procs[v].phase, v);
      && Enabled(s, step) && IsFounder(Next(s, step), p) && Next(s, step).procs[p].phase.Admitted?
      && (HasRoom(Next(s, step))
          || (v in Next(s, step).procs && Registered(Next(s, step).procs[v].phase)
              && Stay(Next(s, step).procs[v].phase) < Stay(s.procs[v].phase)))
  {
    OnlyLeaves(s, p, v);
    TableMembers(s);
    assert |s.sys.miners| == MAX_MINERS;
    var step := NextToLeave(s.procs[v].phase, v);
    hide Rounds, Patient, Orderly;
    if step.Leave? {
      TableMoves(s, step);
    }
    hide Registry, Deleted;
    FounderKept(s, step, p);
    VictimMoves(s, step);
  }

  lemma FounderKept(s: Net, step: Step, p: int)
    requires Enabled(s, step) && IsFounder(s, p) && s.procs[p].phase.Admitted? && step.pid != p && !step.Admit?
    requires step.Leave? ==> |s.sys.miners| != 1
    ensures IsFounder(Next(s, step), p) && Next(s, step).procs[p].phase.Admitted?
  {
    StepIsOnePidsStep(s, step);
    assert Similar(s.procs[p], Next(s, step).procs[p]);
    assert Next(s, step).mutexAlive;
    hide Next;
  }

  lemma VictimMoves(s: Net, step: Step)
    requires Enabled(s, step) && (step.Pause? || step.Signal? || step.Top? || step.Leave?)
    requires Stay(s.procs[step.pid].phase) > 0 && step == NextToLeave(s.procs[step.pid].phase, step.pid)
    requires s.procs[step.pid].phase.LoopTop? ==> s.procs[step.pid].shutdown
    ensures step.pid in Next(s, step).procs
    ensures !step.Leave? ==> Registered(Next(s, step).procs[step.pid].phase)
    ensures !step.Leave? ==> Stay(Next(s, step).procs[step.pid].phase) < Stay(s.procs[step.pid].phase)
  {
    assert Next(s, step).procs[step.pid] == OwnNext(s, step);
    hide Next;
  }

  /** A registered process other than the first miner and q, in a full table. */
  lemma Victim(s: Net, p: int, q: int) returns (v: int)
    requires Known(s) && IsFounder(s, p) && s.procs[p].phase.Admitted? && !HasRoom(s)
    ensures v in s.procs && v != p && v != q && Registered(s.procs[v].phase)
  {
    TableMembers(s);
    hide Registry, Rounds, Patient, Orderly;
    var a, b := s.sys.miners[0].pid, s.sys.miners[1].pid;
    assert Has(s.sys.miners, a) && Has(s.sys.miners, b) && a != b;
    v := if a != q then a else b;
  }

  /** In a full table the first miner waits for one of the others to leave. */
  lemma {:induction false} FounderWaits(steps: seq<Step>, p: int, v: int, q: int) returns (more: seq<Step>)
    requires Legal(steps) && IsFounder(Run(steps), p) && Run(steps).procs[p].phase.Admitted? && q != p
    requires HasRoom(Run(steps)) || (v in Run(steps).procs && v != p && v != q && Registered(Run(steps).procs[v].phase))
    ensures BeginsAtLast(steps, more, q)
    decreases One(!HasRoom(Run(steps))), if v in Run(steps).procs then Stay(Run(steps).procs[v].phase) else 0
  {
    hide Legal, Run, Enabled, Next, Stay, HasRoom, IsFounder, Registered;
    if HasRoom(Run(steps)) {
      more := FounderRegisters(steps, p, q);
    } else {
      RunKnown(steps);
      LeavesStep(Run(steps), p, v);
      var step := NextToLeave(Run(steps).procs[v].phase, v);
      Extend(steps, step);
      var rest := FounderWaits(steps + [step], p, v, q);
      Prepend(steps, step, rest, q);
      more := [step] + rest;
    }
  }

  lemma FounderRegisters(steps: seq<Step>, p: int, q: int) returns (more: seq<Step>)
    requires Legal(steps) && IsFounder(Run(steps), p) && Run(steps).procs[p].phase.Admitted? && HasRoom(Run(steps))
        && q != p
    ensures BeginsAtLast(steps, more, q)
  {
    hide Legal, Run;
    var step := Step.Register(p);
    Extend(steps, step);
    assert IsFounder(Next(Run(steps), step), p) && Next(Run(steps), step).procs[p].phase.Starting?;
    hide Next, IsFounder;
    var rest := FounderStarts(steps + [step], p, q);
    Prepend(steps, step, rest, q);
    more := [step] + rest;
  }

  lemma FounderStarts(steps: seq<Step>, p: int, q: int) returns (more: seq<Step>)
    requires Legal(steps) && p in Run(steps).procs && Run(steps).procs[p].phase.Starting? && q != p
    ensures BeginsAtLast(steps, more, q)
  {
    hide Legal, Run, Next;
    RunKnown(steps);
    MutexThere(Run(steps), p);
    Extend(steps, Kick(p));
    more := [Kick(p)];
  }

  lemma FounderBegins(steps: seq<Step>, p: int, q: int) returns (more: seq<Step>)
    requires Legal(steps) && IsFounder(Run(steps), p) && q != p
    ensures BeginsAtLast(steps, more, q)
  {
    hide Legal, Run, HasRoom, Registered;
    if Run(steps).procs[p].phase.Starting? {
      more := FounderStarts(steps, p, q);
    } else {
      var v := p;
      if !HasRoom(Run(steps)) {
        RunKnown(steps);
        v := Victim(Run(steps), p, q);
      }
      more := FounderWaits(steps, p, v, q);
    }
  }

  /** Nobody has come yet: the next to come is the first miner. */
  lemma SomeoneComes(steps: seq<Step>, q: int) returns (more: seq<Step>)
    requires Legal(steps) && Run(steps).procs == map[]
    ensures BeginsAtLast(steps, more, q)
  {
    hide Legal, Run;
    RunKnown(steps);
    var p := q + 1;
    var step := Admit(p, 1);
    Extend(steps, step);
    assert IsFounder(Next(Run(steps), step), p);
    hide Next, IsFounder, Known;
    var rest := FounderBegins(steps + [step], p, q);
    Prepend(steps, step, rest, q);
    more := [step] + rest;
  }

  // ---------------------------------------------------------------- main results

  /** A driven network can begin a round without any signal to a given process that does not
      drive it itself. */
  lemma DrivenBegins(steps: seq<Step>, q: int) returns (more: seq<Step>)
    requires Legal(steps) && Driven(Run(steps)) && !Drives(Run(steps), q)
    ensures BeginsAtLast(steps, more, q)
  {
    var s := Run(steps);
    if s.procs == map[] {
      more := SomeoneComes(steps, q);
    } else {
      var p :| Drives(s, p);
      DriversKinds(steps, p);
      hide Legal, Run, Drives;
      if IsFounder(s, p) {
        more := FounderBegins(steps, p, q);
      } else {
        more := MinerBegins(steps, p, q);
      }
    }
  }

  lemma DriversKinds(steps: seq<Step>, p: int)
    requires Legal(steps) && Drives(Run(steps), p)
    ensures p in Run(steps).procs
    ensures IsFounder(Run(steps), p) || InWinnerBranch(Run(steps).procs[p].phase)
        || Ahead(Run(steps).procs[p].phase) > 0
  {
    RunRounds(steps);
    var s := Run(steps);
    assert Timely(s.Round(), s.started, s.roster, p, s.procs[p]);
    hide Legal, Run, Rounds;
  }

  /** Whether another round can begin, exactly: some continuation of a run contains a rotation
      or the start of the first round if and only if some process drives the network, or none
      has come yet. */
  lemma RoundCanBeginIff(steps: seq<Step>)
    requires Legal(steps)
    ensures (exists more, i :: Legal(steps + more) && 0 <= i < |more| && Begins(more[i])) <==> Driven(Run(steps))
  {
    var s := Run(steps);
    if Driven(s) {
      var q := Above(s.procs.Keys);
      var more := DrivenBegins(steps, q);
      assert Legal(steps + more) && Begins(more[|more| - 1]);
    } else {
      forall more, i | Legal(steps + more) && 0 <= i < |more| ensures !Begins(more[i]) {
        IdleForEver(steps, more);
      }
    }
  }

  /** Whether a sleeper can still be woken, exactly: some continuation wakes it without a signal
      of its own if and only if some process drives the network. */
  lemma SleeperCanBeWokenIff(steps: seq<Step>, q: int)
    requires Legal(steps) && Sleeps(Run(steps), q)
    ensures (exists more :: Legal(steps + more) && Signal(q) !in more && !Sleeps(Run(steps + more), q))
       <==> exists p :: Drives(Run(steps), p)
  {
    if p :| Drives(Run(steps), p) {
      assert !Drives(Run(steps), q);
      var more := DrivenBegins(steps, q);
      BeginningWakes(steps, more, q);
      assert Signal(q) !in more;
    } else {
      forall more | Legal(steps + more) && Signal(q) !in more ensures Sleeps(Run(steps + more), q) {
        IdleSleeps(steps, more, q);
      }
    }
  }

  /** The step that begins a round leaves nobody asleep. */
  lemma BeginningWakes(steps: seq<Step>, more: seq<Step>, q: int)
    requires |more| > 0 && Legal(steps + more) && Begins(more[|more| - 1])
    ensures !Sleeps(Run(steps + more), q)
  {
    hide Legal, Run, Reachable, Enabled, Next, Sleeps;
    LastStep(steps + more);
    var front := (steps + more)[..|steps + more| - 1];
    if Sleeps(Run(front), q) {
      WokenExactlyBy(Run(front), more[|more| - 1], q);
    } else {
      StaysAwake(Run(front), more[|more| - 1], q);
    }
  }

  lemma IdleSleeps(steps: seq<Step>, more: seq<Step>, q: int)
    requires Legal(steps) && Legal(steps + more) && Signal(q) !in more && Sleeps(Run(steps), q) && !Driven(Run(steps))
    ensures Sleeps(Run(steps + more), q)
  {
    hide Legal, Run, Driven, Sleeps;
    var all := steps + more;
    IdleForEver(steps, more);
    assert all[..|steps|] == steps && all[..|all|] == all;
    forall i | |steps| <= i < |all| ensures !Wakes(all[i], q) {
      assert all[i] == more[i - |steps|];
    }
    SleepsOnIff(all, |steps|, |all|, q);
    assert SleepsAt(all, |all|, q);
  }
}
