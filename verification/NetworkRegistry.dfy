/** Membership of the miner network: the table in shared memory holds exactly the registered
    and not yet deleted processes, in registration order; and the exact condition under which
    a registration can write past it. */
module NetworkRegistry {
  import opened MinerTable
  import opened Counting
  import opened Network

  /** The registrations, in order, of the processes that have not deleted themselves. */
  function Survivors(log: seq<int>, gone: set<int>): seq<int> {
    if log == [] then []
    else Survivors(log[..|log| - 1], gone) + (if log[|log| - 1] in gone then [] else [log[|log| - 1]])
  }

  predicate Registered(ph: Phase) { !ph.Admitted? && !ph.Overran? && !ph.Gone? }

  ghost predicate Registry(s: Net) {
    && |s.sys.miners| <= MAX_MINERS
    && Pids(s.sys.miners) == Survivors(s.log, s.gone)
    && (forall i, j :: 0 <= i < j < |s.log| ==> s.log[i] != s.log[j])
    && (forall p :: p in s.log <==> p in s.procs && !s.procs[p].phase.Admitted? && !s.procs[p].phase.Overran?)
    && (forall p :: p in s.gone <==> p in s.procs && s.procs[p].phase.Gone?)
  }

  // ---------------------------------------------------------------- survivors

  lemma {:induction false} SurvivorsMembers(log: seq<int>, gone: set<int>, p: int)
    ensures p in Survivors(log, gone) <==> p in log && p !in gone
  {
    if log != [] {
      var l := |log| - 1;
      SurvivorsMembers(log[..l], gone, p);
      assert log == log[..l] + [log[l]];
    }
  }

  lemma {:induction false} SurvivorsDistinct(log: seq<int>, gone: set<int>)
    requires forall i, j :: 0 <= i < j < |log| ==> log[i] != log[j]
    ensures var v := Survivors(log, gone); forall i, j :: 0 <= i < j < |v| ==> v[i] != v[j]
  {
    if log != [] {
      var l := |log| - 1;
      SurvivorsDistinct(log[..l], gone);
      SurvivorsMembers(log[..l], gone, log[l]);
    }
  }

  /** Deleting one survivor from the table is the same as declaring it gone. */
  lemma {:induction false} SurvivorsWithout(log: seq<int>, gone: set<int>, ms: seq<Miner>, p: int)
    requires Pids(ms) == Survivors(log, gone)
    ensures Pids(Without(ms, p)) == Survivors(log, gone + {p})
    decreases |log|
  {
    if log == [] {
      assert |Pids(ms)| == 0;
    } else {
      var l := |log| - 1;
      if log[l] in gone {
        SurvivorsWithout(log[..l], gone, ms, p);
      } else {
        var n := |ms| - 1;
        var front := Survivors(log[..l], gone);
        assert Pids(ms) == front + [log[l]];
        assert |Pids(ms)| == n + 1 && Pids(ms)[n] == ms[n].pid == log[l];
        assert Pids(ms[..n]) == Pids(ms)[..n] == front;
        SurvivorsWithout(log[..l], gone, ms[..n], p);
        assert Without(ms, p) == Without(ms[..n], p) + (if log[l] == p then [] else [ms[n]]);
      }
    }
  }

  // ---------------------------------------------------------------- consequences

  /** Exactly the registered processes are in the table, each once. */
  lemma TableMembers(s: Net)
    requires Registry(s)
    ensures DistinctPids(s.sys.miners)
    ensures forall p :: Has(s.sys.miners, p) <==> p in s.procs && Registered(s.procs[p].phase)
  {
    SurvivorsDistinct(s.log, s.gone);
    assert forall i :: 0 <= i < |s.sys.miners| ==> Pids(s.sys.miners)[i] == s.sys.miners[i].pid;
    forall p ensures Has(s.sys.miners, p) <==> p in s.procs && Registered(s.procs[p].phase) {
      SurvivorsMembers(s.log, s.gone, p);
      assert Has(s.sys.miners, p) <==> p in Pids(s.sys.miners);
    }
  }

  lemma PidSetIs(ms: seq<Miner>)
    ensures forall p :: p in PidSet(ms) <==> Has(ms, p)
  {
  }

  lemma {:induction false} PidSetSize(ms: seq<Miner>)
    ensures |PidSet(ms)| <= |ms|
    ensures DistinctPids(ms) ==> |PidSet(ms)| == |ms|
  {
    if ms == [] {
      assert PidSet(ms) == {};
    } else {
      var l := |ms| - 1;
      PidSetSize(ms[..l]);
      assert PidSet(ms) == PidSet(ms[..l]) + {ms[l].pid} by {
        forall p ensures p in PidSet(ms) <==> p in PidSet(ms[..l]) + {ms[l].pid} {
          if i :| 0 <= i < |ms| && ms[i].pid == p {
            assert i == l || (i < l && ms[..l][i].pid == p);
          }
          if i :| 0 <= i < l && ms[..l][i].pid == p {
            assert ms[i].pid == p;
          }
        }
      }
    }
  }

  // ---------------------------------------------------------------- invariance

  /** The three classes of processes that membership distinguishes. */
  predicate SameClass(a: Proc, b: Proc) {
    && (a.phase.Admitted? <==> b.phase.Admitted?)
    && (a.phase.Overran? <==> b.phase.Overran?)
    && (a.phase.Gone? <==> b.phase.Gone?)
  }

  lemma KeepRegistry(s: Net, s': Net, p: int)
    requires Registry(s) && s'.sys.miners == s.sys.miners && s'.log == s.log && s'.gone == s.gone
    requires OthersSimilar(s.procs, s'.procs, p)
    requires if p in s.procs then SameClass(s.procs[p], s'.procs[p]) else IsAdmitted(s'.procs[p])
    ensures Registry(s')
  {
    forall q ensures q in s'.log <==> q in s'.procs && !s'.procs[q].phase.Admitted? && !s'.procs[q].phase.Overran? {
      assert q in s.procs && q != p ==> Similar(s.procs[q], s'.procs[q]);
    }
    forall q ensures q in s'.gone <==> q in s'.procs && s'.procs[q].phase.Gone? {
      assert q in s.procs && q != p ==> Similar(s.procs[q], s'.procs[q]);
    }
  }

  lemma NextRegistry(s: Net, step: Step)
    requires Registry(s) && Enabled(s, step)
    ensures Registry(Next(s, step))
  {
    if step.Register? {
      RegisterKeepsRegistry(s, step.pid);
    } else if step.Leave? {
      LeaveKeepsRegistry(s, step.pid);
    } else if step.Admit? {
      AdmitKeepsRegistry(s, step);
    } else {
      hide Registry;
      StepIsOnePidsStep(s, step);
      OwnClass(s, step);
      KeepRegistry(s, Next(s, step), step.pid);
    }
  }

  lemma AdmitKeepsRegistry(s: Net, step: Step)
    requires Registry(s) && Enabled(s, step) && step.Admit?
    ensures Registry(Next(s, step))
  {
    if Next(s, step).procs != s.procs {
      StepIsOnePidsStep(s, step);
      KeepRegistry(s, Next(s, step), step.pid);
    }
  }

  /** Only registering and leaving change the table, or the class of the process. */
  lemma OwnClass(s: Net, step: Step)
    requires Enabled(s, step) && !step.Admit? && !step.Register? && !step.Leave?
    ensures var s' := Next(s, step);
      s'.sys.miners == s.sys.miners && s'.log == s.log && s'.gone == s.gone
    ensures SameClass(s.procs[step.pid], Next(s, step).procs[step.pid])
  {
  }

  lemma RegisterKeepsRegistry(s: Net, p: int)
    requires Registry(s) && Enabled(s, Step.Register(p))
    ensures Registry(Next(s, Step.Register(p)))
  {
    var s' := Next(s, Step.Register(p));
    if |s.sys.miners| < MAX_MINERS {
      assert p !in s.log && p !in s.gone;
      assert s'.log[..|s'.log| - 1] == s.log;
      assert Pids(s'.sys.miners) == Pids(s.sys.miners) + [p];
      AddedToRegistry(s, s', p);
    } else {
      OverranIsUnlisted(s, s', p);
    }
  }

  lemma OverranIsUnlisted(s: Net, s': Net, p: int)
    requires Registry(s) && p in s.procs && s.procs[p].phase.Admitted?
    requires p in s'.procs && s'.procs == s.procs[p := s'.procs[p]] && s'.procs[p].phase.Overran?
    requires s'.log == s.log && s'.gone == s.gone && s'.sys == s.sys
    ensures Registry(s')
  {
  }

  lemma AddedToRegistry(s: Net, s': Net, p: int)
    requires Registry(s) && p in s.procs && p !in s.log
    requires s'.log == s.log + [p] && s'.gone == s.gone
    requires p in s'.procs && s'.procs == s.procs[p := s'.procs[p]]
    requires Registered(s'.procs[p].phase)
    requires |s'.sys.miners| <= MAX_MINERS && Pids(s'.sys.miners) == Survivors(s'.log, s'.gone)
    ensures Registry(s')
  {
    forall q ensures q in s'.log <==> q in s'.procs && !s'.procs[q].phase.Admitted? && !s'.procs[q].phase.Overran? {
      assert q in s'.log <==> q in s.log || q == p;
    }
  }

  lemma LeaveKeepsRegistry(s: Net, p: int)
    requires Registry(s) && Enabled(s, Step.Leave(p))
    ensures Has(s.sys.miners, p) && Registry(Next(s, Step.Leave(p)))
  {
    TableMembers(s);
    assert s.sys.miners != [];
    DeletedIsRemovalIffPresent(s.sys.miners, p);
    SurvivorsWithout(s.log, s.gone, s.sys.miners, p);
  }

  lemma {:induction false} RunRegistry(steps: seq<Step>)
    requires Legal(steps)
    ensures Registry(Run(steps))
  {
    if steps == [] {
      assert Pids([]) == [];
    } else {
      RunRegistry(steps[..|steps| - 1]);
      NextRegistry(Run(steps[..|steps| - 1]), steps[|steps| - 1]);
    }
  }

  /** Membership in every reachable state: the table lists the registered processes that have
      not deleted themselves, in the order of their registration and each once. */
  lemma Membership(s: Net)
    requires Reachable(s)
    ensures Pids(s.sys.miners) == Survivors(s.log, s.gone) && DistinctPids(s.sys.miners)
    ensures forall p :: Has(s.sys.miners, p) <==> p in s.procs && Registered(s.procs[p].phase)
  {
    var steps :| Legal(steps) && s == Run(steps);
    RunRegistry(steps);
    TableMembers(s);
  }

  /** Whenever a process is about to delete itself it is in the table, and the deletion
      removes its entry and nothing else. */
  lemma DeletionIsExact(s: Net, p: int)
    requires Reachable(s) && Enabled(s, Step.Leave(p))
    ensures s.sys.miners != [] && Has(s.sys.miners, p)
    ensures Next(s, Step.Leave(p)).sys.miners == Without(s.sys.miners, p)
  {
    var steps :| Legal(steps) && s == Run(steps);
    RunRegistry(steps);
    TableMembers(s);
    DeletedIsRemovalIffPresent(s.sys.miners, p);
  }

  // ---------------------------------------------------------------- the size of the table

  /** The table has room for the processes in it and for those that passed the check. */
  ghost predicate Roomy(s: Net) {
    |s.sys.miners| + Count(s.procs, IsAdmitted) <= MAX_MINERS
  }

  /** How the size of the table changes with a step. */
  lemma TableMoves(s: Net, step: Step)
    requires Enabled(s, step) && !step.Admit? && (step.Leave? ==> s.sys.miners != [])
    ensures |Next(s, step).sys.miners| == |s.sys.miners| + One(step.Register? && HasRoom(s)) - One(step.Leave?)
  {
    if step.Leave? {
      hide OwnNext, OthersNext, CleanNext, PublisherNext, Deleted;
      DeletedAt(s.sys.miners, step.pid);
    } else if !step.Register? {
      OwnClass(s, step);
      hide Next;
    }
  }

  /** Only the step's own process moves, and only by registering does it stop being admitted. */
  lemma AdmittedMoves(s: Net, step: Step)
    requires Enabled(s, step) && !step.Admit?
    ensures Count(Next(s, step).procs, IsAdmitted) == Count(s.procs, IsAdmitted) - One(step.Register?)
  {
    hide Next, OwnNext, Count;
    StepIsOnePidsStep(s, step);
    CountOneMoved(s.procs, Next(s, step).procs, step.pid, IsAdmitted);
    OwnFrame(s, step);
    OwnAdmitted(s, step);
  }

  lemma OwnAdmitted(s: Net, step: Step)
    requires Enabled(s, step) && !step.Admit?
    ensures !step.Register? ==> IsAdmitted(OwnNext(s, step)) == IsAdmitted(s.procs[step.pid])
    ensures step.Register? ==> IsAdmitted(s.procs[step.pid]) && !IsAdmitted(OwnNext(s, step))
  {
  }

  /** How the table and the admitted processes change with a step. */
  lemma RoomMoves(s: Net, step: Step)
    requires Registry(s) && Enabled(s, step) && !step.Admit?
    ensures var s' := Next(s, step);
      && Count(s'.procs, IsAdmitted) == Count(s.procs, IsAdmitted) - One(step.Register?)
      && |s'.sys.miners| == |s.sys.miners| + One(step.Register? && HasRoom(s)) - One(step.Leave?)
  {
    hide Registry, Next, Enabled, Count;
    AdmittedMoves(s, step);
    if step.Leave? {
      LeaveKeepsRegistry(s, step.pid);
    }
    TableMoves(s, step);
  }

  /** An admission lets the process in, or turns it away. */
  lemma AdmitMoves(s: Net, step: Step)
    requires Enabled(s, step) && step.Admit?
    ensures var s' := Next(s, step);
      && s'.sys == s.sys
      && Count(s'.procs, IsAdmitted) == Count(s.procs, IsAdmitted) + One(s'.procs != s.procs)
  {
    AdmissionFrame(s, step);
    var s' := Next(s, step);
    hide Next;
    if s'.procs != s.procs {
      CountUpdate(s.procs, step.pid, s'.procs[step.pid], IsAdmitted);
      assert s'.procs == s.procs[step.pid := s'.procs[step.pid]];
    }
  }

  /** Once the table is roomy, only an admission can end that, and it does so exactly when it
      lets in a process although the table and the admitted together already number 100. */
  lemma RoomIsKeptIff(s: Net, step: Step)
    requires Reachable(s) && Roomy(s) && Enabled(s, step)
    ensures !Roomy(Next(s, step)) <==>
      step.Admit? && Next(s, step).procs != s.procs && |s.sys.miners| + Count(s.procs, IsAdmitted) == MAX_MINERS
  {
    var steps :| Legal(steps) && s == Run(steps);
    RunRegistry(steps);
    hide Next, Registry, Legal, Run;
    if step.Admit? {
      AdmitMoves(s, step);
    } else {
      RoomMoves(s, step);
    }
  }

  /** As long as the table is roomy, every registration finds room in it. */
  lemma TableNeverOverruns(s: Net, p: int)
    requires Reachable(s) && Roomy(s) && Enabled(s, Step.Register(p))
    ensures |s.sys.miners| < MAX_MINERS
    ensures p in Next(s, Step.Register(p)).procs && !Next(s, Step.Register(p)).procs[p].phase.Overran?
  {
    CountPositive(s.procs, p, IsAdmitted);
  }

  /** This registration writes past the table. */
  predicate Overruns(s: Net, p: int) {
    Enabled(s, Step.Register(p)) && !HasRoom(s)
  }

  ghost predicate WithoutAdmission(steps: seq<Step>) {
    forall i :: 0 <= i < |steps| ==> !steps[i].Admit?
  }

  /** Without further admissions a roomy table stays roomy, and a dead mutex stays dead. */
  lemma {:induction false} RoomWithoutAdmission(steps: seq<Step>, more: seq<Step>)
    requires Legal(steps) && Legal(steps + more) && WithoutAdmission(more)
    ensures Roomy(Run(steps)) ==> Roomy(Run(steps + more))
    ensures Run(steps + more).mutexAlive ==> Run(steps).mutexAlive
    decreases |more|
  {
    hide Legal, Run, Reachable, Registry;
    if more == [] {
      assert steps + more == steps;
    } else {
      var l := |more| - 1;
      LastStep(steps + more);
      assert (steps + more)[..|steps + more| - 1] == steps + more[..l];
      var s := Run(steps + more[..l]);
      RoomWithoutAdmission(steps, more[..l]);
      RunRegistry(steps + more[..l]);
      RoomMoves(s, more[l]);
      assert Next(s, more[l]).mutexAlive ==> s.mutexAlive;
      hide Next, Enabled, Count;
    }
  }

  /** In a table without room, some admitted process can register. */
  lemma OneRegistration(steps: seq<Step>) returns (p: int)
    requires Legal(steps) && Run(steps).mutexAlive && !Roomy(Run(steps))
    ensures Enabled(Run(steps), Step.Register(p))
    ensures HasRoom(Run(steps)) ==>
      && Legal(steps + [Step.Register(p)])
      && Run(steps + [Step.Register(p)]).mutexAlive && !Roomy(Run(steps + [Step.Register(p)]))
      && Count(Run(steps + [Step.Register(p)]).procs, IsAdmitted) < Count(Run(steps).procs, IsAdmitted)
  {
    var s := Run(steps);
    RunRegistry(steps);
    p := CountWitness(s.procs, IsAdmitted);
    Extend(steps, Step.Register(p));
    RoomMoves(s, Step.Register(p));
    assert Next(s, Step.Register(p)).mutexAlive;
    hide Legal, Run, Registry, Next, Count;
  }

  /** From a table without room, registrations alone lead to one that writes past the table. */
  lemma {:induction false} RegistrationsOverrun(steps: seq<Step>) returns (more: seq<Step>, p: int)
    requires Legal(steps) && Run(steps).mutexAlive && !Roomy(Run(steps))
    ensures WithoutAdmission(more) && Legal(steps + more) && Overruns(Run(steps + more), p)
    decreases Count(Run(steps).procs, IsAdmitted)
  {
    hide Legal, Run, Roomy, Enabled, Count, HasRoom;
    p := OneRegistration(steps);
    if !HasRoom(Run(steps)) {
      more := [];
      assert steps + more == steps;
    } else {
      var rest, q := RegistrationsOverrun(steps + [Step.Register(p)]);
      more := [Step.Register(p)] + rest;
      assert steps + more == steps + [Step.Register(p)] + rest;
      p := q;
    }
  }

  /** When the table can be overrun, exactly: without further admissions, some continuation of
      a run makes a registration write past the table if and only if the mutex still exists
      and the table and the admitted processes together number more than 100. */
  lemma OverrunIff(steps: seq<Step>)
    requires Legal(steps)
    ensures (exists more, p :: WithoutAdmission(more) && Legal(steps + more) && Overruns(Run(steps + more), p))
       <==> Run(steps).mutexAlive && !Roomy(Run(steps))
  {
    if Run(steps).mutexAlive && !Roomy(Run(steps)) {
      var more, p := RegistrationsOverrun(steps);
    }
    forall more, p | WithoutAdmission(more) && Legal(steps + more) && Overruns(Run(steps + more), p)
      ensures Run(steps).mutexAlive && !Roomy(Run(steps))
    {
      RoomWithoutAdmission(steps, more);
      var s := Run(steps + more);
      hide Legal, Run;
      CountPositive(s.procs, p, IsAdmitted);
    }
  }

  // ---------------------------------------------------------------- separate admissions

  /** As long as no admission has overlapped another, at most one process is between the check
      and the registration, the table is roomy, and no registration has written past it. */
  ghost predicate Admissions(s: Net) {
    !s.raced ==>
      && Roomy(s)
      && Count(s.procs, IsAdmitted) <= 1
      && (forall p :: p in s.procs ==> !s.procs[p].phase.Overran?)
  }

  lemma NextAdmissions(s: Net, step: Step)
    requires Registry(s) && Admissions(s) && Enabled(s, step)
    ensures Admissions(Next(s, step))
  {
    if step.Admit? {
      AdmitAdmissions(s, step);
    } else {
      RoomMoves(s, step);
      if step.Register? {
        CountPositive(s.procs, step.pid, IsAdmitted);
      }
      if !s.raced {
        NobodyOverran(s, step);
      }
      assert Next(s, step).raced == s.raced;
      hide Next, Registry;
    }
  }

  lemma NobodyOverran(s: Net, step: Step)
    requires Enabled(s, step) && !step.Admit? && (step.Register? ==> HasRoom(s))
    requires forall p :: p in s.procs ==> !s.procs[p].phase.Overran?
    ensures forall p :: p in Next(s, step).procs ==> !Next(s, step).procs[p].phase.Overran?
  {
    var s' := Next(s, step);
    StepIsOnePidsStep(s, step);
    assert s'.procs[step.pid] == OwnNext(s, step) && !OwnNext(s, step).phase.Overran?;
    hide Next, OwnNext;
    forall p | p in s'.procs ensures !s'.procs[p].phase.Overran? {
      assert p != step.pid ==> Similar(s.procs[p], s'.procs[p]);
    }
  }

  lemma AdmitAdmissions(s: Net, step: Step)
    requires Registry(s) && Admissions(s) && Enabled(s, step) && step.Admit?
    ensures Admissions(Next(s, step))
  {
    AdmitMoves(s, step);
    AdmitRoom(s);
    AdmissionFrame(s, step);
    var s' := Next(s, step);
    assert s'.procs != s.procs ==> s.procs == map[] || |s.sys.miners| < MAX_MINERS;
    assert s'.procs != s.procs && !s'.raced ==> !s.raced && !(exists q :: q in s.procs && IsAdmitted(s.procs[q]));
    assert s'.procs == s.procs ==> (!s'.raced ==> !s.raced);
    hide Next, Registry;
  }

  /** A process is let in only while the table has room; if nobody else is between the check
      and the registration, that room is still there when it registers. */
  lemma AdmitRoom(s: Net)
    requires Registry(s)
    ensures s.procs == map[] ==> s.sys.miners == []
    ensures !(exists q :: q in s.procs && IsAdmitted(s.procs[q])) ==> Count(s.procs, IsAdmitted) == 0
  {
    TableMembers(s);
    assert s.sys.miners != [] ==> Has(s.sys.miners, s.sys.miners[0].pid);
    if Count(s.procs, IsAdmitted) > 0 {
      var q := CountWitness(s.procs, IsAdmitted);
    }
  }

  lemma {:induction false} RunAdmissions(steps: seq<Step>)
    requires Legal(steps)
    ensures Admissions(Run(steps))
  {
    if steps == [] {
      assert Matching(START.procs, IsAdmitted) == {};
    } else {
      RunRegistry(steps[..|steps| - 1]);
      RunAdmissions(steps[..|steps| - 1]);
      NextAdmissions(Run(steps[..|steps| - 1]), steps[|steps| - 1]);
    }
  }

  /** If no admission overlapped another, the table is roomy, and has never been overrun. */
  lemma SeparateAdmissionsLeaveRoom(s: Net)
    requires Reachable(s) && !s.raced
    ensures Roomy(s)
    ensures forall p :: p in s.procs ==> !s.procs[p].phase.Overran?
  {
    var steps :| Legal(steps) && s == Run(steps);
    RunAdmissions(steps);
  }
}

