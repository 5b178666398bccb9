/** Which of the processes that mine a block take the winner branch. The test of line 280 is
    made outside the mutex, on a flag that a SIGUSR2 sets and the loop top resets. */
module NetworkWinners {
  import opened MinerTable
  import opened MinerSystem
  import opened Network
  import opened NetworkRounds
  import opened NetworkVotes

  predicate InCurrentRound(s: Net, q: int) {
    q in s.procs && s.procs[q].joinedAt == s.Round()
  }

  /** Step i publishes a block that q had joined by then, on behalf of another process, and q
      has not been at its loop top since. */
  ghost predicate ToldAt(steps: seq<Step>, i: nat, q: int)
    requires i < |steps|
  {
    && steps[i].Publish? && steps[i].pid != q
    && Legal(steps[..i]) && InCurrentRound(Run(steps[..i]), q)
    && forall j :: i < j < |steps| ==> steps[j] != Step.Top(q)
  }

  ghost predicate Told(steps: seq<Step>, q: int) {
    exists i :: 0 <= i < |steps| && ToldAt(steps, i, q)
  }

  lemma ToldAtPrefix(steps: seq<Step>, i: nat, q: int)
    requires i < |steps| - 1
    ensures ToldAt(steps, i, q) <==> ToldAt(steps[..|steps| - 1], i, q) && steps[|steps| - 1] != Step.Top(q)
  {
    hide Legal, Run, InCurrentRound;
    assert steps[..|steps| - 1][..i] == steps[..i];
  }

  lemma ToldAtLast(steps: seq<Step>, q: int)
    requires |steps| > 0 && Legal(steps[..|steps| - 1])
    ensures var l := |steps| - 1;
      ToldAt(steps, l, q) <==> steps[l].Publish? && steps[l].pid != q && InCurrentRound(Run(steps[..l]), q)
  {
    hide Legal, Run, InCurrentRound;
  }

  lemma ToldStep(steps: seq<Step>, q: int)
    requires |steps| > 0 && Legal(steps)
    ensures var l := |steps| - 1;
      Told(steps, q) <==>
        || (steps[l].Publish? && steps[l].pid != q && InCurrentRound(Run(steps[..l]), q))
        || (steps[l] != Step.Top(q) && Told(steps[..l], q))
  {
    hide ToldAt, Legal, Run, InCurrentRound;
    var l := |steps| - 1;
    LegalPrefix(steps, l);
    ToldAtLast(steps, q);
    forall i | 0 <= i < l
      ensures ToldAt(steps, i, q) <==> ToldAt(steps[..l], i, q) && steps[l] != Step.Top(q)
    {
      ToldAtPrefix(steps, i, q);
    }
    if i :| 0 <= i < l && ToldAt(steps[..l], i, q) {
      assert steps[l] != Step.Top(q) ==> ToldAt(steps, i, q);
    }
  }

  /** What a step does to the SIGUSR2 flag of a process. */
  lemma FlagNext(s: Net, step: Step, q: int)
    requires Enabled(s, step) && !step.Admit? && q in s.procs
    ensures q in Next(s, step).procs
    ensures Next(s, step).procs[q].usr2
         == (if step == Step.Top(q) && !s.procs[q].shutdown then false
             else s.procs[q].usr2 || (step.Publish? && q != step.pid && Has(s.sys.cur.voters, q)))
  {
    hide SysNext, CleanNext, PublisherNext, Covers, Others;
    if step.Publish? {
      OthersAre(s.sys.cur.voters, step.pid, q);
    }
  }

  predicate OnItsWayOut(ph: Phase) { ph.Leaving? || ph.Gone? }

  /** The flag of a process that has not left the loop says whether it was told. */
  ghost predicate FlagsTell(steps: seq<Step>)
    requires Legal(steps)
  {
    var s := Run(steps);
    && (forall q :: Told(steps, q) ==> q in s.procs)
    && (forall q :: q in s.procs && !OnItsWayOut(s.procs[q].phase) ==> (s.procs[q].usr2 <==> Told(steps, q)))
  }

  lemma FlagTellsNext(steps: seq<Step>, q: int)
    requires |steps| > 0 && Legal(steps) && FlagsTell(steps[..|steps| - 1]) && Counts(Run(steps[..|steps| - 1]))
    requires !steps[|steps| - 1].Admit?
    ensures Told(steps, q) ==> q in Run(steps).procs
    ensures q in Run(steps).procs && !OnItsWayOut(Run(steps).procs[q].phase) ==>
        (Run(steps).procs[q].usr2 <==> Told(steps, q))
  {
    var l := |steps| - 1;
    var s, step := Run(steps[..l]), steps[l];
    assert Run(steps) == Next(s, step);
    assert Listed(s);
    ToldStep(steps, q);
    StepIsOnePidsStep(s, step);
    hide Legal, Run, Told, Counts;
    if q in s.procs {
      FlagNext(s, step, q);
      LeavesByTop(s, step, q);
    }
  }

  /** A process leaves the loop at its top, and does not come back. */
  lemma LeavesByTop(s: Net, step: Step, q: int)
    requires Enabled(s, step) && !step.Admit? && q in s.procs
    ensures q in Next(s, step).procs
    ensures OnItsWayOut(s.procs[q].phase) ==> OnItsWayOut(Next(s, step).procs[q].phase)
    ensures step == Step.Top(q) && s.procs[q].shutdown ==> OnItsWayOut(Next(s, step).procs[q].phase)
  {
    hide SysNext, CleanNext, PublisherNext, Covers, Others;
  }

  lemma AdmitFlags(steps: seq<Step>)
    requires |steps| > 0 && Legal(steps) && FlagsTell(steps[..|steps| - 1]) && steps[|steps| - 1].Admit?
    ensures FlagsTell(steps)
  {
    var l := |steps| - 1;
    var s, step := Run(steps[..l]), steps[l];
    assert Run(steps) == Next(s, step);
    AdmissionFrame(s, step);
    forall q ensures Told(steps, q) <==> Told(steps[..l], q) {
      ToldStep(steps, q);
    }
    hide Next, Told;
  }

  lemma {:induction false} RunFlags(steps: seq<Step>)
    requires Legal(steps)
    ensures FlagsTell(steps)
  {
    if steps != [] {
      var l := |steps| - 1;
      RunFlags(steps[..l]);
      RunCounts(steps[..l]);
      if steps[l].Admit? {
        AdmitFlags(steps);
      } else {
        forall q
          ensures Told(steps, q) ==> q in Run(steps).procs
          ensures q in Run(steps).procs && !OnItsWayOut(Run(steps).procs[q].phase) ==>
              (Run(steps).procs[q].usr2 <==> Told(steps, q))
        {
          FlagTellsNext(steps, q);
        }
      }
    }
  }

  // ---------------------------------------------------------------- main results

  /** Exactly who wins, in every run: the process takes the winner branch if and only if no
      other process has published the block it is mining since it joined. */
  lemma WinsIffNotTold(steps: seq<Step>, q: int)
    requires Legal(steps) && Enabled(Run(steps), Decide(q))
    ensures Next(Run(steps), Decide(q)).procs[q].phase == (if Told(steps, q) then Losing else Winning)
  {
    RunFlags(steps);
  }

  // ---------------------------------------------------------------- the publications of one round

  /** Step i publishes block r on behalf of another process, when q had joined it. */
  ghost predicate TellsOf(steps: seq<Step>, i: nat, q: int, r: int)
    requires i < |steps|
  {
    && steps[i].Publish? && steps[i].pid != q && Legal(steps[..i])
    && Run(steps[..i]).Round() == r && q in Run(steps[..i]).procs && Run(steps[..i]).procs[q].joinedAt == r
  }

  ghost predicate ToldOf(steps: seq<Step>, q: int, r: int) {
    exists i :: 0 <= i < |steps| && TellsOf(steps, i, q, r)
  }

  lemma TellsOfPrefix(steps: seq<Step>, i: nat, q: int, r: int)
    requires i < |steps| - 1
    ensures TellsOf(steps, i, q, r) <==> TellsOf(steps[..|steps| - 1], i, q, r)
  {
    hide Legal, Run;
    assert steps[..|steps| - 1][..i] == steps[..i];
  }

  lemma TellsOfLast(steps: seq<Step>, q: int, r: int)
    requires |steps| > 0 && Legal(steps[..|steps| - 1])
    ensures var l, s := |steps| - 1, Run(steps[..|steps| - 1]);
      TellsOf(steps, l, q, r)
      <==> steps[l].Publish? && steps[l].pid != q && s.Round() == r && q in s.procs && s.procs[q].joinedAt == r
  {
    hide Legal, Run;
  }

  lemma ToldOfStep(steps: seq<Step>, q: int, r: int)
    requires |steps| > 0
    ensures ToldOf(steps, q, r) <==> ToldOf(steps[..|steps| - 1], q, r) || TellsOf(steps, |steps| - 1, q, r)
  {
    hide TellsOf;
    var l := |steps| - 1;
    forall i | 0 <= i < l ensures TellsOf(steps, i, q, r) <==> TellsOf(steps[..l], i, q, r) {
      TellsOfPrefix(steps, i, q, r);
    }
    if i :| 0 <= i < l && TellsOf(steps[..l], i, q, r) {
      assert TellsOf(steps, i, q, r);
    }
  }

  /** For a process that mines, being told is being told of the round that it joined: what it
      was told of before never matters. */
  ghost predicate ToldOfItsRound(steps: seq<Step>, q: int)
    requires Legal(steps)
  {
    var s := Run(steps);
    && (forall r :: ToldOf(steps, q, r) ==> q in s.procs && r <= s.procs[q].joinedAt)
    && (q in s.procs && Owes(s.procs[q]) ==> (Told(steps, q) <==> ToldOf(steps, q, s.procs[q].joinedAt)))
  }

  /** How a step moves a process into and within the part of the round in which it mines. */
  lemma OwingNext(s: Net, step: Step, q: int)
    requires Rounds(s) && Enabled(s, step) && q in s.procs
    ensures q in Next(s, step).procs
    ensures step == Step.Join(q) ==> Next(s, step).procs[q].joinedAt == s.Round() > s.procs[q].joinedAt
    ensures step != Step.Join(q) ==> Next(s, step).procs[q].joinedAt == s.procs[q].joinedAt
    ensures step != Step.Join(q) && Owes(Next(s, step).procs[q]) ==> Owes(s.procs[q]) && step != Step.Top(q)
  {
    hide Rounds, Next, OwnNext;
    if step.Admit? {
      AdmissionFrame(s, step);
    } else {
      StepIsOnePidsStep(s, step);
      OwnFrame(s, step);
      if q != step.pid {
        assert Similar(s.procs[q], Next(s, step).procs[q]);
      } else {
        OwnOwing(s, step);
      }
    }
  }

  lemma OwnOwing(s: Net, step: Step)
    requires Rounds(s) && Enabled(s, step) && !step.Admit?
    ensures step.Join? ==> OwnNext(s, step).joinedAt == s.Round() > s.procs[step.pid].joinedAt
    ensures !step.Join? && Owes(OwnNext(s, step)) ==> Owes(s.procs[step.pid]) && !step.Top?
  {
    assert Timely(s.Round(), s.started, s.roster, step.pid, s.procs[step.pid]);
    hide Rounds, Covers;
  }

  lemma JoinsUntold(steps: seq<Step>, q: int)
    requires Legal(steps) && Enabled(Run(steps), Step.Join(q))
    ensures !Told(steps, q)
  {
    RunFlags(steps);
    RunAgreement(steps);
    assert Honest(Run(steps), Run(steps).procs[q]);
    hide Legal, Run, Told, Agreement;
  }

  lemma ToldOfItsRoundNext(steps: seq<Step>, q: int)
    requires |steps| > 0 && Legal(steps) && Legal(steps[..|steps| - 1]) && ToldOfItsRound(steps[..|steps| - 1], q)
    ensures ToldOfItsRound(steps, q)
  {
    hide Legal, Run, Reachable, Told, ToldOf, TellsOf, Owes, Rounds, Next, Enabled;
    LastStep(steps);
    var front, step := steps[..|steps| - 1], steps[|steps| - 1];
    var s := Run(front);
    RunRounds(front);
    ToldStep(steps, q);
    forall r
      ensures ToldOf(steps, q, r) <==>
        ToldOf(front, q, r)
        || (step.Publish? && step.pid != q && s.Round() == r && q in s.procs && s.procs[q].joinedAt == r)
    {
      ToldOfStep(steps, q, r);
      TellsOfLast(steps, q, r);
    }
    if q in s.procs {
      OwingNext(s, step, q);
      if step == Step.Join(q) {
        JoinsUntold(front, q);
      }
    } else {
      NewcomerOwesNothing(s, step, q);
    }
  }

  lemma NewcomerOwesNothing(s: Net, step: Step, q: int)
    requires Enabled(s, step) && q !in s.procs
    ensures q in Next(s, step).procs ==> !Owes(Next(s, step).procs[q])
  {
    if step.Admit? {
      AdmissionFrame(s, step);
      hide Next;
    } else {
      StepIsOnePidsStep(s, step);
      hide Next;
    }
  }

  lemma {:induction false} RunToldOfItsRound(steps: seq<Step>, q: int)
    requires Legal(steps)
    ensures ToldOfItsRound(steps, q)
  {
    if steps != [] {
      hide Run, Enabled, ToldOfItsRound;
      RunToldOfItsRound(steps[..|steps| - 1], q);
      ToldOfItsRoundNext(steps, q);
    }
  }

  /** Exactly who wins, by the publications of the round alone: the process takes the winner
      branch if and only if no other process has published the block that it joined, after it
      had joined it. Publications of other rounds, late or early, make no difference. */
  lemma WinsIffNotToldOfItsRound(steps: seq<Step>, q: int)
    requires Legal(steps) && Enabled(Run(steps), Decide(q))
    ensures Next(Run(steps), Decide(q)).procs[q].phase
         == (if ToldOf(steps, q, Run(steps).procs[q].joinedAt) then Losing else Winning)
  {
    WinsIffNotTold(steps, q);
    RunToldOfItsRound(steps, q);
    hide Legal, Run, Told, ToldOf;
  }

  // ---------------------------------------------------------------- two winners

  /** Step i of the schedule takes q into the winner branch, in the round r that it joined. */
  ghost predicate WinsAt(steps: seq<Step>, i: nat, q: int, r: int) {
    && i < |steps| && steps[i] == Decide(q) && Legal(steps[..i]) && Legal(steps[..i + 1])
    && Run(steps[..i + 1]).procs[q].joinedAt == r && Run(steps[..i + 1]).procs[q].phase == Winning
  }

  /** Step i is the decision of q in the round r that it joined, and block r has not been
      published by another process since. */
  ghost predicate DecidesUntold(steps: seq<Step>, i: nat, q: int, r: int) {
    && i < |steps| && steps[i] == Decide(q) && Legal(steps[..i])
    && q in Run(steps[..i]).procs && Run(steps[..i]).procs[q].joinedAt == r && !ToldOf(steps[..i], q, r)
  }

  lemma WinsAtIff(steps: seq<Step>, i: nat, q: int, r: int)
    requires Legal(steps)
    ensures WinsAt(steps, i, q, r) <==> DecidesUntold(steps, i, q, r)
  {
    if i < |steps| && steps[i] == Decide(q) {
      hide Legal, Run, Reachable, ToldOf;
      RunStep(steps, i);
      WinsIffNotToldOfItsRound(steps[..i], q);
    }
  }

  /** When a round has two winners, exactly: if and only if two processes decide in it without
      any other process having published the block between their joining and their decision. */
  lemma TwoWinnersIff(steps: seq<Step>, r: int)
    requires Legal(steps)
    ensures (exists p, q, i, j :: p != q && WinsAt(steps, i, p, r) && WinsAt(steps, j, q, r))
       <==> (exists p, q, i, j :: p != q && DecidesUntold(steps, i, p, r) && DecidesUntold(steps, j, q, r))
  {
    hide Legal, WinsAt, DecidesUntold;
    forall i, q ensures WinsAt(steps, i, q, r) <==> DecidesUntold(steps, i, q, r) {
      WinsAtIff(steps, i, q, r);
    }
  }

  /** A publication reaches everyone who has joined the block so far: if such a process has
      not yet decided, it can only decide to vote. */
  lemma PublicationReachesVoters(s: Net, p: int, q: int)
    requires Reachable(s) && Enabled(s, Step.Publish(p))
    requires q in s.procs && q != p && s.procs[q].joinedAt == s.Round()
    ensures var s' := Next(s, Step.Publish(p));
      && q in s'.procs && s'.procs[q] == s.procs[q].(usr2 := true)
      && (Enabled(s', Decide(q)) ==> Next(s', Decide(q)).procs[q].phase == Losing)
  {
    hide Reachable, Rounds, Next, Others;
    ReachableFacts(s);
    OthersAre(s.sys.cur.voters, p, q);
    FlaggedByPublication(s, p, q);
    DecidesToLose(Next(s, Step.Publish(p)), q);
    hide Counts, Enabled;
  }

  lemma FlaggedByPublication(s: Net, p: int, q: int)
    requires Enabled(s, Step.Publish(p)) && q in s.procs && q != p && q in Others(s.sys.cur.voters, p)
    ensures q in Next(s, Step.Publish(p)).procs && Next(s, Step.Publish(p)).procs[q] == s.procs[q].(usr2 := true)
  {
    hide Others, SysNext, CleanNext, PublisherNext, Covers, OwnNext;
  }

  lemma DecidesToLose(s: Net, q: int)
    requires q in s.procs && s.procs[q].usr2
    ensures Enabled(s, Decide(q)) ==> Next(s, Decide(q)).procs[q].phase == Losing
  {
    hide SysNext, CleanNext, PublisherNext, Covers;
  }
}
