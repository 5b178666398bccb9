/** How long a winner waits for the votes. It looks at the block, sleeps for a tenth of a second
    and looks again, until there are as many votes as voters or it has slept five times. */
module NetworkWait {
  import opened Counting
  import opened Network
  import opened NetworkRounds

  /** The joins of the current block, and the votes cast on it, as the schedule shows them. */
  function JoinsOf(steps: seq<Step>): nat {
    if steps == [] then 0
    else
      var front, step := steps[..|steps| - 1], steps[|steps| - 1];
      if step.Rotate? || step.Kick? then 0 else JoinsOf(front) + One(step.Join?)
  }

  function VotesOf(steps: seq<Step>): nat {
    if steps == [] then 0
    else
      var front, step := steps[..|steps| - 1], steps[|steps| - 1];
      if step.Rotate? || step.Kick? then 0 else VotesOf(front) + One(step.Publish? || step.Vote?)
  }

  /** How often the process has looked at the votes since it last published. */
  function LooksOf(steps: seq<Step>, p: int): nat {
    if steps == [] then 0
    else
      var front, step := steps[..|steps| - 1], steps[|steps| - 1];
      if step == Step.Publish(p) then 0 else LooksOf(front, p) + One(step == Poll(p))
  }

  // ---------------------------------------------------------------- the block

  lemma BlockCountsMove(s: Net, step: Step)
    requires Reachable(s) && Enabled(s, step)
    ensures var c, c' := s.sys.cur, Next(s, step).sys.cur;
      && |c'.voters| == (if step.Rotate? || step.Kick? then 0 else |c.voters| + One(step.Join?))
      && c'.total == (if step.Rotate? || step.Kick? then 0 else c.total + One(step.Publish? || step.Vote?))
  {
    hide OwnNext, OthersNext, CleanNext, PublisherNext, Reachable;
    ReachableFacts(s);
    if step.Admit? {
      AdmissionFrame(s, step);
      hide Next;
    } else if step.Publish? || step.Vote? {
      BallotCounts(s, step);
      BallotVoters(s, step);
      hide Next, Rounds, Counts;
    } else if !step.Join? && !step.Rotate? {
      KeepBlock(s, step);
      if step.Kick? {
        assert Timely(s.Round(), s.started, s.roster, step.pid, s.procs[step.pid]);
      }
      hide Next;
    }
  }

  lemma BallotVoters(s: Net, step: Step)
    requires Enabled(s, step) && (step.Publish? || step.Vote?)
    ensures Next(s, step).sys.cur.voters == s.sys.cur.voters
  {
    hide OwnNext, OthersNext, CleanNext, PublisherNext;
  }

  lemma {:induction false} RunBlock(steps: seq<Step>)
    requires Legal(steps)
    ensures |Run(steps).sys.cur.voters| == JoinsOf(steps) && Run(steps).sys.cur.total == VotesOf(steps)
  {
    if steps != [] {
      hide Legal, Run, Reachable, Next, Enabled;
      LastStep(steps);
      RunBlock(steps[..|steps| - 1]);
      BlockCountsMove(Run(steps[..|steps| - 1]), steps[|steps| - 1]);
    }
  }

  // ---------------------------------------------------------------- the winner's counter

  /** The counter of a process that waits holds its looks so far; of any other it is 0. */
  ghost predicate Waits(s: Net, p: int, looks: nat) {
    p in s.procs && !s.procs[p].phase.Aborted? ==>
      s.procs[p].polls == if s.procs[p].phase.Counting? then looks else 0
  }

  lemma OwnWait(s: Net, step: Step, looks: nat)
    requires Enabled(s, step) && !step.Admit? && Waits(s, step.pid, looks)
    ensures !OwnNext(s, step).phase.Aborted? ==>
      OwnNext(s, step).polls
      == if !OwnNext(s, step).phase.Counting? then 0 else if step.Publish? then 0 else looks + One(step.Poll?)
  {
  }

  lemma NextWaits(s: Net, step: Step, p: int, looks: nat)
    requires Enabled(s, step) && Waits(s, p, looks)
    ensures Waits(Next(s, step), p, if step == Step.Publish(p) then 0 else looks + One(step == Poll(p)))
  {
    hide Next, OwnNext;
    if step.Admit? {
      AdmissionFrame(s, step);
    } else {
      StepIsOnePidsStep(s, step);
      OwnFrame(s, step);
      if p == step.pid {
        OwnWait(s, step, looks);
      } else if p in s.procs {
        assert Similar(s.procs[p], Next(s, step).procs[p]);
      }
    }
  }

  lemma {:induction false} RunWaits(steps: seq<Step>, p: int)
    requires Legal(steps)
    ensures Waits(Run(steps), p, LooksOf(steps, p))
  {
    if steps != [] {
      hide Legal, Run, Reachable, Next, Enabled, Waits;
      LastStep(steps);
      RunWaits(steps[..|steps| - 1], p);
      NextWaits(Run(steps[..|steps| - 1]), steps[|steps| - 1], p, LooksOf(steps[..|steps| - 1], p));
    }
  }

  // ---------------------------------------------------------------- main results

  /** The winner's wait, exactly, in every run: when it looks at the block it goes on to its
      acceptance test if and only if the block has as many votes as voters, or the winner has
      looked, and slept, five times since it published; otherwise it goes on waiting. */
  lemma WaitEndsIff(steps: seq<Step>, p: int)
    requires Legal(steps + [Poll(p)])
    ensures p in Run(steps + [Poll(p)]).procs
    ensures Run(steps + [Poll(p)]).procs[p].phase
         == if VotesOf(steps) == JoinsOf(steps) || LooksOf(steps, p) == 5 then Judging else Phase.Counting
  {
    LastStep(steps + [Poll(p)]);
    assert (steps + [Poll(p)])[..|steps|] == steps;
    RunBlock(steps);
    RunWaits(steps, p);
    hide Legal, Run, Reachable, VotesOf, JoinsOf, LooksOf;
  }

  /** Those who have joined the current block and not voted on it, and those who have voted on
      it without having joined it: late, from an earlier round. */
  ghost function Missing(s: Net): set<int> {
    set p | p in s.procs && s.procs[p].joinedAt == s.Round() && s.procs[p].votedAt != s.Round()
  }

  ghost function Late(s: Net): set<int> {
    set p | p in s.procs && s.procs[p].joinedAt != s.Round() && s.procs[p].votedAt == s.Round()
  }

  /** What the test for all votes means, exactly: that as many late votes have come as votes are
      missing. So it means that every voter has voted if and only if there is no late vote. */
  lemma AllVotesAreInIff(s: Net)
    requires Reachable(s)
    ensures s.sys.cur.total == |s.sys.cur.voters| <==> |Late(s)| == |Missing(s)|
    ensures s.sys.cur.total == |s.sys.cur.voters| ==> (Missing(s) == {} <==> Late(s) == {})
  {
    hide Reachable;
    MissingAndLate(s);
    VotersAndVotes(s);
    SameSize(Matching(s.procs, JoinedIn(s.Round())), Matching(s.procs, VotedIn(s.Round())));
  }

  lemma VotersAndVotes(s: Net)
    requires Reachable(s)
    ensures |s.sys.cur.voters| == |Matching(s.procs, JoinedIn(s.Round()))|
    ensures s.sys.cur.total == |Matching(s.procs, VotedIn(s.Round()))|
  {
    hide Reachable, Rounds, Listed;
    ReachableFacts(s);
  }

  lemma MissingAndLate(s: Net)
    ensures var joined, voted := Matching(s.procs, JoinedIn(s.Round())), Matching(s.procs, VotedIn(s.Round()));
      Missing(s) == joined - voted && Late(s) == voted - joined
  {
  }

  lemma SameSize(a: set<int>, b: set<int>)
    ensures |a| == |b| <==> |b - a| == |a - b|
  {
    assert a == (a - b) + a * b && b == (b - a) + a * b;
  }
}
