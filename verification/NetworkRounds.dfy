/** Rounds of the miner network: who may join, vote and wait when, and the counts that
    follow - voters are listed once, votes are conserved, and no counter outgrows the table. */
module NetworkRounds {
  import opened MinerTable
  import opened MinerSystem
  import opened Counting
  import opened Network
  import opened NetworkRegistry

  /** Not yet woken for the first time. */
  predicate Early(ph: Phase) {
    ph.Admitted? || ph.Starting? || ph.Arriving? || ph.Waiting? || ph.Overran?
  }

  /** On its way to join the current block. */
  predicate Fresh(pr: Proc) {
    (pr.phase.LoopTop? && !pr.shutdown) || pr.phase.Ready? || pr.phase.Informed?
  }

  /** Has joined a block and has not voted since. */
  predicate Owes(pr: Proc) {
    pr.phase.Mining? || pr.phase.Mined? || pr.phase.Winning? || pr.phase.Losing?
  }

  predicate InRound(pr: Proc) {
    Owes(pr) || pr.phase.Counting? || pr.phase.Judging? || pr.phase.Awarding? || pr.phase.Rotating?
    || pr.phase.Voted? || pr.phase.Suspended?
  }

  predicate Timely(round: int, started: bool, roster: set<int>, p: int, pr: Proc) {
    && 1 <= pr.threads <= 9
    && -1 <= pr.readAt <= round && -1 <= pr.joinedAt <= round && -1 <= pr.votedAt <= round
    && (Early(pr.phase) ==> pr.readAt == pr.joinedAt == pr.votedAt == -1)
    && (Fresh(pr) ==> pr.joinedAt < round && pr.votedAt < round)
    && (Owes(pr) ==> pr.votedAt < pr.joinedAt)
    && (!started ==> pr.joinedAt == pr.votedAt == pr.readAt == -1 && !Fresh(pr) && !InRound(pr))
    && (pr.phase.Starting? ==> pr.first)
    && (pr.first && (pr.phase.Admitted? || pr.phase.Starting?) ==> !started)
    && (Fresh(pr) || InRound(pr) || pr.joinedAt == round || pr.votedAt == round ==> p in roster)
  }

  ghost predicate Rounds(s: Net) {
    && (forall p :: p in s.procs ==> Timely(s.Round(), s.started, s.roster, p, s.procs[p]))
    && (forall p, q :: p in s.procs && q in s.procs && s.procs[p].first && s.procs[q].first ==> p == q)
    && (!s.started ==> s.history == [] && s.sys.cur.voters == [] && s.sys.cur.total == 0 && s.sys.cur.favorable == 0)
    && (s.started ==> s.procs != map[])
    && |s.roster| <= MAX_MINERS
  }

  // ---------------------------------------------------------------- invariance of Rounds

  /** The step's own process stays timely. */
  lemma OwnTimely(s: Net, step: Step)
    requires Rounds(s) && Enabled(s, step) && !step.Admit? && !step.Rotate? && !step.Kick?
    ensures Timely(s.Round(), s.started, s.roster, step.pid, OwnNext(s, step))
  {
    assert Timely(s.Round(), s.started, s.roster, step.pid, s.procs[step.pid]);
    hide Rounds, Timely, OwnNext;
    if step.Pause? || step.Top? || step.Read? || step.Join? || step.Register? {
      TimelyOnTheWayIn(s, step);
    } else if step.Mine? || step.Decide? || step.Publish? || step.Vote? {
      TimelyInTheRound(s, step);
    } else {
      TimelyAfterwards(s, step);
    }
  }

  lemma TimelyOnTheWayIn(s: Net, step: Step)
    requires Enabled(s, step) && (step.Pause? || step.Top? || step.Read? || step.Join? || step.Register?)
    requires Timely(s.Round(), s.started, s.roster, step.pid, s.procs[step.pid])
    ensures Timely(s.Round(), s.started, s.roster, step.pid, OwnNext(s, step))
  {
  }

  lemma TimelyInTheRound(s: Net, step: Step)
    requires Enabled(s, step) && (step.Mine? || step.Decide? || step.Publish? || step.Vote?)
    requires Timely(s.Round(), s.started, s.roster, step.pid, s.procs[step.pid])
    ensures Timely(s.Round(), s.started, s.roster, step.pid, OwnNext(s, step))
  {
    hide Covers;
  }

  lemma TimelyAfterwards(s: Net, step: Step)
    requires Enabled(s, step) && !step.Admit? && !step.Rotate? && !step.Kick?
    requires !(step.Pause? || step.Top? || step.Read? || step.Join? || step.Register?)
    requires !(step.Mine? || step.Decide? || step.Publish? || step.Vote?)
    requires Timely(s.Round(), s.started, s.roster, step.pid, s.procs[step.pid])
    ensures Timely(s.Round(), s.started, s.roster, step.pid, OwnNext(s, step))
  {
    hide Covers;
  }

  /** The process that starts a round for all is timely in it. */
  lemma StarterTimely(s: Net, step: Step)
    requires Registry(s) && Rounds(s) && Enabled(s, step) && (step.Rotate? || step.Kick?)
    ensures var s' := Next(s, step);
      Timely(s'.Round(), s'.started, s'.roster, step.pid, s'.procs[step.pid])
  {
    hide Next, PidSet;
    TableMembers(s);
    PidSetIs(s.sys.miners);
    StarterIs(s, step);
    assert Timely(s.Round(), s.started, s.roster, step.pid, s.procs[step.pid]);
    hide Registry, Rounds, Timely;
    TimelyAsStarter(s.Round(), s.started, step.Rotate?, s.roster, PidSet(s.sys.miners), step.pid, s.procs[step.pid]);
  }

  lemma TimelyAsStarter(round: nat, started: bool, rotates: bool, roster: set<int>, roster': set<int>, p: int, pr: Proc)
    requires Timely(round, started, roster, p, pr) && p in roster'
    requires if rotates then pr.phase.Rotating? else pr.phase.Starting?
    ensures Timely(round + One(rotates), true, roster', p, pr.(phase := LoopTop))
  {
  }

  lemma StarterIs(s: Net, step: Step)
    requires Enabled(s, step) && (step.Rotate? || step.Kick?)
    ensures var s' := Next(s, step);
      && s'.procs[step.pid] == s.procs[step.pid].(phase := LoopTop)
      && s'.roster == PidSet(s.sys.miners) && s'.started == (s.started || step.Kick?)
      && s'.Round() == s.Round() + One(step.Rotate?)
  {
    hide OthersNext, SysNext, CleanNext, PublisherNext, PidSet;
  }

  /** A rotation seen by one process, which is woken or not. */
  lemma TimelyInNewRound(round: int, roster: set<int>, roster': set<int>, p: int, pr: Proc, pr': Proc)
    requires Timely(round, true, roster, p, pr)
    requires Registered(pr.phase) ==> p in roster'
    requires pr' == pr || (Asleep(pr.phase) && pr' == pr.(phase := LoopTop))
    ensures Timely(round + 1, true, roster', p, pr')
  {
  }

  /** The start of the first round seen by one process, which is woken or not. */
  lemma TimelyInFirstRound(roster: set<int>, roster': set<int>, p: int, pr: Proc, pr': Proc)
    requires Timely(0, false, roster, p, pr) && !pr.first
    requires Registered(pr.phase) ==> p in roster'
    requires pr' == pr || (Asleep(pr.phase) && pr' == pr.(phase := LoopTop))
    ensures Timely(0, true, roster', p, pr')
  {
  }

  /** At a rotation, and when the first miner starts the first round, the other processes
      stay timely, woken or not. */
  lemma WokenTimely(s: Net, step: Step, q: int)
    requires Registry(s) && Rounds(s) && Enabled(s, step) && (step.Rotate? || step.Kick?)
    requires q in s.procs && q != step.pid
    ensures var s' := Next(s, step);
      q in s'.procs && Timely(s'.Round(), s'.started, s'.roster, q, s'.procs[q])
  {
    var p := step.pid;
    TableMembers(s);
    PidSetIs(s.sys.miners);
    WokenIs(s, step, q);
    assert Timely(s.Round(), s.started, s.roster, p, s.procs[p])
        && Timely(s.Round(), s.started, s.roster, q, s.procs[q]);
    assert step.Rotate? ==> s.started;
    assert step.Kick? ==> !s.started && s.Round() == 0 && !s.procs[q].first;
    hide Registry, Rounds, Enabled, OwnNext, PidSet, Others, Timely, Registered;
    if step.Rotate? {
      TimelyInNewRound(s.Round(), s.roster, Next(s, step).roster, q, s.procs[q], Next(s, step).procs[q]);
    } else {
      TimelyInFirstRound(s.roster, Next(s, step).roster, q, s.procs[q], Next(s, step).procs[q]);
    }
  }

  lemma WokenIs(s: Net, step: Step, q: int)
    requires Enabled(s, step) && (step.Rotate? || step.Kick?) && q in s.procs && q != step.pid
    ensures var s', pr := Next(s, step), s.procs[q];
      && q in s'.procs
      && (s'.procs[q] == pr || (Asleep(pr.phase) && s'.procs[q] == pr.(phase := LoopTop)))
      && s'.roster == PidSet(s.sys.miners) && s'.started == (s.started || step.Kick?)
      && s'.Round() == s.Round() + One(step.Rotate?)
  {
  }

  /** Outside rotations, the other processes change nothing but their SIGUSR2 flag. */
  lemma BystanderTimely(s: Net, step: Step, q: int)
    requires Rounds(s) && Enabled(s, step) && !step.Admit? && !step.Rotate? && !step.Kick?
    requires q in s.procs && q != step.pid
    ensures q in Next(s, step).procs
    ensures Timely(s.Round(), s.started, s.roster, q, Next(s, step).procs[q])
  {
    assert Timely(s.Round(), s.started, s.roster, q, s.procs[q]);
  }

  lemma AdmitRounds(s: Net, step: Step)
    requires Rounds(s) && Enabled(s, step) && step.Admit?
    ensures Rounds(Next(s, step))
  {
    var s' := Next(s, step);
    AdmissionFrame(s, step);
    assert s'.procs != s.procs ==> step.pid !in s.procs && (s'.procs[step.pid].first ==> s.procs == map[]);
    hide Next, Enabled;
    if s'.procs != s.procs {
      assert s'.procs == s.procs[step.pid := s'.procs[step.pid]];
      forall q | q in s'.procs ensures Timely(s'.Round(), s'.started, s'.roster, q, s'.procs[q]) {
        assert q in s.procs ==> Timely(s.Round(), s.started, s.roster, q, s.procs[q]);
      }
      OthersUnmoved(s.procs, step.pid, s'.procs[step.pid]);
      FirstStaysUnique(s, s', step.pid);
    }
  }

  lemma OthersUnmoved(m: map<int, Proc>, p: int, pr: Proc)
    ensures OthersSimilar(m, m[p := pr], p)
  {
  }

  lemma EveryoneTimely(s: Net, step: Step)
    requires Registry(s) && Rounds(s) && Enabled(s, step) && !step.Admit?
    ensures var s' := Next(s, step);
      forall q :: q in s'.procs ==> Timely(s'.Round(), s'.started, s'.roster, q, s'.procs[q])
  {
    var s' := Next(s, step);
    StepIsOnePidsStep(s, step);
    OwnFrame(s, step);
    forall q | q in s'.procs ensures Timely(s'.Round(), s'.started, s'.roster, q, s'.procs[q]) {
      if step.Rotate? || step.Kick? {
        if q == step.pid {
          StarterTimely(s, step);
        } else {
          WokenTimely(s, step, q);
        }
      } else if q == step.pid {
        OwnTimely(s, step);
      } else {
        BystanderTimely(s, step, q);
      }
    }
  }

  lemma NextRounds(s: Net, step: Step)
    requires Registry(s) && Rounds(s) && Enabled(s, step)
    ensures Rounds(Next(s, step))
  {
    if step.Admit? {
      AdmitRounds(s, step);
    } else {
      EveryoneTimely(s, step);
      PidSetSize(s.sys.miners);
      StartedOrEmpty(s, step);
      StepIsOnePidsStep(s, step);
      OwnFrame(s, step);
      FirstStaysUnique(s, Next(s, step), step.pid);
    }
  }

  lemma FirstStaysUnique(s: Net, s': Net, p: int)
    requires Rounds(s) && OthersSimilar(s.procs, s'.procs, p)
    requires p in s.procs ==> s'.procs[p].first == s.procs[p].first
    requires p !in s.procs && s'.procs[p].first ==> s.procs == map[]
    ensures forall q, r :: q in s'.procs && r in s'.procs && s'.procs[q].first && s'.procs[r].first ==> q == r
  {
    forall q, r | q in s'.procs && r in s'.procs && s'.procs[q].first && s'.procs[r].first ensures q == r {
      assert q in s.procs && q != p ==> Similar(s.procs[q], s'.procs[q]);
      assert r in s.procs && r != p ==> Similar(s.procs[r], s'.procs[r]);
    }
  }

  lemma StartedOrEmpty(s: Net, step: Step)
    requires Registry(s) && Rounds(s) && Enabled(s, step)
    ensures var s' := Next(s, step);
      !s'.started ==> s'.history == [] && s'.sys.cur.voters == [] && s'.sys.cur.total == 0 && s'.sys.cur.favorable == 0
  {
    if !step.Admit? {
      assert Timely(s.Round(), s.started, s.roster, step.pid, s.procs[step.pid]);
    }
  }

  lemma {:induction false} RunRounds(steps: seq<Step>)
    requires Legal(steps)
    ensures Rounds(Run(steps))
  {
    if steps != [] {
      RunRegistry(steps[..|steps| - 1]);
      RunRounds(steps[..|steps| - 1]);
      NextRounds(Run(steps[..|steps| - 1]), steps[|steps| - 1]);
    }
  }

  // ---------------------------------------------------------------- counts

  ghost function JoinedIn(round: int): Proc -> bool { (pr: Proc) => pr.joinedAt == round }

  ghost function VotedIn(round: int): Proc -> bool { (pr: Proc) => pr.votedAt == round }

  /** Voters minus votes, over the archived blocks. */
  function Imbalance(history: seq<Archived>): int {
    if history == [] then 0
    else Imbalance(history[..|history| - 1])
         + |history[|history| - 1].block.voters| - history[|history| - 1].block.total
  }

  ghost predicate Counts(s: Net) {
    && |s.sys.cur.voters| == Count(s.procs, JoinedIn(s.Round()))
    && s.sys.cur.total == Count(s.procs, VotedIn(s.Round()))
    && s.sys.cur.favorable <= s.sys.cur.total
    && Imbalance(s.history) + |s.sys.cur.voters| - s.sys.cur.total == Count(s.procs, Owes)
    && DistinctPids(s.sys.cur.voters)
    && Listed(s)
  }

  /** The voters listed are the processes that have joined in this round. */
  ghost predicate Listed(s: Net) {
    forall p :: Has(s.sys.cur.voters, p) <==> p in s.procs && s.procs[p].joinedAt == s.Round()
  }

  /** At most as many processes as the roster has pids have joined, or voted, in this round. */
  lemma RosterBounds(s: Net)
    requires Rounds(s)
    ensures Count(s.procs, JoinedIn(s.Round())) <= |s.roster|
    ensures Count(s.procs, VotedIn(s.Round())) <= |s.roster|
  {
    assert Matching(s.procs, JoinedIn(s.Round())) <= s.roster by {
      forall p | p in s.procs && JoinedIn(s.Round())(s.procs[p]) ensures p in s.roster {
        assert Timely(s.Round(), s.started, s.roster, p, s.procs[p]);
      }
    }
    assert Matching(s.procs, VotedIn(s.Round())) <= s.roster by {
      forall p | p in s.procs && VotedIn(s.Round())(s.procs[p]) ensures p in s.roster {
        assert Timely(s.Round(), s.started, s.roster, p, s.procs[p]);
      }
    }
    SubsetSize(Matching(s.procs, JoinedIn(s.Round())), s.roster);
    SubsetSize(Matching(s.procs, VotedIn(s.Round())), s.roster);
  }

  /** In the next round, nobody has joined or voted yet. */
  lemma NextRoundIsNew(s: Net, p: int)
    requires Rounds(s) && Enabled(s, Step.Rotate(p))
    ensures var s' := Next(s, Step.Rotate(p));
      Count(s'.procs, JoinedIn(s'.Round())) == 0 && Count(s'.procs, VotedIn(s'.Round())) == 0
  {
    var s' := Next(s, Step.Rotate(p));
    WakeIsSimilar(s.procs, Others(s.sys.miners, p), p, s'.procs[p]);
    forall q | q in s'.procs
      ensures !JoinedIn(s'.Round())(s'.procs[q]) && !VotedIn(s'.Round())(s'.procs[q])
    {
      assert Timely(s.Round(), s.started, s.roster, q, s.procs[q]);
      assert q != p ==> Similar(s.procs[q], s'.procs[q]);
    }
    CountZero(s'.procs, JoinedIn(s'.Round()));
    CountZero(s'.procs, VotedIn(s'.Round()));
  }

  /** How the three counts change with a step that stays in the round. */
  lemma CountsMove(s: Net, s': Net, p: int)
    requires OthersSimilar(s.procs, s'.procs, p) && s'.history == s.history
    ensures Count(s'.procs, JoinedIn(s'.Round()))
         == Count(s.procs, JoinedIn(s.Round())) - One(p in s.procs && s.procs[p].joinedAt == s.Round())
            + One(s'.procs[p].joinedAt == s.Round())
    ensures Count(s'.procs, VotedIn(s'.Round()))
         == Count(s.procs, VotedIn(s.Round())) - One(p in s.procs && s.procs[p].votedAt == s.Round())
            + One(s'.procs[p].votedAt == s.Round())
    ensures Count(s'.procs, Owes)
         == Count(s.procs, Owes) - One(p in s.procs && Owes(s.procs[p])) + One(Owes(s'.procs[p]))
  {
    CountOneMoved(s.procs, s'.procs, p, JoinedIn(s.Round()));
    CountOneMoved(s.procs, s'.procs, p, VotedIn(s.Round()));
    CountOneMoved(s.procs, s'.procs, p, Owes);
  }

  /** Being listed as a voter follows joinedAt. */
  lemma ListedMove(s: Net, s': Net, p: int)
    requires OthersSimilar(s.procs, s'.procs, p) && s'.history == s.history
    requires Listed(s)
    requires forall q :: Has(s'.sys.cur.voters, q) <==>
               if q == p then s'.procs[p].joinedAt == s.Round() else Has(s.sys.cur.voters, q)
    ensures Listed(s')
  {
    forall q ensures Has(s'.sys.cur.voters, q) <==> q in s'.procs && s'.procs[q].joinedAt == s'.Round() {
      assert q in s.procs && q != p ==> Similar(s.procs[q], s'.procs[q]);
    }
  }

  lemma ListedStays(s: Net, s': Net, p: int)
    requires OthersSimilar(s.procs, s'.procs, p) && s'.history == s.history
    requires Listed(s) && s'.sys.cur.voters == s.sys.cur.voters
    requires if p in s.procs then s'.procs[p].joinedAt == s.procs[p].joinedAt else s'.procs[p].joinedAt == -1
    ensures Listed(s')
  {
    ListedMove(s, s', p);
  }

  lemma JoinCounts(s: Net, p: int)
    requires Rounds(s) && Counts(s) && Enabled(s, Step.Join(p))
    ensures Counts(Next(s, Step.Join(p)))
  {
    var s' := Next(s, Step.Join(p));
    assert Timely(s.Round(), s.started, s.roster, p, s.procs[p]);
    StepIsOnePidsStep(s, Step.Join(p));
    CountsMove(s, s', p);
    HasAppend(s.sys.cur.voters, Miner(p, s.procs[p].coins));
    ListedMove(s, s', p);
  }

  /** Publishing and voting: one more vote, and one process fewer that owes one. */
  lemma OneVoteMore(s: Net, s': Net, p: int)
    requires Rounds(s) && Counts(s) && OthersSimilar(s.procs, s'.procs, p)
    requires p in s.procs && Owes(s.procs[p]) && !Owes(s'.procs[p])
    requires s'.procs[p].joinedAt == s.procs[p].joinedAt && s'.procs[p].votedAt == s.Round()
    requires s'.history == s.history && s'.sys.cur.voters == s.sys.cur.voters
    requires s'.sys.cur.total == Increment(s.sys.cur.total)
    requires s'.sys.cur.favorable == s.sys.cur.favorable || s'.sys.cur.favorable == Increment(s.sys.cur.favorable)
    ensures Counts(s') && s'.sys.cur.total == s.sys.cur.total + 1
    ensures s'.sys.cur.favorable >= s.sys.cur.favorable
  {
    hide Rounds, OthersSimilar, Owes, Listed, DistinctPids;
    DebtorIsLate(s, p);
    CountsMove(s, s', p);
    ListedStays(s, s', p);
  }

  /** Who owes a vote has not voted in this round, whose counters are still small. */
  lemma DebtorIsLate(s: Net, p: int)
    requires Rounds(s) && Counts(s) && p in s.procs && Owes(s.procs[p])
    ensures s.procs[p].votedAt < s.Round() && s.sys.cur.total <= MAX_MINERS
  {
    RosterBounds(s);
    assert Timely(s.Round(), s.started, s.roster, p, s.procs[p]);
    hide Counts, Count;
  }

  lemma BallotCounts(s: Net, step: Step)
    requires Rounds(s) && Counts(s) && Enabled(s, step) && (step.Publish? || step.Vote?)
    ensures Counts(Next(s, step))
    ensures Next(s, step).sys.cur.total == s.sys.cur.total + 1
  {
    hide Rounds, Counts, OthersNext, CleanNext, PublisherNext, Covers;
    StepIsOnePidsStep(s, step);
    OneVoteMore(s, Next(s, step), step.pid);
  }

  lemma RotateCounts(s: Net, p: int)
    requires Rounds(s) && Counts(s) && Enabled(s, Step.Rotate(p))
    ensures Counts(Next(s, Step.Rotate(p)))
  {
    var s' := Next(s, Step.Rotate(p));
    StepIsOnePidsStep(s, Step.Rotate(p));
    NextRoundIsNew(s, p);
    FreshCounts(s, s', p);
  }

  /** A fresh block, and nobody in its round yet: the debts are carried over. */
  lemma FreshCounts(s: Net, s': Net, p: int)
    requires Counts(s) && OthersSimilar(s.procs, s'.procs, p)
    requires p in s.procs && !Owes(s.procs[p]) && !Owes(s'.procs[p])
    requires |s'.history| == |s.history| + 1 && s'.history[..|s.history|] == s.history
    requires s'.history[|s.history|].block == s.sys.cur
    requires s'.sys.cur.voters == [] && s'.sys.cur.total == 0 && s'.sys.cur.favorable == 0
    requires Count(s'.procs, JoinedIn(s'.Round())) == 0 && Count(s'.procs, VotedIn(s'.Round())) == 0
    ensures Counts(s')
  {
    CountOneMoved(s.procs, s'.procs, p, Owes);
    NobodyListed(s', p);
  }

  lemma NobodyListed(s: Net, p: int)
    requires s.sys.cur.voters == [] && Count(s.procs, JoinedIn(s.Round())) == 0
    ensures Listed(s)
  {
    forall q | q in s.procs ensures s.procs[q].joinedAt != s.Round() {
      if JoinedIn(s.Round())(s.procs[q]) {
        CountPositive(s.procs, q, JoinedIn(s.Round()));
      }
    }
  }

  /** A step that leaves the block's voters and votes alone, and neither makes nor pays a debt. */
  lemma KeepCounts(s: Net, s': Net, p: int)
    requires Counts(s) && OthersSimilar(s.procs, s'.procs, p) && s'.history == s.history
    requires s'.sys.cur.voters == s.sys.cur.voters
    requires s'.sys.cur.total == s.sys.cur.total && s'.sys.cur.favorable == s.sys.cur.favorable
    requires if p in s.procs then s'.procs[p].joinedAt == s.procs[p].joinedAt
        && s'.procs[p].votedAt == s.procs[p].votedAt
                                  && Owes(s'.procs[p]) == Owes(s.procs[p])
             else s'.procs[p].joinedAt == s'.procs[p].votedAt == -1 && !Owes(s'.procs[p])
    ensures Counts(s')
  {
    CountsMove(s, s', p);
    ListedStays(s, s', p);
  }

  lemma NextCounts(s: Net, step: Step)
    requires Rounds(s) && Counts(s) && Enabled(s, step)
    ensures Counts(Next(s, step))
  {
    match step {
      case Join(p) => JoinCounts(s, p);
      case Publish(_) => BallotCounts(s, step);
      case Vote(_) => BallotCounts(s, step);
      case Rotate(p) => RotateCounts(s, p);
      case _ => OtherCounts(s, step);
    }
  }

  lemma OtherCounts(s: Net, step: Step)
    requires Rounds(s) && Counts(s) && Enabled(s, step)
    requires !step.Join? && !step.Publish? && !step.Vote? && !step.Rotate?
    ensures Counts(Next(s, step))
  {
    if step.Admit? {
      AdmitCounts(s, step);
    } else {
      StepIsOnePidsStep(s, step);
      OwnFrame(s, step);
      OwnDebt(s, step);
      KeepBlock(s, step);
      hide Counts, Rounds, OwnNext, OthersSimilar, Owes;
      KeepCounts(s, Next(s, step), step.pid);
    }
  }

  lemma AdmitCounts(s: Net, step: Step)
    requires Counts(s) && Enabled(s, step) && step.Admit?
    ensures Counts(Next(s, step))
  {
    var s' := Next(s, step);
    AdmissionFrame(s, step);
    if s'.procs != s.procs {
      var pr := s'.procs[step.pid];
      assert s' == s.(procs := s.procs[step.pid := pr], named := s'.named, raced := s'.raced);
      assert pr.joinedAt == pr.votedAt == -1 && !Owes(pr);
      OthersUnmoved(s.procs, step.pid, pr);
      hide Counts, OthersSimilar, Next, Owes;
      KeepCounts(s, s', step.pid);
    }
  }

  lemma OwnDebt(s: Net, step: Step)
    requires Enabled(s, step)
    requires !step.Admit? && !step.Join? && !step.Publish? && !step.Vote?
    ensures Owes(OwnNext(s, step)) == Owes(s.procs[step.pid])
  {
  }

  lemma KeepBlock(s: Net, step: Step)
    requires Rounds(s) && Enabled(s, step)
    requires !step.Admit? && !step.Join? && !step.Publish? && !step.Vote? && !step.Rotate?
    ensures var c, c' := s.sys.cur, Next(s, step).sys.cur;
      c'.voters == c.voters && c'.total == c.total && c'.favorable == c.favorable
    ensures Next(s, step).history == s.history
  {
    assert Timely(s.Round(), s.started, s.roster, step.pid, s.procs[step.pid]);
  }

  lemma {:induction false} RunCounts(steps: seq<Step>)
    requires Legal(steps)
    ensures Counts(Run(steps))
  {
    if steps == [] {
      CountZero(START.procs, JoinedIn(0));
      CountZero(START.procs, VotedIn(0));
      CountZero(START.procs, Owes);
    } else {
      RunRounds(steps[..|steps| - 1]);
      RunCounts(steps[..|steps| - 1]);
      NextCounts(Run(steps[..|steps| - 1]), steps[|steps| - 1]);
    }
  }

  // ---------------------------------------------------------------- main results

  lemma ReachableFacts(s: Net)
    requires Reachable(s)
    ensures Registry(s) && Rounds(s) && Counts(s)
  {
    var steps :| Legal(steps) && s == Run(steps);
    RunRegistry(steps);
    RunRounds(steps);
    RunCounts(steps);
  }

  lemma ReachableNext(s: Net, step: Step)
    requires Reachable(s) && Enabled(s, step)
    ensures Reachable(Next(s, step))
  {
    var steps :| Legal(steps) && s == Run(steps);
    assert (steps + [step])[..|steps|] == steps;
    assert Next(s, step) == Run(steps + [step]);
  }

  /** In every reachable state no process is listed twice as a voter of the current block, and
      every listed process was registered at the last rotation (or at the start). Neither the
      number of voters nor the number of votes exceeds the number registered then. */
  lemma VotersOnce(s: Net)
    requires Reachable(s)
    ensures DistinctPids(s.sys.cur.voters)
    ensures forall p :: Has(s.sys.cur.voters, p) ==> p in s.roster
    ensures s.sys.cur.favorable <= s.sys.cur.total <= |s.roster| <= MAX_MINERS
    ensures |s.sys.cur.voters| <= |s.roster|
  {
    ReachableFacts(s);
    RosterBounds(s);
    forall p | Has(s.sys.cur.voters, p) ensures p in s.roster {
      assert Timely(s.Round(), s.started, s.roster, p, s.procs[p]);
    }
  }

  /** Hence the index of line 253 lies inside the list of voters, and the 8-bit vote counters
      never wrap. */
  lemma BlockNeverOverruns(s: Net, p: int)
    requires Reachable(s)
    ensures Enabled(s, Step.Join(p)) ==> |s.sys.cur.voters| < MAX_MINERS
    ensures Enabled(s, Step.Publish(p)) || Enabled(s, Step.Vote(p)) ==> s.sys.cur.total < MAX_MINERS
  {
    if Enabled(s, Step.Join(p)) {
      ReachableNext(s, Step.Join(p));
      VotersOnce(Next(s, Step.Join(p)));
    }
    if Enabled(s, Step.Publish(p)) || Enabled(s, Step.Vote(p)) {
      var step := if Enabled(s, Step.Publish(p)) then Step.Publish(p) else Step.Vote(p);
      ReachableFacts(s);
      BallotCounts(s, step);
      ReachableNext(s, step);
      VotersOnce(Next(s, step));
    }
  }

  /** Vote conservation over whole runs: voters minus votes, summed over all archived blocks
      and the current one, is the number of processes that have joined and not yet voted. */
  lemma VoteConservation(s: Net)
    requires Reachable(s)
    ensures Imbalance(s.history) + |s.sys.cur.voters| - s.sys.cur.total == Count(s.procs, Owes)
  {
    ReachableFacts(s);
  }
}
