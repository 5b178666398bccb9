/** Runs of the miner network in which a promise of the program is not kept, each with the
    unlocked access that is to blame. */
module NetworkRaces {
  import opened CTypes
  import opened Pow
  import opened ParallelSearch
  import opened MinerTable
  import opened MinerSystem
  import opened Counting
  import opened Network
  import opened NetworkRounds

  // ---------------------------------------------------------------- two processes

  /** Process 1 is the first miner, process 2 a second one; both are registered. At most the
      first has been accepted yet, in round 0. */
  function Pair(sys: Sys, a: Proc, b: Proc, started: bool, history: seq<Archived>, roster: set<int>,
                accepted: bool, clean: bool, publisher: Publisher): Net
  {
    Net(sys, map[1 := a, 2 := b], true, true, started, history, [1, 2], {}, roster,
        if accepted then multiset{1} else multiset{}, if accepted then [Prize(0, 1)] else [], false, clean, publisher)
  }

  const TABLE: seq<Miner> := [Miner(1, 0), Miner(2, 0)]

  const FIRST := Proc(true, 1, LoopTop, 0, 0, 0, false, false, 0, -1, -1, -1)

  const SECOND := Proc(false, 1, LoopTop, 0, 0, 0, false, false, 0, -1, -1, -1)

  lemma StartReachable()
    ensures Reachable(START)
  {
    assert Legal([]) && Run([]) == START;
  }

  // ---------------------------------------------------------------- single steps

  /** A process passes the check and registers, with nobody in between. */
  lemma Enrolls(s: Net, p: int) returns (s': Net)
    requires p !in s.procs && (s.procs == map[] || s.named) && s.mutexAlive && HasRoom(s) && Reachable(s)
    requires forall q :: q in s.procs ==> !IsAdmitted(s.procs[q])
    ensures Reachable(s')
    ensures var first := s.procs == map[];
      s' == s.(sys := s.sys.Register(Miner(p, 0)), log := s.log + [p], named := true,
               procs := s.procs[p := Newcomer(first, if first then Starting else Arriving)])
  {
    hide Reachable;
    var t := Admits(s, p);
    s' := Registers(t, p);
    assert s'.procs == s.procs[p := s'.procs[p]];
  }

  lemma Admits(s: Net, p: int) returns (s': Net)
    requires p !in s.procs && (s.procs == map[] || s.named) && HasRoom(s) && Reachable(s)
    requires forall q :: q in s.procs ==> !IsAdmitted(s.procs[q])
    ensures Reachable(s')
    ensures s' == s.(procs := s.procs[p := Newcomer(s.procs == map[], Admitted)], named := true)
  {
    ReachableNext(s, Admit(p, 1));
    hide Reachable;
    s' := Next(s, Admit(p, 1));
  }

  lemma Registers(s: Net, p: int) returns (s': Net)
    requires p in s.procs && IsAdmitted(s.procs[p]) && s.mutexAlive && HasRoom(s) && Reachable(s)
    ensures Reachable(s')
    ensures s' == s.(sys := s.sys.Register(Miner(p, 0)), log := s.log + [p],
                     procs := s.procs[p := s.procs[p].(phase := if s.procs[p].first then Starting else Arriving)])
  {
    ReachableNext(s, Step.Register(p));
    hide Reachable;
    s' := Next(s, Step.Register(p));
  }

  function Newcomer(first: bool, phase: Phase): Proc {
    Proc(first, 1, phase, 0, 0, 0, false, false, 0, -1, -1, -1)
  }

  /** A step that touches only the local variables of its process. */
  lemma Moves(s: Net, step: Step) returns (s': Net)
    requires Reachable(s) && Enabled(s, step)
    requires step.Pause? || step.Top? || step.Read? || step.Mine? || step.Decide? || step.Poll? || step.Signal?
    ensures Reachable(s') && s' == s.(procs := s.procs[step.pid := OwnNext(s, step)])
  {
    ReachableNext(s, step);
    s' := Next(s, step);
  }

  lemma Sleeps(s: Net, p: int) returns (s': Net)
    requires p in s.procs && s.procs[p].phase.Arriving? && Reachable(s)
    ensures Reachable(s') && s' == s.(procs := s.procs[p := s.procs[p].(phase := Waiting)])
  {
    s' := Moves(s, Pause(p));
  }

  lemma Decides(s: Net, p: int) returns (s': Net)
    requires p in s.procs && s.procs[p].phase.Mined? && Reachable(s)
    ensures Reachable(s')
    ensures s' == s.(procs := s.procs[p := s.procs[p].(phase := if s.procs[p].usr2 then Losing else Winning)])
  {
    s' := Moves(s, Decide(p));
  }

  /** The acceptance test. */
  lemma IsJudged(s: Net, p: int) returns (s': Net)
    requires p in s.procs && s.procs[p].phase.Judging? && Reachable(s)
    ensures Reachable(s')
    ensures var passes := Unanimous(s.sys.cur);
      s' == s.(procs := s.procs[p := s.procs[p].(phase := if passes then Awarding else Rotating)],
               accepted := if passes then s.accepted + multiset{p} else s.accepted)
  {
    ReachableNext(s, Step.Judge(p));
    hide Reachable;
    s' := Next(s, Step.Judge(p));
  }

  /** All votes are in and favourable: the winner stops waiting, and its test succeeds. */
  lemma IsAccepted(s: Net, p: int) returns (s': Net)
    requires p in s.procs && s.procs[p].phase.Counting? && s.procs[p].polls == 0 && Reachable(s)
    requires s.sys.cur.total == |s.sys.cur.voters| == s.sys.cur.favorable
    ensures Reachable(s')
    ensures s' == s.(procs := s.procs[p := s.procs[p].(phase := Awarding)], accepted := s.accepted + multiset{p})
  {
    hide Reachable;
    var t := Moves(s, Poll(p));
    assert t.procs == s.procs[p := s.procs[p].(phase := Judging)];
    s' := IsJudged(t, p);
    assert s'.procs == s.procs[p := s'.procs[p]];
  }

  /** A process at the loop top resets its flags and reads the target. */
  lemma Reads(s: Net, p: int) returns (s': Net)
    requires p in s.procs && s.procs[p].phase.LoopTop? && !s.procs[p].shutdown && Reachable(s)
    ensures Reachable(s')
    ensures s' == s.(procs := s.procs[p := 
               s.procs[p].(phase := Informed, usr2 := false, target := s.sys.cur.target, readAt := s.Round())])
  {
    hide Reachable;
    var t := Moves(s, Step.Top(p));
    assert t.procs == s.procs[p := s.procs[p].(phase := Ready, usr2 := false)];
    s' := Moves(t, Read(p));
    assert s'.procs == s.procs[p := s'.procs[p]];
  }

  lemma Joins(s: Net, p: int) returns (s': Net)
    requires p in s.procs && s.procs[p].phase.Informed? && s.mutexAlive && s.procs[p].threads == 1 && Reachable(s)
    ensures Reachable(s')
    ensures s' == s.(sys := s.sys.Join(Miner(p, s.procs[p].coins)),
                     procs := s.procs[p := s.procs[p].(phase := Mining, joinedAt := s.Round())],
                     clean := s.clean && s.procs[p].readAt == s.Round() && Covers(s.procs[p]))
  {
    ReachableNext(s, Step.Join(p));
    s' := Next(s, Step.Join(p));
  }

  /** A process that has joined runs its search to the end. */
  lemma Searches(s: Net, p: int, found: int) returns (s': Net)
    requires p in s.procs && s.procs[p].phase.Mining? && s.procs[p].threads == 1 && Reachable(s)
    requires Covers(s.procs[p]) && Preimage(HASH, s.procs[p].target) == found
    ensures Reachable(s') && s' == s.(procs := s.procs[p := s.procs[p].(phase := Phase.Mined, solution := found)])
  {
    var pr := s.procs[p];
    HashIsGood();
    var schedule := CanFinish(SearchFor(pr), Cell(0, pr.solution), []);
    assert [] + schedule == schedule;
    SearchOutcome(SearchFor(pr), Cell(0, pr.solution), schedule);
    s' := Moves(s, Mine(p, schedule));
  }

  lemma Publishes(s: Net, p: int) returns (s': Net)
    requires p in s.procs && s.procs[p].phase.Winning? && s.mutexAlive && s.procs[p].threads == 1 && Reachable(s)
    ensures Reachable(s')
    ensures s' == s.(sys := s.sys.Publish(s.procs[p].solution),
                     procs := Flag(s.procs, Others(s.sys.cur.voters, p))[p :=
                       s.procs[p].(phase := Phase.Counting, votedAt := s.Round())],
                     clean := s.clean && s.procs[p].joinedAt == s.Round(),
                     publisher := Publisher.Mined(s.procs[p].target, Covers(s.procs[p])))
  {
    ReachableNext(s, Step.Publish(p));
    s' := Next(s, Step.Publish(p));
  }

  lemma Votes(s: Net, p: int) returns (s': Net)
    requires p in s.procs && s.procs[p].phase.Losing? && s.mutexAlive && Reachable(s)
    ensures Reachable(s')
    ensures s' == s.(sys := s.sys.Vote(s.procs[p].solution),
                     procs := s.procs[p := s.procs[p].(phase := Voted, votedAt := s.Round())],
                     clean := s.clean && s.procs[p].joinedAt == s.Round())
  {
    ReachableNext(s, Step.Vote(p));
    s' := Next(s, Step.Vote(p));
  }

  lemma Awards(s: Net, p: int) returns (s': Net)
    requires p in s.procs && s.procs[p].phase.Awarding? && Reachable(s)
    ensures Reachable(s')
    ensures s' == s.(sys := s.sys.Award(p), prizes := s.prizes + [Prize(s.Round(), p)],
                     procs := s.procs[p := s.procs[p].(phase := Rotating, coins := ToShort(s.procs[p].coins + 1))])
  {
    hide Reachable;
    ReachableNext(s, Step.Award(p));
    s' := Next(s, Step.Award(p));
  }

  lemma Rotates(s: Net, p: int) returns (s': Net)
    requires p in s.procs && s.procs[p].phase.Rotating? && s.mutexAlive && Reachable(s)
    ensures Reachable(s')
    ensures s' == s.(sys := s.sys.Rotate(),
                     history := s.history + [Archived(s.sys.cur, s.clean, s.publisher != Nobody)],
                     procs := Wake(s.procs, Others(s.sys.miners, p))[p := s.procs[p].(phase := LoopTop)],
                     roster := PidSet(s.sys.miners), clean := true, publisher := Nobody)
  {
    ReachableNext(s, Step.Rotate(p));
    s' := Next(s, Step.Rotate(p));
  }

  lemma Kicks(s: Net, p: int) returns (s': Net)
    requires p in s.procs && s.procs[p].phase.Starting? && s.mutexAlive && Reachable(s)
    ensures Reachable(s')
    ensures s' == s.(sys := s.sys.SetFirstBlock(), started := true,
                     procs := Wake(s.procs, Others(s.sys.miners, p))[p := s.procs[p].(phase := LoopTop)],
                     roster := PidSet(s.sys.miners), clean := true, publisher := Nobody)
  {
    ReachableNext(s, Kick(p));
    s' := Next(s, Kick(p));
  }

  lemma TableOfTwo()
    ensures PidSet(TABLE) == {1, 2}
    ensures 2 in Others(TABLE, 1)
  {
    assert TABLE[0].pid == 1 && TABLE[1].pid == 2;
    OthersAre(TABLE, 1, 2);
  }

  // ---------------------------------------------------------------- the runs

  /** Both processes register ... */
  lemma BothEnrolled() returns (s: Net)
    ensures Reachable(s)
    ensures s == Pair(Sys(TABLE, ZERO_BLOCK, ZERO_BLOCK), Newcomer(true, Starting), Newcomer(false, Arriving), false,
                      [], {}, false, true, Nobody)
  {
    hide Reachable;
    StartReachable();
    s := Enrolls(START, 1);
    assert s.procs == map[1 := Newcomer(true, Starting)];
    s := Enrolls(s, 2);
  }

  /** ... the second goes to sleep, and the first starts the first round. */
  lemma BothStarted() returns (s: Net)
    ensures Reachable(s)
    ensures s == Pair(Sys(TABLE, ZERO_BLOCK, ZERO_BLOCK), FIRST, SECOND, true, [], {1, 2}, false, true, Nobody)
  {
    hide Reachable;
    s := BothEnrolled();
    s := Sleeps(s, 2);
    assert s.procs == map[1 := Newcomer(true, Starting), 2 := Newcomer(false, Waiting)];
    TableOfTwo();
    s := Kicks(s, 1);
    assert s.procs == map[1 := FIRST, 2 := SECOND];
  }

  /** The targets of the first two rounds. */
  const M0 := 38722988
  const M1 := 82781454

  lemma Preimages()
    ensures Preimage(HASH, 0) == M0 && Preimage(HASH, M0) == M1
    ensures Config(HASH, 1, 0).Covered() && Config(HASH, 1, M0).Covered()
  {
    assert Config(HASH, 1, 0).Quota() == POW_LIMIT - 1;
  }

  lemma BothRead() returns (s: Net)
    ensures Reachable(s)
    ensures s == Pair(Sys(TABLE, ZERO_BLOCK, ZERO_BLOCK), FIRST.(phase := Informed, readAt := 0),
                      SECOND.(phase := Informed, readAt := 0), true, [], {1, 2}, false, true, Nobody)
  {
    hide Reachable;
    s := BothStarted();
    s := Reads(s, 2);
    assert s.procs == map[1 := FIRST, 2 := SECOND.(phase := Informed, readAt := 0)];
    s := Reads(s, 1);
  }

  lemma FirstJoined() returns (s: Net)
    ensures Reachable(s)
    ensures s == Pair(Sys(TABLE, ZERO_BLOCK, ZERO_BLOCK.(voters := [Miner(1, 0)])),
                      FIRST.(phase := Mining, readAt := 0, joinedAt := 0),
                      SECOND.(phase := Informed, readAt := 0), true, [], {1, 2}, false, true, Nobody)
  {
    hide Reachable;
    Preimages();
    s := BothRead();
    s := Joins(s, 1);
    assert s.procs == map[1 := FIRST.(phase := Mining, readAt := 0, joinedAt := 0),
                          2 := SECOND.(phase := Informed, readAt := 0)];
  }

  /** The first process mines block 0 alone, while the second has only read its target. */
  lemma FirstWins() returns (s: Net)
    ensures Reachable(s)
    ensures s == Pair(Sys(TABLE, ZERO_BLOCK, ZERO_BLOCK.(voters := [Miner(1, 0)])),
                      FIRST.(phase := Winning, solution := M0, readAt := 0, joinedAt := 0),
                      SECOND.(phase := Informed, readAt := 0), true, [], {1, 2}, false, true, Nobody)
  {
    hide Reachable;
    Preimages();
    s := FirstJoined();
    s := Searches(s, 1, M0);
    s := Decides(s, 1);
    assert s.procs == map[1 := FIRST.(phase := Winning, solution := M0, readAt := 0, joinedAt := 0),
                          2 := SECOND.(phase := Informed, readAt := 0)];
  }

  const WON := Block(0, 0, M0, 1, [Miner(1, 0)], 1, 1)

  /** The first process publishes, ... */
  lemma FirstPublished() returns (s: Net)
    ensures Reachable(s)
    ensures s == Pair(Sys(TABLE, ZERO_BLOCK, WON.(winner := 0)),
                      FIRST.(phase := Phase.Counting, solution := M0, readAt := 0, joinedAt := 0, votedAt := 0),
                      SECOND.(phase := Informed, readAt := 0), true, [], {1, 2}, false, true, Publisher.Mined(0, true))
  {
    hide Reachable;
    Preimages();
    s := FirstWins();
    OthersAre([Miner(1, 0)], 1, 2);
    s := Publishes(s, 1);
    assert s.procs == map[1 := FIRST.(phase := Phase.Counting, solution := M0, readAt := 0, joinedAt := 0,
                                      votedAt := 0),
                          2 := SECOND.(phase := Informed, readAt := 0)];
  }

  /** ... is accepted by its own vote, ... */
  lemma FirstAccepted() returns (s: Net)
    ensures Reachable(s)
    ensures s == Pair(Sys(TABLE, ZERO_BLOCK, WON),
                      FIRST.(phase := Rotating, solution := M0, coins := 1, readAt := 0, joinedAt := 0, votedAt := 0),
                      SECOND.(phase := Informed, readAt := 0), true, [], {1, 2}, true, true, Publisher.Mined(0, true))
  {
    hide Reachable;
    s := FirstPublished();
    s := IsAccepted(s, 1);
    s := Awards(s, 1);
    assert s.procs == map[1 := FIRST.(phase := Rotating, solution := M0, coins := 1, readAt := 0, joinedAt := 0,
                                      votedAt := 0),
                          2 := SECOND.(phase := Informed, readAt := 0)];
  }

  /** ... and rotates to block 1. */
  lemma FirstRotates() returns (s: Net)
    ensures Reachable(s)
    ensures s == Pair(Sys(TABLE, WON, FreshBlock(0, M0)),
                      FIRST.(solution := M0, coins := 1, readAt := 0, joinedAt := 0, votedAt := 0),
                      SECOND.(phase := Informed, readAt := 0), true, [Archived(WON, true, true)], {1, 2}, true,
                      true, Nobody)
  {
    hide Reachable;
    s := FirstAccepted();
    TableOfTwo();
    s := Rotates(s, 1);
    assert s.procs == map[1 := FIRST.(solution := M0, coins := 1, readAt := 0, joinedAt := 0, votedAt := 0),
                          2 := SECOND.(phase := Informed, readAt := 0)];
  }

  const STALE := SECOND.(phase := Phase.Mined, solution := M0, readAt := 0, joinedAt := 1)

  const FRESH := FIRST.(solution := M1, target := M0, coins := 1, readAt := 1, joinedAt := 1, votedAt := 0)

  /** The second process joins and mines block 1 with the target of block 0. */
  lemma SecondMined() returns (s: Net)
    ensures Reachable(s)
    ensures s == Pair(Sys(TABLE, WON, FreshBlock(0, M0).(voters := [Miner(2, 0)])),
                      FIRST.(solution := M0, coins := 1, readAt := 0, joinedAt := 0, votedAt := 0), STALE,
                      true, [Archived(WON, true, true)], {1, 2}, true, false, Nobody)
  {
    hide Reachable;
    Preimages();
    s := FirstRotates();
    s := Joins(s, 2);
    s := Searches(s, 2, M0);
    assert s.procs == map[1 := FIRST.(solution := M0, coins := 1, readAt := 0, joinedAt := 0, votedAt := 0),
                          2 := STALE];
  }

  lemma FirstRejoined() returns (s: Net)
    ensures Reachable(s)
    ensures s == Pair(Sys(TABLE, WON, FreshBlock(0, M0).(voters := [Miner(2, 0), Miner(1, 1)])),
                      FRESH.(phase := Mining, solution := M0), STALE,
                      true, [Archived(WON, true, true)], {1, 2}, true, false, Nobody)
  {
    hide Reachable;
    Preimages();
    s := SecondMined();
    s := Reads(s, 1);
    s := Joins(s, 1);
    assert s.procs == map[1 := FRESH.(phase := Mining, solution := M0), 2 := STALE];
  }

  /** The first process mines block 1 with its own target, and takes the winner branch. */
  lemma FirstWinsAgain() returns (s: Net)
    ensures Reachable(s)
    ensures s == Pair(Sys(TABLE, WON, FreshBlock(0, M0).(voters := [Miner(2, 0), Miner(1, 1)])),
                      FRESH.(phase := Winning), STALE,
                      true, [Archived(WON, true, true)], {1, 2}, true, false, Nobody)
  {
    hide Reachable;
    Preimages();
    s := FirstRejoined();
    s := Searches(s, 1, M1);
    s := Decides(s, 1);
    assert s.procs == map[1 := FRESH.(phase := Winning), 2 := STALE];
  }

  const SPLIT := Block(1, M0, M1, 0, [Miner(2, 0), Miner(1, 1)], 2, 1)

  lemma FirstPublishedAgain() returns (s: Net)
    ensures Reachable(s)
    ensures s.procs == map[1 := FRESH.(phase := Phase.Counting, votedAt := 1), 2 := STALE.(usr2 := true)]
    ensures s.sys.cur == SPLIT.(total := 1) && s.history == [Archived(WON, true, true)] && !s.clean && s.mutexAlive
  {
    hide Reachable;
    Preimages();
    s := FirstWinsAgain();
    OthersAre(SPLIT.voters, 1, 2);
    assert SPLIT.voters[0].pid == 2;
    s := Publishes(s, 1);
  }

  lemma BothVoted() returns (s: Net)
    ensures Reachable(s)
    ensures s.procs == map[1 := FRESH.(phase := Phase.Counting, votedAt := 1),
                           2 := STALE.(phase := Voted, usr2 := true, votedAt := 1)]
    ensures s.sys.cur == SPLIT && s.history == [Archived(WON, true, true)] && !s.clean && s.mutexAlive
  {
    hide Reachable;
    s := FirstPublishedAgain();
    s := Decides(s, 2);
    s := Votes(s, 2);
  }

  /** The process joined and voted in this round, and its own target and the block's were both
      within reach of its search. */
  predicate DidItsPart(s: Net, p: int) {
    && p in s.procs && s.procs[p].joinedAt == s.procs[p].votedAt == s.Round()
    && s.procs[p].threads != 0 && Covers(s.procs[p]) && Covers(s.procs[p].(target := s.sys.cur.target))
  }

  /** The stale read of line 249: everyone who joined block 1 has voted before the next
      rotation, with a search that covered both its own target and the block's. And yet one of
      the two votes is against, because process 2 joined block 1 with the target of block 0. */
  lemma StaleTargetSplitsVote() returns (s: Net)
    ensures Reachable(s) && Count(s.procs, Owes) == 0
    ensures forall p :: Has(s.sys.cur.voters, p) ==> DidItsPart(s, p)
    ensures s.sys.cur.total == |s.sys.cur.voters| == 2 && s.sys.cur.favorable == 1
    ensures !s.clean
  {
    Preimages();
    s := BothVoted();
    forall p | p in s.procs ensures !Owes(s.procs[p]) {
      assert p == 1 || p == 2;
    }
    CountZero(s.procs, Owes);
    forall p | Has(s.sys.cur.voters, p) ensures DidItsPart(s, p) {
      assert p == 1 || p == 2;
    }
  }

  /** The run goes on: the vote is split, so the first process only rotates the block. */
  lemma SplitBlockArchived() returns (s: Net)
    ensures Reachable(s) && |s.history| == 2 && s.history[0].block == WON && s.history[1].block == SPLIT
  {
    hide Reachable;
    s := BothVoted();
    s := Moves(s, Poll(1));
    s := IsJudged(s, 1);
    s := Rotates(s, 1);
  }

  /** The unlocked test of line 280: both processes of one round can take the winner branch. */
  lemma TwoWinners() returns (s: Net)
    ensures Reachable(s)
    ensures s == Pair(Sys(TABLE, ZERO_BLOCK, TWO_JOINED), WINNING.(phase := Winning), RIVAL, true, [], {1, 2},
                      false, true, Nobody)
    ensures s.procs.Keys == {1, 2} && s.procs[1].phase == Winning && s.procs[2].phase == Winning
    ensures s.procs[1].joinedAt == s.procs[2].joinedAt == s.Round()
  {
    hide Reachable;
    Preimages();
    s := FirstWins();
    s := Joins(s, 2);
    s := Searches(s, 2, M0);
    s := Decides(s, 2);
    assert s.procs == map[1 := WINNING.(phase := Winning), 2 := RIVAL];
  }

  const TWO_JOINED := ZERO_BLOCK.(voters := [Miner(1, 0), Miner(2, 0)])

  const WINNING := FIRST.(phase := Phase.Counting, solution := M0, readAt := 0, joinedAt := 0)

  const RIVAL := SECOND.(phase := Winning, solution := M0, readAt := 0, joinedAt := 0)

  /** A winner looks n times in vain. */
  lemma {:induction false} LooksInVain(s: Net, p: int, n: nat) returns (s': Net)
    requires p in s.procs && s.procs[p].phase.Counting? && s.procs[p].polls == 0 && n <= MAX_POLLS && Reachable(s)
    requires s.sys.cur.total != |s.sys.cur.voters|
    ensures Reachable(s') && s' == s.(procs := s.procs[p := s.procs[p].(polls := n)])
  {
    hide Reachable;
    if n == 0 {
      s' := s;
      assert s.procs == s.procs[p := s.procs[p].(polls := 0)];
    } else {
      var t := LooksInVain(s, p, n - 1);
      s' := Moves(t, Poll(p));
      assert s'.procs == s.procs[p := s'.procs[p]];
    }
  }

  /** A winner that stops waiting for a vote. */
  lemma GivesUpWaiting(s: Net, p: int) returns (s': Net)
    requires p in s.procs && s.procs[p].phase.Counting? && s.procs[p].polls == 0 && Reachable(s)
    requires s.sys.cur.total != |s.sys.cur.voters|
    ensures Reachable(s') && s' == s.(procs := s.procs[p := s.procs[p].(phase := Judging)])
  {
    hide Reachable, Next;
    var t := LooksInVain(s, p, MAX_POLLS);
    s' := Moves(t, Poll(p));
    assert s'.procs == s.procs[p := s'.procs[p]];
  }

  const ONE_VOTE := TWO_JOINED.(solution := M0, total := 1, favorable := 1)

  /** The first of two winners publishes, and stops waiting for the second, ... */
  lemma RivalIsLate() returns (s: Net)
    ensures Reachable(s) && s.mutexAlive && s.sys == Sys(TABLE, ZERO_BLOCK, ONE_VOTE) && s.history == []
    ensures s.procs == map[1 := WINNING.(phase := Judging, votedAt := 0), 2 := RIVAL.(usr2 := true)]
  {
    hide Reachable;
    s := TwoWinners();
    OthersAre(TWO_JOINED.voters, 1, 2);
    assert TWO_JOINED.voters[1].pid == 2;
    s := Publishes(s, 1);
    assert s.procs == map[1 := WINNING.(votedAt := 0), 2 := RIVAL.(usr2 := true)];
    s := GivesUpWaiting(s, 1);
    assert s.procs == map[1 := WINNING.(phase := Judging, votedAt := 0), 2 := RIVAL.(usr2 := true)];
  }

  /** ... is paid, ... */
  lemma FirstIsPaid() returns (s: Net)
    ensures Reachable(s) && s.mutexAlive && s.history == []
    ensures s.sys == Sys(TABLE, ZERO_BLOCK, ONE_VOTE.(winner := 1))
    ensures s.procs == map[1 := WINNING.(phase := Rotating, coins := 1, votedAt := 0), 2 := RIVAL.(usr2 := true)]
  {
    hide Reachable, Next, Enabled, Covers;
    s := RivalIsLate();
    s := IsJudged(s, 1);
    s := Awards(s, 1);
    assert s.procs == map[1 := WINNING.(phase := Rotating, coins := 1, votedAt := 0), 2 := RIVAL.(usr2 := true)];
  }

  /** ... rotates, ... */
  lemma RivalIsLeftBehind() returns (s: Net)
    ensures Reachable(s) && s.mutexAlive && |s.history| == 1
    ensures s.sys == Sys(TABLE, ONE_VOTE.(winner := 1), FreshBlock(0, M0))
    ensures s.procs == map[1 := FIRST.(solution := M0, coins := 1, readAt := 0, joinedAt := 0, votedAt := 0),
                           2 := RIVAL.(usr2 := true)]
  {
    hide Reachable, Next, Enabled, Covers;
    s := FirstIsPaid();
    s := Rotates(s, 1);
    assert s.procs == map[1 := FIRST.(solution := M0, coins := 1, readAt := 0, joinedAt := 0, votedAt := 0),
                          2 := RIVAL.(usr2 := true)];
  }

  /** ... joins the next block, ... */
  lemma RivalIsAWholeRoundBehind() returns (s: Net)
    ensures Reachable(s) && s.mutexAlive && |s.history| == 1
    ensures s.sys.cur == FreshBlock(0, M0).(voters := [Miner(1, 1)])
    ensures s.procs.Keys == {1, 2} && s.procs[1].votedAt == 0 && s.procs[2] == RIVAL.(usr2 := true)
  {
    hide Reachable, Next, Enabled, Covers;
    s := RivalIsLeftBehind();
    s := Reads(s, 1);
    s := Joins(s, 1);
  }

  /** ... and only then does the second publish: its own old solution, on a block that it never
      joined. */
  lemma RivalPublishes() returns (s: Net)
    ensures Reachable(s) && s.mutexAlive && |s.history| == 1
    ensures s.sys.cur == Block(1, M0, M0, 0, [Miner(1, 1)], 1, 1)
    ensures s.procs.Keys == {1, 2} && s.procs[1].votedAt == 0
    ensures s.procs[2].phase.Counting? && s.procs[2].polls == 0
  {
    hide Reachable, Next, Enabled, Covers;
    s := RivalIsAWholeRoundBehind();
    s := Publishes(s, 2);
  }

  /** Votes and voters now agree in number, so it does not wait: it is paid for a block whose
      only voter has not voted, and whose solution is wrong. */
  lemma LateWinnerIsPaid() returns (s: Net)
    ensures Reachable(s) && |s.history| == 2
    ensures var block := s.history[1].block;
      && Unanimous(block) && block.winner == 2 && |block.voters| == block.total == 1
      && block.voters[0].pid == 1 && 1 in s.procs && s.procs[1].votedAt == 0
      && PowHash(block.solution) != block.target
  {
    hide Reachable;
    s := RivalPublishes();
    s := IsAccepted(s, 2);
    s := Awards(s, 2);
    s := Rotates(s, 2);
  }

  /** The first miner starts the round before the second one is asleep. */
  lemma KickedTooEarly() returns (s: Net)
    ensures Reachable(s)
    ensures s == Pair(Sys(TABLE, ZERO_BLOCK, ZERO_BLOCK), FIRST, SECOND.(phase := Waiting), true, [], {1, 2},
                      false, true, Nobody)
  {
    hide Reachable;
    s := BothEnrolled();
    TableOfTwo();
    s := Kicks(s, 1);
    assert s.procs == map[1 := FIRST, 2 := Newcomer(false, Arriving)];
    s := Sleeps(s, 2);
    assert s.procs == map[1 := FIRST, 2 := SECOND.(phase := Waiting)];
  }

  /** Its alarm goes off before it has mined anything. */
  lemma FirstShutsDown() returns (s: Net)
    ensures Reachable(s)
    ensures s == Pair(Sys(TABLE, ZERO_BLOCK, ZERO_BLOCK), FIRST.(phase := Phase.Leaving, shutdown := true),
                      SECOND.(phase := Waiting), true, [], {1, 2}, false, true, Nobody)
  {
    hide Reachable;
    s := KickedTooEarly();
    s := Moves(s, Signal(1));
    assert s.procs == map[1 := FIRST.(shutdown := true), 2 := SECOND.(phase := Waiting)];
    s := Moves(s, Step.Top(1));
    assert s.procs == map[1 := FIRST.(phase := Phase.Leaving, shutdown := true), 2 := SECOND.(phase := Waiting)];
  }

  lemma FirstGone() returns (s: Net)
    ensures Reachable(s) && s.started && !s.named
    ensures s.procs == map[1 := FIRST.(phase := Gone, shutdown := true), 2 := SECOND.(phase := Waiting)]
  {
    s := FirstShutsDown();
    ReachableNext(s, Step.Leave(1));
    hide Reachable;
    s := Next(s, Step.Leave(1));
  }

  /** The comment at lines 221-224 does not hold: a process that misses the first SIGUSR1 is
      woken by the next one only if there is a next one. Here the first miner leaves before it
      rotates, and the second sleeps until its own alarm: no other step of the network is
      possible. */
  lemma SleeperIsNeverWoken() returns (s: Net)
    ensures Reachable(s) && s.started
    ensures s.procs.Keys == {1, 2} && s.procs[1].phase == Gone && s.procs[2].phase == Waiting && !s.procs[2].shutdown
    ensures forall step :: Enabled(s, step) ==> step == Signal(2)
  {
    hide Reachable, Enabled;
    s := FirstGone();
    forall step ensures Enabled(s, step) ==> step == Signal(2) {
      OnlySignal(s, step);
    }
  }

  lemma OnlySignal(s: Net, step: Step)
    requires s.procs.Keys == {1, 2} && s.procs[1].phase == Gone && s.procs[2].phase == Waiting && !s.named
    ensures Enabled(s, step) ==> step == Signal(2)
  {
  }

  // ---------------------------------------------------------------- the table overruns

  /** n processes have registered one after the other. */
  ghost predicate Populated(s: Net, n: nat) {
    && |s.sys.miners| == n && s.named && s.mutexAlive && !s.raced
    && (forall p :: p in s.procs <==> 0 <= p < n)
    && (forall p :: p in s.procs ==> !s.procs[p].phase.Admitted?)
  }

  lemma {:induction false} Populate(n: nat) returns (s: Net)
    requires 1 <= n <= MAX_MINERS
    ensures Reachable(s) && Populated(s, n)
  {
    hide Reachable;
    if n == 1 {
      StartReachable();
      s := START;
    } else {
      s := Populate(n - 1);
    }
    s := Enrolls(s, n - 1);
  }

  /** A hundred miners can be registered at once, and never more. */
  lemma TableHoldsAHundred() returns (s: Net)
    ensures Reachable(s) && |s.sys.miners| == 100
    ensures forall s' :: Reachable(s') ==> |s'.sys.miners| <= 100
  {
    s := Populate(100);
    forall s' | Reachable(s') ensures |s'.sys.miners| <= 100 {
      ReachableFacts(s');
    }
  }

  /** Lines 151 and 186-190: the check and the registration are separate, so two processes
      that pass the check together can overrun the table. */
  lemma TableCanOverrun() returns (s: Net)
    ensures Reachable(s) && s.raced && exists p :: p in s.procs && s.procs[p].phase.Overran?
  {
    s := Populate(MAX_MINERS - 1);
    var p, q := MAX_MINERS - 1, MAX_MINERS;
    ReachableNext(s, Admit(p, 1));
    s := Next(s, Admit(p, 1));
    assert IsAdmitted(s.procs[p]);
    ReachableNext(s, Admit(q, 1));
    s := Next(s, Admit(q, 1));
    ReachableNext(s, Step.Register(p));
    s := Next(s, Step.Register(p));
    ReachableNext(s, Step.Register(q));
    s := Next(s, Step.Register(q));
    assert s.procs[q].phase.Overran?;
  }
}
