/** A miner that is alone accepts itself in every round, so its coins count its rounds - as a
    `short`. After 32768 rounds the next block records less for it than the one before. */
module NetworkAlone {
  import opened CTypes
  import opened Modular
  import opened Pow
  import opened ParallelSearch
  import opened MinerTable
  import opened Network
  import opened NetworkChain
  import opened NetworkWallets
  import opened NetworkRaces

  /** Process 1 is the only one, at its loop top after n rounds. */
  ghost predicate Alone(s: Net, n: nat) {
    && s.procs.Keys == {1} && s.mutexAlive && s.sys.miners == [Miner(1, 0)]
    && s.sys.cur.voters == [] && s.sys.cur.total == 0 && s.sys.cur.favorable == 0
    && (var pr := s.procs[1];
        pr.phase.LoopTop? && !pr.shutdown && pr.threads == 1 && pr.polls == 0 && pr.coins == ToShort(n))
    && PrizesOf(s.prizes, 1) == n
    && |s.history| == n && forall k :: 0 <= k < n ==> s.history[k].block.voters == [Miner(1, ToShort(k))]
  }

  /** It has joined the block. */
  ghost predicate Joined(s: Net, n: nat) {
    && s.procs.Keys == {1} && s.mutexAlive && s.sys.miners == [Miner(1, 0)]
    && s.sys.cur.voters == [Miner(1, ToShort(n))] && s.sys.cur.total == 0 && s.sys.cur.favorable == 0
    && (var pr := s.procs[1];
        pr.phase.Mining? && !pr.usr2 && !pr.shutdown && pr.threads == 1 && pr.polls == 0 && pr.coins == ToShort(n))
    && PrizesOf(s.prizes, 1) == n
    && |s.history| == n && forall k :: 0 <= k < n ==> s.history[k].block.voters == [Miner(1, ToShort(k))]
  }

  lemma JoinsAlone(s: Net, n: nat) returns (s': Net)
    requires Reachable(s) && Alone(s, n)
    ensures Reachable(s') && Joined(s', n)
  {
    hide Reachable, ToShort, Covers;
    s' := Reads(s, 1);
    s' := Joins(s', 1);
    assert s'.sys.cur.voters == [Miner(1, ToShort(n))];
  }

  /** Whether its search finds anything does not matter. */
  lemma SearchesAlone(s: Net, n: nat) returns (s': Net)
    requires Reachable(s) && Joined(s, n)
    ensures Reachable(s') && 1 in s'.procs
    ensures s' == s.(procs := s.procs[1 := s.procs[1].(phase := Phase.Mined, solution := s'.procs[1].solution)])
  {
    hide Reachable;
    var pr := s.procs[1];
    HashIsGood();
    var schedule := CanFinish(SearchFor(pr), Cell(0, pr.solution), []);
    assert [] + schedule == schedule;
    s' := Moves(s, Mine(1, schedule));
  }

  lemma PublishesAlone(s: Net, n: nat) returns (s': Net)
    requires Reachable(s) && Joined(s, n)
    ensures Reachable(s') && s'.procs.Keys == {1} && s'.mutexAlive && s'.sys.miners == s.sys.miners
    ensures s'.sys.cur.voters == s.sys.cur.voters && s'.sys.cur.total == s'.sys.cur.favorable == 1
    ensures s'.history == s.history && s'.prizes == s.prizes
    ensures var pr := s'.procs[1];
      pr.phase.Counting? && !pr.shutdown && pr.threads == 1 && pr.polls == 0 && pr.coins == ToShort(n)
  {
    hide Reachable, ToShort, Covers;
    s' := SearchesAlone(s, n);
    s' := Decides(s', 1);
    s' := Publishes(s', 1);
  }

  lemma RotatesAlone(s: Net, n: nat) returns (s': Net)
    requires Reachable(s) && Joined(s, n)
    ensures Reachable(s') && Alone(s', n + 1)
  {
    hide Reachable, ToShort, Covers;
    var t := PublishesAlone(s, n);
    t := IsAccepted(t, 1);
    t := Awards(t, 1);
    s' := Rotates(t, 1);
    assert s'.procs.Keys == {1};
    assert s'.history[..n] == s.history && s'.history[n].block.voters == [Miner(1, ToShort(n))];
    assert s'.prizes[..|s.prizes|] == s.prizes;
    ShortSuccessor(n);
  }

  lemma StartsAlone() returns (s: Net)
    ensures Reachable(s) && Alone(s, 0)
  {
    StartReachable();
    hide Reachable;
    s := Enrolls(START, 1);
    s := Kicks(s, 1);
    assert s.procs.Keys == {1};
    ModIdentity(0x8000, 0x1_0000);
  }

  lemma {:induction false} RunsAlone(n: nat) returns (s: Net)
    ensures Reachable(s) && Alone(s, n)
  {
    hide Reachable, Alone, Joined;
    if n == 0 {
      s := StartsAlone();
    } else {
      s := RunsAlone(n - 1);
      s := JoinsAlone(s, n - 1);
      s := RotatesAlone(s, n - 1);
    }
  }

  /** The bound of `NetworkWallets.WalletsOnlyGrow` is tight: with one prize more than a `short`
      holds, the records of a process decrease in some run. */
  lemma RecordsCanDecrease() returns (s: Net)
    ensures Reachable(s) && PrizesOf(s.prizes, 1) == SHORT_MAX + 1 && !Monotone(Blocks(s), 1)
  {
    hide Reachable, Alone, Joined, PrizesOf, PrizesBefore, Monotone;
    var n := SHORT_MAX + 1;
    s := RunsAlone(n);
    s := JoinsAlone(s, n);
    JoinedTooRich(s, n);
    MonotoneIff(s, 1);
  }

  lemma JoinedTooRich(s: Net, n: nat)
    requires Reachable(s) && Joined(s, n) && n == SHORT_MAX + 1
    ensures PrizesOf(s.prizes, 1) == SHORT_MAX + 1
    ensures Lists(s, n, 1) && PrizesBefore(s.prizes, 1, n) > SHORT_MAX
  {
    hide Reachable, PrizesOf, PrizesBefore;
    RecordIsCount(s, n, 0);
    assert Blocks(s)[n].voters[0] == Miner(1, -32768);
    if PrizesBefore(s.prizes, 1, n) <= SHORT_MAX {
      ShortIdentity(PrizesBefore(s.prizes, 1, n));
    }
  }
}
