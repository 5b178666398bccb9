/** The miner and the monitor of P1: two processes, two pipes, one pair of numbers per
    round. The miner searches a preimage of its target, sends the pair, and on acceptance
    takes the solution as its next target. */
module PipeChain {
  import opened Pow
  import opened ParallelSearch

  /** Arguments of the miner; `rounds <= 0` means without end. */
  datatype Job = Job(rounds: int, threads: int, target: int) {
    ghost predicate Good() {
      1 <= threads
    }

    function Config(t: int): ParallelSearch.Config {
      ParallelSearch.Config(HASH, threads, t)
    }

    /** The search of the workers finds a preimage of t. */
    predicate Covers(t: int)
      requires threads != 0
    {
      Config(t).Covered()
    }
  }

  datatype MinerPc = Searching | Sending | Receiving | Failed | Succeeded
  datatype MonitorPc = Listening | Answering(resp: bool) | HungUp
  datatype Verdict = Verdict(pair: Cell, accepted: bool)

  /** Both processes, the two pipes, and the verdicts given so far. */
  datatype Net = Net(miner: MinerPc, round: nat, target: int, cell: Cell,
                     minerPipe: seq<Cell>, monitorPipe: seq<bool>, monitor: MonitorPc, log: seq<Verdict>)

  datatype Step = Mine(schedule: seq<nat>) | Send | Receive | Check | Answer | HangUp

  function Init(job: Job): Net {
    Net(Searching, 0, job.target, Cell(0, 0), [], [], Listening, [])
  }

  predicate Enabled(job: Job, s: Net, step: Step)
    requires 1 <= job.threads
  {
    match step
    case Mine(schedule) => s.miner.Searching? && Finished(After(job.Config(s.target), s.cell, schedule))
    case Send => s.miner.Sending?
    case Receive => s.miner.Receiving? && s.monitorPipe != []
    case Check => s.monitor.Listening? && s.minerPipe != []
    case Answer => s.monitor.Answering?
    case HangUp => s.monitor.Listening? && s.minerPipe == [] && (s.miner.Failed? || s.miner.Succeeded?)
  }

  function Next(job: Job, s: Net, step: Step): Net
    requires 1 <= job.threads && Enabled(job, s, step)
  {
    match step
    case Mine(schedule) =>
      s.(miner := Sending, cell := After(job.Config(s.target), s.cell, schedule).cell)
    case Send =>
      s.(miner := Receiving, minerPipe := s.minerPipe + [s.cell])
    case Receive =>
      var t := s.(monitorPipe := s.monitorPipe[1..]);
      if !s.monitorPipe[0] then t.(miner := Failed)
      else t.(miner := if job.rounds <= 0 || s.round + 1 < job.rounds then Searching else Succeeded,
              round := s.round + 1, target := s.cell.solution)
    case Check =>
      var pair := s.minerPipe[0];
      var ok := PowHash(pair.solution) == pair.target;
      s.(minerPipe := s.minerPipe[1..], monitor := Answering(ok), log := s.log + [Verdict(pair, ok)])
    case Answer =>
      s.(monitor := Listening, monitorPipe := s.monitorPipe + [s.monitor.resp])
    case HangUp =>
      s.(monitor := HungUp)
  }

  /** Each step of the schedule is enabled where it is taken. */
  predicate Legal(job: Job, steps: seq<Step>)
    requires 1 <= job.threads
    decreases |steps|, 0
  {
    steps == [] ||
    (Legal(job, steps[..|steps| - 1]) && Enabled(job, Reach(job, steps[..|steps| - 1]), steps[|steps| - 1]))
  }

  function Reach(job: Job, steps: seq<Step>): Net
    requires 1 <= job.threads && Legal(job, steps)
    decreases |steps|, 1
  {
    if steps == [] then Init(job)
    else Next(job, Reach(job, steps[..|steps| - 1]), steps[|steps| - 1])
  }

  // ---------------------------------------------------------------- the expected pairs

  /** The pair that round k sends, as a function of the arguments alone. */
  function PairOf(job: Job, k: nat): Cell
    requires 1 <= job.threads
  {
    if k == 0 then job.Config(job.target).Outcome(Cell(0, 0))
    else job.Config(PairOf(job, k - 1).solution).Outcome(PairOf(job, k - 1))
  }

  /** What the monitor makes of the k-th pair. */
  function VerdictOn(job: Job, k: nat): Verdict
    requires 1 <= job.threads
  {
    Verdict(PairOf(job, k), PowHash(PairOf(job, k).solution) == PairOf(job, k).target)
  }

  ghost predicate Inv(job: Job, s: Net)
    requires 1 <= job.threads
  {
    && (s.miner.Searching? || s.miner.Sending? || s.miner.Receiving? ==> job.rounds <= 0 || s.round < job.rounds)
    && (s.round <= |s.log| <= s.round + 1)
    && (forall k :: 0 <= k < |s.log| ==> s.log[k] == VerdictOn(job, k))
    && (forall k :: 0 <= k < s.round ==> s.log[k].accepted)
    && match s.miner
       case Searching =>
         && s.minerPipe == [] && s.monitorPipe == [] && s.monitor.Listening? && |s.log| == s.round
         && s.cell == (if s.round == 0 then Cell(0, 0) else PairOf(job, s.round - 1))
         && s.target == (if s.round == 0 then job.target else s.cell.solution)
       case Sending =>
         && s.minerPipe == [] && s.monitorPipe == [] && s.monitor.Listening? && |s.log| == s.round
         && s.cell == PairOf(job, s.round)
       case Receiving =>
         && s.cell == PairOf(job, s.round)
         && (|| (s.minerPipe == [s.cell] && s.monitorPipe == [] && s.monitor.Listening? && |s.log| == s.round)
             || (s.minerPipe == [] && s.monitorPipe == [] && |s.log| == s.round + 1
                 && s.monitor == Answering(s.log[s.round].accepted))
             || (s.minerPipe == [] && |s.log| == s.round + 1 && s.monitor.Listening?
                 && s.monitorPipe == [s.log[s.round].accepted]))
       case Failed =>
         && s.minerPipe == [] && s.monitorPipe == [] && !s.monitor.Answering?
         && |s.log| == s.round + 1 && !s.log[s.round].accepted
       case Succeeded =>
         && s.minerPipe == [] && s.monitorPipe == [] && !s.monitor.Answering?
         && |s.log| == s.round && 0 < job.rounds && s.round == job.rounds
  }

  lemma MineInv(job: Job, s: Net, schedule: seq<nat>)
    requires job.Good() && Inv(job, s) && Enabled(job, s, Mine(schedule))
    ensures Inv(job, Next(job, s, Mine(schedule)))
  {
    HashIsGood();
    SearchOutcome(job.Config(s.target), s.cell, schedule);
    assert Next(job, s, Mine(schedule)).cell == job.Config(s.target).Outcome(s.cell) == PairOf(job, s.round);
  }

  lemma SendInv(job: Job, s: Net)
    requires job.Good() && Inv(job, s) && Enabled(job, s, Send)
    ensures Inv(job, Next(job, s, Send))
  {
  }

  lemma ReceiveInv(job: Job, s: Net)
    requires job.Good() && Inv(job, s) && Enabled(job, s, Receive)
    ensures Inv(job, Next(job, s, Receive))
  {
    assert s.monitorPipe == [s.log[s.round].accepted];
    assert s.monitorPipe[1..] == [];
  }

  lemma MonitorStepInv(job: Job, s: Net, step: Step)
    requires job.Good() && Inv(job, s) && Enabled(job, s, step) && (step.Check? || step.Answer? || step.HangUp?)
    ensures Inv(job, Next(job, s, step))
  {
  }

  lemma {:induction false} ReachInv(job: Job, steps: seq<Step>)
    requires job.Good() && Legal(job, steps)
    ensures Inv(job, Reach(job, steps))
  {
    if steps != [] {
      ReachInv(job, steps[..|steps| - 1]);
      var s, step := Reach(job, steps[..|steps| - 1]), steps[|steps| - 1];
      match step
      case Mine(schedule) => MineInv(job, s, schedule);
      case Send => SendInv(job, s);
      case Receive => ReceiveInv(job, s);
      case _ => MonitorStepInv(job, s, step);
    }
  }

  /** The pipes are in lockstep: at most one message is under way, in one direction, and
      only while the miner waits for its verdict. */
  lemma {:induction false} Lockstep(job: Job, steps: seq<Step>)
    requires job.Good() && Legal(job, steps)
    ensures var s := Reach(job, steps);
            |s.minerPipe| + |s.monitorPipe| + (if s.monitor.Answering? then 1 else 0)
            == (if s.miner.Receiving? then 1 else 0)
  {
    ReachInv(job, steps);
  }

  // ---------------------------------------------------------------- what the pairs are

  lemma CoveredPairHashes(job: Job, t: int, before: Cell)
    requires job.Good() && job.Covers(t)
    ensures var pair := job.Config(t).Outcome(before);
            pair.target == t && pair.solution == Preimage(HASH, t) && PowHash(pair.solution) == t
  {
    HashIsGood();
    PreimageIsPreimage(HASH, t);
  }

  /** If the first target is not found, the first pair is the untouched (0, 0), which the
      monitor rejects: 0 does not hash to 0. */
  lemma FirstPair(job: Job)
    requires job.Good()
    ensures PowHash(PairOf(job, 0).solution) == PairOf(job, 0).target <==> job.Covers(job.target)
  {
    if job.Covers(job.target) {
      CoveredPairHashes(job, job.target, Cell(0, 0));
    } else {
      assert PowHash(0) == 4150;
    }
  }

  lemma {:induction false} PairsHash(job: Job, k: nat)
    requires job.Good() && job.Covers(job.target)
    ensures PowHash(PairOf(job, k).solution) == PairOf(job, k).target
  {
    if k == 0 {
      FirstPair(job);
    } else {
      PairsHash(job, k - 1);
      var t := PairOf(job, k - 1).solution;
      if job.Covers(t) {
        CoveredPairHashes(job, t, PairOf(job, k - 1));
      }
    }
  }

  /** While every target so far was covered, round k sends the k-th ancestor of the first
      target and that ancestor's own preimage. */
  lemma {:induction false} PairsAreAncestors(job: Job, k: nat)
    requires job.Good()
    requires forall i :: 0 <= i <= k ==> job.Covers(Ancestor(job.target, i))
    ensures PairOf(job, k) == Cell(Ancestor(job.target, k), Ancestor(job.target, k + 1))
  {
    assert job.Covers(Ancestor(job.target, k));
    if k > 0 {
      PairsAreAncestors(job, k - 1);
    }
  }

  /** The m-th ancestor is the first target that the search does not find. */
  ghost predicate FallsOutAt(job: Job, m: nat)
    requires 1 <= job.threads
  {
    && 0 < m
    && !job.Covers(Ancestor(job.target, m))
    && (forall i :: 0 <= i < m ==> job.Covers(Ancestor(job.target, i)))
  }

  /** Once a target falls in the uncovered tail, the last pair is repeated for ever. */
  lemma {:induction false} PairsRepeat(job: Job, m: nat, k: nat)
    requires job.Good() && FallsOutAt(job, m) && m <= k
    ensures PairOf(job, k) == Cell(Ancestor(job.target, m - 1), Ancestor(job.target, m))
    decreases k
  {
    if k == m {
      PairsAreAncestors(job, m - 1);
    } else {
      PairsRepeat(job, m, k - 1);
    }
  }

  // ---------------------------------------------------------------- main results

  /** The exact outcome of a run, for all arguments and every interleaving. The verdicts are
      those of the expected pairs. If the first target is covered, every verdict accepts, and
      the miner can only end by having run all its rounds. If it is not, the run has at most
      one verdict, a rejection, and the miner can only end by failing on it. */
  lemma OutcomeOfRun(job: Job, steps: seq<Step>)
    requires job.Good() && Legal(job, steps)
    ensures var s := Reach(job, steps);
            && (forall k :: 0 <= k < |s.log| ==> s.log[k] == Verdict(PairOf(job, k), job.Covers(job.target)))
            && (job.Covers(job.target) ==> !s.miner.Failed?)
            && (s.miner.Succeeded? ==> job.Covers(job.target) && |s.log| == job.rounds)
            && (!job.Covers(job.target) ==> |s.log| <= 1 && s.round == 0)
            && (s.miner.Failed? ==> s.log == [Verdict(Cell(0, 0), false)])
  {
    var s := Reach(job, steps);
    ReachInv(job, steps);
    FirstPair(job);
    if job.Covers(job.target) {
      forall k | 0 <= k < |s.log| ensures s.log[k] == Verdict(PairOf(job, k), true) {
        PairsHash(job, k);
      }
    } else if |s.log| > 0 {
      assert !s.log[0].accepted;
    }
  }

  /** The accepted pairs, in closed form: a chain of ancestors up to the first uncovered
      target, and the same pair from there on. */
  lemma PairsOfRun(job: Job, k: nat)
    requires job.Good() && job.Covers(job.target)
    ensures if exists m: nat :: m <= k && FallsOutAt(job, m)
            then forall m: nat :: m <= k && FallsOutAt(job, m)
                   ==> PairOf(job, k) == Cell(Ancestor(job.target, m - 1), Ancestor(job.target, m))
            else PairOf(job, k) == Cell(Ancestor(job.target, k), Ancestor(job.target, k + 1))
  {
    if exists m: nat :: m <= k && FallsOutAt(job, m) {
      forall m: nat | m <= k && FallsOutAt(job, m)
        ensures PairOf(job, k) == Cell(Ancestor(job.target, m - 1), Ancestor(job.target, m))
      {
        PairsRepeat(job, m, k);
      }
    } else {
      AllCovered(job, k);
      PairsAreAncestors(job, k);
    }
  }

  /** If no ancestor up to k is the first uncovered one, none of them is uncovered. */
  lemma {:induction false} AllCovered(job: Job, k: nat)
    requires job.Good() && job.Covers(job.target)
    requires forall m: nat :: m <= k ==> !FallsOutAt(job, m)
    ensures forall i :: 0 <= i <= k ==> job.Covers(Ancestor(job.target, i))
  {
    if k > 0 {
      AllCovered(job, k - 1);
      assert !FallsOutAt(job, k);
    }
  }

  // ---------------------------------------------------------------- every run ends

  /** The miner has exited and the monitor has seen the end of the pipe. */
  predicate Ended(s: Net) {
    s.monitor.HungUp? && (s.miner.Failed? || s.miner.Succeeded?)
  }

  /** The pipes never deadlock: until both processes have exited, one of them can move. */
  lemma NeverStuck(job: Job, steps: seq<Step>)
    requires job.Good() && Legal(job, steps) && !Ended(Reach(job, steps))
    ensures exists step :: Enabled(job, Reach(job, steps), step)
  {
    ReachInv(job, steps);
    SomeoneMoves(job, Reach(job, steps));
  }

  lemma SomeoneMoves(job: Job, s: Net)
    requires job.Good() && Inv(job, s) && !Ended(s)
    ensures exists step :: Enabled(job, s, step)
  {
    match s.miner {
      case Searching =>
        HashIsGood();
        var schedule := CanFinish(job.Config(s.target), s.cell, []);
        assert [] + schedule == schedule;
        assert Enabled(job, s, Mine(schedule));
      case Sending =>
        assert Enabled(job, s, Send);
      case Receiving =>
        assert Enabled(job, s, Check) || Enabled(job, s, Answer) || Enabled(job, s, Receive);
      case _ =>
        assert Enabled(job, s, HangUp);
    }
  }

  /** How many steps of its round, or of the end of the run, have been taken. */
  function Taken(s: Net): nat {
    match s.miner
    case Searching => 0
    case Sending => 1
    case Receiving => if s.minerPipe != [] then 2 else if s.monitor.Answering? then 3 else 4
    case Failed => if s.monitor.HungUp? then 6 else 5
    case Succeeded => if s.monitor.HungUp? then 1 else 0
  }

  /** Every round takes five steps, so a run of N rounds has at most 5 N + 1 steps: with
      `NeverStuck`, every run of finitely many rounds reaches its end. */
  lemma {:induction false} StepsOfRun(job: Job, steps: seq<Step>)
    requires job.Good() && Legal(job, steps)
    ensures |steps| == 5 * Reach(job, steps).round + Taken(Reach(job, steps))
    ensures 0 < job.rounds ==> |steps| <= 5 * job.rounds + 1
  {
    ReachInv(job, steps);
    if steps != [] {
      var front, step := steps[..|steps| - 1], steps[|steps| - 1];
      StepsOfRun(job, front);
      ReachInv(job, front);
      OneStepMore(job, Reach(job, front), step);
    }
  }

  lemma OneStepMore(job: Job, s: Net, step: Step)
    requires job.Good() && Inv(job, s) && Enabled(job, s, step)
    ensures var s' := Next(job, s, step);
      5 * s'.round + Taken(s') == 5 * s.round + Taken(s) + 1
  {
    hide PairOf, VerdictOn;
  }

  // ---------------------------------------------------------------- the two programs

  /** The monitor's loop over everything the miner writes before it closes the pipe. */
  method Monitor(pairs: seq<Cell>) returns (resps: seq<bool>)
    ensures |resps| == |pairs|
    ensures forall k :: 0 <= k < |pairs| ==> (resps[k] <==> PowHash(pairs[k].solution) == pairs[k].target)
  {
    resps := [];
    for k := 0 to |pairs|
      invariant |resps| == k
      invariant forall i :: 0 <= i < k ==> (resps[i] <==> PowHash(pairs[i].solution) == pairs[i].target)
    {
      resps := resps + [PowHash(pairs[k].solution) == pairs[k].target];
    }
  }

  /** The miner's loop, with the threads of each round run in an arbitrary order and the
      verdict of each round taken from the monitor. Rounds are positive, as the launcher
      demands (mrush.c:40). */
  method Miner(job: Job) returns (sent: seq<Cell>, success: bool)
    requires job.Good() && 0 < job.rounds
    ensures success <==> job.Covers(job.target)
    ensures |sent| == if success then job.rounds else 1
    ensures forall k :: 0 <= k < |sent| ==> sent[k] == PairOf(job, k)
  {
    HashIsGood();
    FirstPair(job);
    sent, success := [], true;
    var target, cell := job.target, Cell(0, 0);
    for i := 0 to job.rounds
      invariant |sent| == i && success
      invariant i > 0 ==> job.Covers(job.target)
      invariant forall k :: 0 <= k < i ==> sent[k] == PairOf(job, k)
      invariant cell == if i == 0 then Cell(0, 0) else PairOf(job, i - 1)
      invariant target == if i == 0 then job.target else cell.solution
    {
      var threads := new Threads(job.Config(target), cell);
      threads.JoinAll(cell);
      cell := threads.cell;
      sent := sent + [cell];
      var resps := Monitor([cell]);
      if i > 0 {
        PairsHash(job, i);
      }
      if !resps[0] {
        success := false;
        return;
      }
      target := cell.solution;
    }
  }
}
