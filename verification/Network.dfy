/** The network of miner processes (Proyecto/launch/miner_launch.c) as a transition system
    over an arbitrary number of processes.

    A step is one region executed under the system mutex, one unlocked access of shared
    memory, one completed parallel search, or the arrival of a signal. Assumptions:
    `sem_wait` returns only after it has acquired; a signal is handled when it is sent, so a
    SIGUSR1 wakes a process inside `sigsuspend` and is lost on any other; pids are not
    reused; a winner whose `nanosleep` is interrupted leaves without deleting itself, and its
    `sem_destroy` does not disturb the others. */
module Network {
  import opened CTypes
  import opened Pow
  import opened ParallelSearch
  import opened MinerTable
  import opened MinerSystem
  import opened Counting

  /** Where a process is. The line numbers are the next ones to be executed. */
  datatype Phase =
    | Admitted    // 186: passed the check of line 151, not yet registered
    | Starting    // 205: the first miner, about to set the first block
    | Arriving    // 225: registered, not yet in sigsuspend
    | Waiting     // 225: in sigsuspend
    | LoopTop     // 245
    | Ready       // 249: flags reset
    | Informed    // 251: has read the target
    | Mining      // 258: is a voter of the current block
    | Mined       // 280: its threads have been joined
    | Winning     // 281: took the winner branch
    | Losing      // 344: took the loser branch
    | Counting    // 298: has published, waits for the votes
    | Judging     // 313
    | Awarding    // 314: the acceptance test succeeded
    | Rotating    // 330
    | Voted       // 351: has voted, not yet in sigsuspend
    | Suspended   // 351: in sigsuspend
    | Leaving     // 364
    | Gone        // deleted itself
    | Aborted     // 307: nanosleep interrupted
    | Overran     // line 188 would have written past the table

  /** Local variables of a process; the last three fields are history: the round in which
      it last read a target, joined, and voted (-1: never). */
  datatype Proc = Proc(first: bool, threads: int, phase: Phase, coins: int, target: int, solution: int,
                       usr2: bool, shutdown: bool, polls: int, readAt: int, joinedAt: int, votedAt: int)

  /** An archived block, with the history of its round. */
  datatype Archived = Archived(block: Block, clean: bool, published: bool)

  /** Which target the last publisher of the current block had mined, and whether its search
      covered the preimage. */
  datatype Publisher = Nobody | Mined(target: int, covered: bool)

  /** The process awarded itself the current block of a round (line 314). */
  datatype Prize = Prize(round: nat, pid: int)

  /** `accepted` holds a process once for each acceptance test it has passed (line 313). */
  datatype Net = Net(
    sys: Sys, procs: map<int, Proc>, named: bool, mutexAlive: bool, started: bool,
    // history
    history: seq<Archived>, log: seq<int>, gone: set<int>, roster: set<int>,
    accepted: multiset<int>, prizes: seq<Prize>, raced: bool, clean: bool, publisher: Publisher)
  {
    /** The number of rotations so far. */
    function Round(): nat { |history| }
  }

  datatype Step =
    | Admit(pid: int, threads: int) | Register(pid: int) | Kick(pid: int) | Pause(pid: int) | Top(pid: int)
    | Read(pid: int) | Join(pid: int) | Mine(pid: int, schedule: seq<nat>) | Decide(pid: int)
    | Publish(pid: int) | Poll(pid: int) | Judge(pid: int) | Award(pid: int) | Rotate(pid: int)
    | Vote(pid: int) | Leave(pid: int) | Signal(pid: int) | Abort(pid: int)

  const MAX_POLLS := 5

  const ZERO_BLOCK := Block(0, 0, 0, 0, [], 0, 0)

  const START := Net(Sys([], ZERO_BLOCK, ZERO_BLOCK), map[], false, true, false,
                     [], [], {}, {}, multiset{}, [], false, true, Nobody)

  function SearchFor(pr: Proc): Config {
    Config(HASH, pr.threads, pr.target)
  }

  predicate Covers(pr: Proc)
    requires pr.threads != 0
  {
    SearchFor(pr).Covered()
  }

  predicate Asleep(ph: Phase) { ph.Waiting? || ph.Suspended? }
  predicate Ended(ph: Phase) { ph.Gone? || ph.Aborted? || ph.Overran? }

  predicate IsAdmitted(pr: Proc) { pr.phase.Admitted? }

  /** The effect of SIGUSR1 on the processes listed. */
  function Wake(procs: map<int, Proc>, pids: seq<int>): map<int, Proc> {
    map p | p in procs :: if p in pids && Asleep(procs[p].phase) then procs[p].(phase := LoopTop) else procs[p]
  }

  /** The effect of SIGUSR2 on the processes listed. */
  function Flag(procs: map<int, Proc>, pids: seq<int>): map<int, Proc> {
    map p | p in procs :: if p in pids then procs[p].(usr2 := true) else procs[p]
  }

  function PidSet(ms: seq<Miner>): set<int> {
    set i | 0 <= i < |ms| :: ms[i].pid
  }

  predicate Enabled(s: Net, step: Step) {
    if step.Admit? then
      step.pid !in s.procs && 1 <= step.threads <= 9 && (s.procs == map[] || s.named)
    else
      step.pid in s.procs &&
      var pr := s.procs[step.pid];
      match step
      case Register(_) => pr.phase.Admitted? && s.mutexAlive
      case Kick(_) => pr.phase.Starting? && s.mutexAlive
      case Pause(_) => pr.phase.Arriving? || pr.phase.Voted?
      case Top(_) => pr.phase.LoopTop?
      case Read(_) => pr.phase.Ready?
      case Join(_) => pr.phase.Informed? && s.mutexAlive
      case Mine(_, schedule) =>
        pr.phase.Mining? && pr.threads >= 1 && Finished(After(SearchFor(pr), Cell(0, pr.solution), schedule))
      case Decide(_) => pr.phase.Mined?
      case Publish(_) => pr.phase.Winning? && s.mutexAlive
      case Poll(_) => pr.phase.Counting?
      case Judge(_) => pr.phase.Judging?
      case Award(_) => pr.phase.Awarding?
      case Rotate(_) => pr.phase.Rotating? && s.mutexAlive
      case Vote(_) => pr.phase.Losing? && s.mutexAlive
      case Leave(_) => pr.phase.Leaving? && s.mutexAlive
      case Signal(_) => !Ended(pr.phase)
      case Abort(_) => pr.phase.Counting?
  }

  function Next(s: Net, step: Step): Net
    requires Enabled(s, step)
  {
    if step.Admit? then AdmitNext(s, step.pid, step.threads)
    else Net(
      SysNext(s, step), OthersNext(s, step)[step.pid := OwnNext(s, step)],
      s.named && !step.Leave? && !step.Abort?,
      s.mutexAlive && !(step.Leave? && |s.sys.miners| == 1),
      s.started || step.Kick?,
      if step.Rotate? then s.history + [Archived(s.sys.cur, s.clean, s.publisher != Nobody)] else s.history,
      if step.Register? && HasRoom(s) then s.log + [step.pid] else s.log,
      if step.Leave? then s.gone + {step.pid} else s.gone,
      if step.Kick? || step.Rotate? then PidSet(s.sys.miners) else s.roster,
      if step.Judge? && Unanimous(s.sys.cur) then s.accepted + multiset{step.pid} else s.accepted,
      if step.Award? then s.prizes + [Prize(s.Round(), step.pid)] else s.prizes,
      s.raced,
      CleanNext(s, step),
      PublisherNext(s, step))
  }

  predicate HasRoom(s: Net) { |s.sys.miners| < MAX_MINERS }

  function NewProc(first: bool, threads: int): Proc {
    Proc(first, threads, Admitted, 0, 0, 0, false, false, 0, -1, -1, -1)
  }

  /** The first process creates the memory; a later one is turned away if the table is full,
      and removes the name of the shared memory as it leaves. */
  function AdmitNext(s: Net, p: int, threads: int): Net {
    var first := s.procs == map[];
    if !first && |s.sys.miners| == MAX_MINERS then s.(named := false)
    else s.(procs := s.procs[p := NewProc(first, threads)],
            named := true,
            raced := s.raced || exists q :: q in s.procs && IsAdmitted(s.procs[q]))
  }

  /** The local variables of the process that takes the step. */
  function OwnNext(s: Net, step: Step): Proc
    requires Enabled(s, step) && !step.Admit?
  {
    var pr, cur := s.procs[step.pid], s.sys.cur;
    match step
    case Register(_) => pr.(phase := if !HasRoom(s) then Overran else if pr.first then Starting else Arriving)
    case Kick(_) => pr.(phase := LoopTop)
    case Pause(_) => pr.(phase := if pr.phase.Arriving? then Waiting else Suspended)
    case Top(_) => if pr.shutdown then pr.(phase := Leaving) else pr.(phase := Ready, usr2 := false)
    case Read(_) => pr.(phase := Informed, target := cur.target, readAt := s.Round())
    case Join(_) => pr.(phase := Mining, joinedAt := s.Round())
    case Mine(_, schedule) =>
      pr.(phase := Phase.Mined, solution := After(SearchFor(pr), Cell(0, pr.solution), schedule).cell.solution)
    case Decide(_) => pr.(phase := if pr.usr2 then Losing else Winning)
    case Publish(_) => pr.(phase := Phase.Counting, votedAt := s.Round())
    case Poll(_) =>
      if cur.total != |cur.voters| && pr.polls != MAX_POLLS then pr.(polls := pr.polls + 1)
      else pr.(phase := Judging, polls := 0)
    case Judge(_) => pr.(phase := if Unanimous(cur) then Awarding else Rotating)
    case Award(_) => pr.(phase := Rotating, coins := ToShort(pr.coins + 1))
    case Rotate(_) => pr.(phase := LoopTop)
    case Vote(_) => pr.(phase := Voted, votedAt := s.Round())
    case Leave(_) => pr.(phase := Gone)
    case Signal(_) => pr.(shutdown := true, phase := if Asleep(pr.phase) then LoopTop else pr.phase)
    case Abort(_) => pr.(phase := Aborted)
  }

  /** The other processes: those signalled by the kill loops. */
  function OthersNext(s: Net, step: Step): map<int, Proc> {
    match step
    case Kick(p) => Wake(s.procs, Others(s.sys.miners, p))
    case Rotate(p) => Wake(s.procs, Others(s.sys.miners, p))
    case Publish(p) => Flag(s.procs, Others(s.sys.cur.voters, p))
    case _ => s.procs
  }

  /** The shared memory. */
  function SysNext(s: Net, step: Step): Sys
    requires Enabled(s, step) && !step.Admit?
  {
    var pr := s.procs[step.pid];
    match step
    case Register(p) => if HasRoom(s) then s.sys.Register(Miner(p, 0)) else s.sys
    case Kick(_) => s.sys.SetFirstBlock()
    case Join(p) => s.sys.Join(Miner(p, pr.coins))
    case Publish(_) => s.sys.Publish(pr.solution)
    case Vote(_) => s.sys.Vote(pr.solution)
    case Award(p) => s.sys.Award(p)
    case Rotate(_) => s.sys.Rotate()
    case Leave(p) => if s.sys.miners == [] then s.sys else s.sys.Leave(p)
    case _ => s.sys
  }

  /** A round is clean as long as every process that joins has read its target in this round
      and has a search that covers it, and every process that votes joined in this round. */
  predicate CleanNext(s: Net, step: Step)
    requires Enabled(s, step) && !step.Admit?
  {
    var pr := s.procs[step.pid];
    match step
    case Kick(_) => true
    case Rotate(_) => true
    case Join(_) => s.clean && pr.readAt == s.Round() && pr.threads != 0 && Covers(pr)
    case Publish(_) => s.clean && pr.joinedAt == s.Round()
    case Vote(_) => s.clean && pr.joinedAt == s.Round()
    case _ => s.clean
  }

  function PublisherNext(s: Net, step: Step): Publisher
    requires Enabled(s, step) && !step.Admit?
  {
    var pr := s.procs[step.pid];
    match step
    case Kick(_) => Nobody
    case Rotate(_) => Nobody
    case Publish(_) => Publisher.Mined(pr.target, pr.threads != 0 && Covers(pr))
    case _ => s.publisher
  }

  // ---------------------------------------------------------------- schedules

  /** Each step of the schedule is enabled where it is taken. */
  predicate Legal(steps: seq<Step>)
    decreases |steps|, 0
  {
    steps == [] || (Legal(steps[..|steps| - 1]) && Enabled(Run(steps[..|steps| - 1]), steps[|steps| - 1]))
  }

  /** The state after a schedule. */
  function Run(steps: seq<Step>): Net
    requires Legal(steps)
    decreases |steps|, 1
  {
    if steps == [] then START else Next(Run(steps[..|steps| - 1]), steps[|steps| - 1])
  }

  /** Every state the network can reach. */
  ghost predicate Reachable(s: Net) {
    exists steps :: Legal(steps) && s == Run(steps)
  }

  lemma {:induction false} LegalPrefix(steps: seq<Step>, k: nat)
    requires Legal(steps) && k <= |steps|
    ensures Legal(steps[..k])
    decreases |steps|
  {
    if k == |steps| {
      assert steps[..k] == steps;
    } else {
      assert steps[..|steps| - 1][..k] == steps[..k];
      LegalPrefix(steps[..|steps| - 1], k);
    }
  }

  /** One step in the middle of a schedule. */
  lemma RunStep(steps: seq<Step>, i: nat)
    requires Legal(steps) && i < |steps|
    ensures Legal(steps[..i]) && Legal(steps[..i + 1])
    ensures Enabled(Run(steps[..i]), steps[i]) && Run(steps[..i + 1]) == Next(Run(steps[..i]), steps[i])
    ensures Reachable(Run(steps[..i]))
  {
    hide Legal, Run, Reachable;
    LegalPrefix(steps, i + 1);
    LastStep(steps[..i + 1]);
    assert steps[..i + 1][..i] == steps[..i];
  }

  /** The last step of a schedule. */
  lemma LastStep(steps: seq<Step>)
    requires Legal(steps) && |steps| > 0
    ensures var front, step := steps[..|steps| - 1], steps[|steps| - 1];
      && Legal(front) && Enabled(Run(front), step) && Run(steps) == Next(Run(front), step)
      && Reachable(Run(front))
  {
    hide Enabled, Next;
  }

  /** A schedule extended by one step. */
  lemma Extend(steps: seq<Step>, step: Step)
    requires Legal(steps) && Enabled(Run(steps), step)
    ensures Legal(steps + [step]) && Run(steps + [step]) == Next(Run(steps), step)
  {
    assert (steps + [step])[..|steps|] == steps;
  }

  // ---------------------------------------------------------------- what a step does to others

  /** All a step can do to a process other than its own: wake it, or set its SIGUSR2 flag. */
  predicate Similar(a: Proc, b: Proc) {
    && b == a.(phase := b.phase, usr2 := b.usr2)
    && (b.phase == a.phase || (Asleep(a.phase) && b.phase.LoopTop?))
  }

  ghost predicate OthersSimilar(m: map<int, Proc>, m': map<int, Proc>, p: int) {
    && m'.Keys == m.Keys + {p}
    && (forall q :: q in m && q != p ==> Similar(m[q], m'[q]))
  }

  /** A step acts on its own process, and leaves the others similar. */
  lemma StepIsOnePidsStep(s: Net, step: Step)
    requires Enabled(s, step) && (step.Admit? ==> Next(s, step).procs != s.procs)
    ensures OthersSimilar(s.procs, Next(s, step).procs, step.pid)
  {
    var s', p := Next(s, step), step.pid;
    if step.Kick? || step.Rotate? {
      WakeIsSimilar(s.procs, Others(s.sys.miners, p), p, s'.procs[p]);
    } else if step.Publish? {
      FlagIsSimilar(s.procs, Others(s.sys.cur.voters, p), p, s'.procs[p]);
    } else {
      assert s'.procs == s.procs[p := s'.procs[p]];
    }
  }

  lemma WakeIsSimilar(m: map<int, Proc>, pids: seq<int>, p: int, pr: Proc)
    requires p in m
    ensures OthersSimilar(m, Wake(m, pids)[p := pr], p)
  {
  }

  lemma FlagIsSimilar(m: map<int, Proc>, pids: seq<int>, p: int, pr: Proc)
    requires p in m
    ensures OthersSimilar(m, Flag(m, pids)[p := pr], p)
  {
  }

  /** What a step does to a process that sleeps. */
  lemma SleeperNext(s: Net, step: Step, q: int)
    requires Enabled(s, step) && q in s.procs && Asleep(s.procs[q].phase)
    ensures q in Next(s, step).procs
    ensures Next(s, step).procs[q].phase
         == if step == Signal(q) || ((step.Rotate? || step.Kick?) && q in Others(s.sys.miners, step.pid)) then LoopTop
            else s.procs[q].phase
  {
    if step.Admit? {
      AdmissionFrame(s, step);
      hide Next;
    } else if step.pid == q {
      assert step == Signal(q);
    } else {
      hide SysNext, CleanNext, PublisherNext, OwnNext, Others;
      assert Next(s, step).procs[q] == OthersNext(s, step)[q];
    }
  }

  /** An admission changes nothing but the processes, the name and the history of overlaps. */
  lemma AdmissionFrame(s: Net, step: Step)
    requires Enabled(s, step) && step.Admit?
    ensures var s' := Next(s, step);
      && s' == s.(procs := s'.procs, named := s'.named, raced := s'.raced)
      && (s'.procs == s.procs || exists first :: s'.procs == s.procs[step.pid := NewProc(first, step.threads)])
  {
    var first := s.procs == map[];
    assert Next(s, step).procs == s.procs || Next(s, step).procs == s.procs[step.pid := NewProc(first, step.threads)];
  }

  /** Which local variables a step of the process itself can change. */
  lemma OwnFrame(s: Net, step: Step)
    requires Enabled(s, step) && !step.Admit?
    ensures var a, b := s.procs[step.pid], OwnNext(s, step);
      && Next(s, step).procs[step.pid] == b
      && b.first == a.first && b.threads == a.threads
      && (step.Read? || (b.target == a.target && b.readAt == a.readAt))
      && (step.Join? || b.joinedAt == a.joinedAt)
      && (step.Publish? || step.Vote? || b.votedAt == a.votedAt)
      && (step.Award? || b.coins == a.coins)
      && (step.Mine? || b.solution == a.solution)
  {
  }

  /** Counting a property that no step of another process can change. */
  lemma CountOneMoved(m: map<int, Proc>, m': map<int, Proc>, p: int, f: Proc -> bool)
    requires OthersSimilar(m, m', p)
    requires forall a, b :: Similar(a, b) ==> f(a) == f(b)
    ensures Count(m', f) == Count(m, f) - One(p in m && f(m[p])) + One(f(m'[p]))
  {
    var others := set q | q in m && q != p && f(m[q]);
    MatchingSplit(m, p, f, others);
    forall q ensures q in others <==> q in m' && q != p && f(m'[q]) {
      if q in m && q != p {
        assert Similar(m[q], m'[q]);
      }
    }
    MatchingSplit(m', p, f, others);
  }
}
