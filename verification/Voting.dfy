/** The voting processes of P2 (P2/voting.c): one semaphore for the candidature, one for the
    vote file, and a file to which votes are only ever appended.

    A process that waits for a signal may wait arbitrarily long, and a process that has
    received SIGINT leaves at its next `check_sigint`, with whatever it holds. The file calls
    are taken to succeed, and the vote file to be absent or empty at the start. */
module Voting {
  import opened Counting

  datatype Record = Record(pid: int, yes: bool)

  datatype Tally = Tally(candidate: int, votes: seq<Record>, accepted: bool)

  datatype Phase =
    | StartWait         // 235: waits for the list of pids
    | StartLocked
    | Loop              // 131
    | VoteWait          // 108: lost the candidature, about to vote
    | VoteLocked        // 110: holds the file
    | VoteWritten       // 124
    | Resting           // 125
    | CandidateWait     // 148: is the candidate
    | CandidateLocked   // 152: holds the file
    | CandidateWritten  // 166
    | CheckWait         // 180
    | CheckLocked       // 181: holds the file
    | CheckDone         // 212
    | Stepping          // 215: about to give up the candidature
    | Dead(file: bool, candidature: bool)  // exited, with what it still held

  datatype Step = Open | Lock(pid: int) | Unlock(pid: int) | Try(pid: int) | Append(pid: int, yes: bool)
                | Check(pid: int) | Resume(pid: int) | Release(pid: int) | Die(pid: int)

  /** `file` and `candidature` are the values of the two semaphores. */
  datatype State = State(procs: map<int, Phase>, ready: bool, file: nat, candidature: nat,
                         log: seq<Record>, tallies: seq<Tally>)

  predicate HoldsFile(ph: Phase) {
    ph.StartLocked? || ph.VoteLocked? || ph.VoteWritten? || ph.CandidateLocked? || ph.CandidateWritten?
    || ph.CheckLocked? || ph.CheckDone? || (ph.Dead? && ph.file)
  }

  predicate HoldsCandidature(ph: Phase) {
    Active(ph) || (ph.Dead? && ph.candidature)
  }

  /** An active candidate. */
  predicate Active(ph: Phase) {
    ph.CandidateWait? || ph.CandidateLocked? || ph.CandidateWritten? || ph.CheckWait? || ph.CheckLocked?
    || ph.CheckDone? || ph.Stepping?
  }

  predicate DiedCandidate(ph: Phase) {
    ph.Dead? && ph.candidature
  }

  /** Has written its vote as a candidate and not yet looked at the file. */
  predicate Unchecked(ph: Phase) {
    ph.CandidateWritten? || ph.CheckWait? || ph.CheckLocked?
  }

  /** Followed by a `check_sigint`. */
  predicate Interruptible(ph: Phase) {
    ph.StartWait? || ph.StartLocked? || ph.Loop? || ph.VoteWait? || ph.VoteLocked? || ph.CandidateWait?
    || ph.CandidateLocked? || ph.CheckWait?
  }

  function CountYes(votes: seq<Record>): nat {
    if votes == [] then 0 else CountYes(votes[..|votes| - 1]) + One(votes[|votes| - 1].yes)
  }

  /** The places of the votes that say yes. */
  ghost function YesVotes(votes: seq<Record>): set<int> {
    set i | 0 <= i < |votes| && votes[i].yes
  }

  /** The loop counts each of them once, and nothing else. */
  lemma {:induction false} CountYesIs(votes: seq<Record>)
    ensures CountYes(votes) == |YesVotes(votes)|
  {
    if votes == [] {
      assert YesVotes(votes) == {};
    } else {
      var l := |votes| - 1;
      CountYesIs(votes[..l]);
      assert YesVotes(votes) == YesVotes(votes[..l]) + (if votes[l].yes then {l} else {});
    }
  }

  predicate Enabled(s: State, step: Step) {
    if step.Open? then !s.ready else
    step.pid in s.procs &&
    var ph := s.procs[step.pid];
    match step
    case Lock(_) => (ph.StartWait? || ph.VoteWait? || ph.CandidateWait? || ph.CheckWait?) && s.file > 0
    case Unlock(_) => ph.StartLocked? || ph.VoteWritten? || ph.CandidateWritten? || ph.CheckDone?
    case Try(_) => ph.Loop?
    case Append(_, _) => ph.VoteLocked? || ph.CandidateLocked?
    case Check(_) => ph.CheckLocked?
    case Resume(_) => ph.Resting?
    case Release(_) => ph.Stepping?
    case Die(_) => Interruptible(ph)
  }

  /** The next phase of the process that takes the step. */
  function OwnNext(s: State, step: Step): Phase
    requires Enabled(s, step) && !step.Open?
  {
    var ph := s.procs[step.pid];
    match step
    case Lock(_) =>
      if ph.StartWait? then StartLocked else if ph.VoteWait? then VoteLocked
      else if ph.CandidateWait? then CandidateLocked else CheckLocked
    case Unlock(_) =>
      if ph.StartLocked? then Loop else if ph.VoteWritten? then Resting
      else if ph.CandidateWritten? then CheckWait else Stepping
    case Try(_) => if s.candidature > 0 then CandidateWait else VoteWait
    case Append(_, _) => if ph.VoteLocked? then VoteWritten else CandidateWritten
    case Check(_) => CheckDone
    case Resume(_) => Loop
    case Release(_) => Loop
    case Die(_) => Dead(HoldsFile(ph), HoldsCandidature(ph))
  }

  /** One step, with n processes expected to vote. */
  function Next(n: nat, s: State, step: Step): State
    requires Enabled(s, step)
  {
    if step.Open? then s.(ready := true, file := s.file + 1) else
    var t := s.(procs := s.procs[step.pid := OwnNext(s, step)]);
    match step
    case Lock(_) => t.(file := s.file - 1)
    case Unlock(_) => t.(file := s.file + 1)
    case Try(_) => if s.candidature > 0 then t.(candidature := s.candidature - 1) else t
    case Append(p, yes) => t.(log := s.log + [Record(p, yes)])
    case Check(p) =>
      if |s.log| == n then t.(tallies := s.tallies + [Tally(p, s.log, 2 * CountYes(s.log) > n)]) else t
    case Release(_) => t.(candidature := s.candidature + 1)
    case _ => t
  }

  /** The processes of the run, all before their first wait; the file semaphore is closed and
      the candidature open. */
  function Start(pids: set<int>): State {
    State(map p | p in pids :: StartWait, false, 0, 1, [], [])
  }

  predicate Legal(n: nat, pids: set<int>, steps: seq<Step>)
    decreases |steps|, 0
  {
    steps == [] ||
    (Legal(n, pids, steps[..|steps| - 1]) && Enabled(After(n, pids, steps[..|steps| - 1]), steps[|steps| - 1]))
  }

  function After(n: nat, pids: set<int>, steps: seq<Step>): State
    requires Legal(n, pids, steps)
    decreases |steps|, 1
  {
    if steps == [] then Start(pids) else Next(n, After(n, pids, steps[..|steps| - 1]), steps[|steps| - 1])
  }

  // ---------------------------------------------------------------- invariant

  ghost predicate Accounts(s: State) {
    && s.candidature + Count(s.procs, HoldsCandidature) == 1
    && s.file + Count(s.procs, HoldsFile) == One(s.ready)
  }

  /** A tally made by p from the first n records of the log. */
  ghost predicate FromFirst(n: nat, log: seq<Record>, t: Tally) {
    && n <= |log| && t.votes == log[..n] && t.accepted == (2 * |YesVotes(log[..n])| > n)
    && exists i :: 0 <= i < n && log[i].pid == t.candidate
  }

  predicate HasVoted(log: seq<Record>, p: int) {
    exists i :: 0 <= i < |log| && log[i].pid == p
  }

  ghost predicate Ballots(n: nat, s: State) {
    && (forall p :: p in s.procs && Unchecked(s.procs[p]) ==> HasVoted(s.log, p))
    && |s.tallies| <= 1
    && (s.tallies != [] ==> FromFirst(n, s.log, s.tallies[0]))
    && (s.tallies != [] ==> forall p :: p in s.procs && Unchecked(s.procs[p]) ==> |s.log| > n)
  }

  lemma NextAccounts(n: nat, s: State, step: Step)
    requires Accounts(s) && Enabled(s, step)
    ensures Accounts(Next(n, s, step))
  {
    if !step.Open? {
      CountUpdate(s.procs, step.pid, OwnNext(s, step), HoldsCandidature);
      CountUpdate(s.procs, step.pid, OwnNext(s, step), HoldsFile);
    } else {
      assert !s.ready;
    }
  }

  /** There is only one candidate at a time. */
  lemma OneHolder(s: State, p: int, q: int)
    requires Accounts(s) && p in s.procs && q in s.procs
    requires HoldsCandidature(s.procs[p]) && HoldsCandidature(s.procs[q])
    ensures p == q && s.candidature == 0
  {
    var holders := Matching(s.procs, HoldsCandidature);
    assert {p, q} <= holders;
    SubsetSize({p, q}, holders);
    assert |{p, q}| == if p == q then 1 else 2;
  }

  lemma AppendBallots(n: nat, s: State, p: int, yes: bool)
    requires Accounts(s) && Ballots(n, s) && Enabled(s, Append(p, yes))
    ensures Ballots(n, Next(n, s, Append(p, yes)))
  {
    var s' := Next(n, s, Append(p, yes));
    assert s'.log[|s.log|].pid == p;
    forall q | q in s'.procs && Unchecked(s'.procs[q]) ensures HasVoted(s'.log, q) {
      if q != p {
        var i :| 0 <= i < |s.log| && s.log[i].pid == q;
        assert s'.log[i].pid == q;
      }
    }
    if s.tallies != [] {
      var i :| 0 <= i < n && s.log[i].pid == s.tallies[0].candidate;
      assert s'.log[..n] == s.log[..n] && s'.log[i].pid == s'.tallies[0].candidate;
    }
  }

  lemma CheckBallots(n: nat, s: State, p: int)
    requires Accounts(s) && Ballots(n, s) && Enabled(s, Check(p))
    ensures Ballots(n, Next(n, s, Check(p)))
  {
    var s' := Next(n, s, Check(p));
    assert HasVoted(s.log, p);
    assert s.log[..|s.log|] == s.log;
    CountYesIs(s.log);
    forall q | q in s'.procs ensures !Unchecked(s'.procs[q]) {
      if q != p && Unchecked(s.procs[q]) {
        OneHolder(s, p, q);
      }
    }
  }

  lemma OtherBallots(n: nat, s: State, step: Step)
    requires Ballots(n, s) && Enabled(s, step) && !step.Append? && !step.Check?
    ensures Ballots(n, Next(n, s, step))
  {
    var s' := Next(n, s, step);
    forall q | q in s'.procs && Unchecked(s'.procs[q]) ensures q in s.procs && Unchecked(s.procs[q]) {
    }
  }

  lemma {:induction false} AfterInv(n: nat, pids: set<int>, steps: seq<Step>)
    requires Legal(n, pids, steps)
    ensures Accounts(After(n, pids, steps)) && Ballots(n, After(n, pids, steps))
  {
    if steps == [] {
      CountZero(Start(pids).procs, HoldsCandidature);
      CountZero(Start(pids).procs, HoldsFile);
    } else {
      var s, step := After(n, pids, steps[..|steps| - 1]), steps[|steps| - 1];
      AfterInv(n, pids, steps[..|steps| - 1]);
      NextAccounts(n, s, step);
      match step
      case Append(p, yes) => AppendBallots(n, s, p, yes);
      case Check(p) => CheckBallots(n, s, p);
      case _ => OtherBallots(n, s, step);
    }
  }

  // ---------------------------------------------------------------- main results

  /** The candidature: in every reachable state the value of its semaphore, the number of
      active candidates, and the number of processes that died as candidates add up to 1. */
  lemma Candidature(n: nat, pids: set<int>, steps: seq<Step>)
    requires Legal(n, pids, steps)
    ensures var s := After(n, pids, steps);
      s.candidature + Count(s.procs, Active) + Count(s.procs, DiedCandidate) == 1
  {
    var s := After(n, pids, steps);
    AfterInv(n, pids, steps);
    var active, died := Matching(s.procs, Active), Matching(s.procs, DiedCandidate);
    assert Matching(s.procs, HoldsCandidature) == active + died;
    assert active !! died;
  }

  /** Mutual exclusion on the vote file. */
  lemma FileExclusion(n: nat, pids: set<int>, steps: seq<Step>)
    requires Legal(n, pids, steps)
    ensures var s := After(n, pids, steps);
      s.file + Count(s.procs, HoldsFile) == One(s.ready)
  {
    AfterInv(n, pids, steps);
  }

  /** At most one tally in a whole run. It counts exactly the first n records ever written,
      its candidate's own among them, and accepts on a strict majority of them. */
  lemma OneTally(n: nat, pids: set<int>, steps: seq<Step>)
    requires Legal(n, pids, steps)
    ensures var s := After(n, pids, steps);
      |s.tallies| <= 1 && (s.tallies != [] ==> FromFirst(n, s.log, s.tallies[0]))
  {
    AfterInv(n, pids, steps);
  }

  /** The log only grows: what a later reader finds begins with what an earlier one found. */
  lemma {:induction false} LogGrows(n: nat, pids: set<int>, steps: seq<Step>, k: nat)
    requires Legal(n, pids, steps) && k <= |steps|
    ensures Legal(n, pids, steps[..k])
    ensures After(n, pids, steps[..k]).log <= After(n, pids, steps).log
    ensures After(n, pids, steps[..k]).tallies <= After(n, pids, steps).tallies
    decreases |steps|
  {
    if k == |steps| {
      assert steps[..k] == steps;
    } else {
      var s, step := After(n, pids, steps[..|steps| - 1]), steps[|steps| - 1];
      assert Enabled(s, step) && After(n, pids, steps) == Next(n, s, step);
      assert Legal(n, pids, steps[..|steps| - 1]);
      hide Legal, After;
      NextGrows(n, s, step);
      assert steps[..|steps| - 1][..k] == steps[..k];
      LogGrows(n, pids, steps[..|steps| - 1], k);
    }
  }

  lemma NextGrows(n: nat, s: State, step: Step)
    requires Enabled(s, step)
    ensures s.log <= Next(n, s, step).log && s.tallies <= Next(n, s, step).tallies
  {
  }

  // ---------------------------------------------------------------- one vote per process

  /** The process has not written a vote since it was last in its loop. */
  predicate NotYet(ph: Phase) {
    ph.StartWait? || ph.StartLocked? || ph.Loop? || ph.VoteWait? || ph.VoteLocked? || ph.CandidateWait?
    || ph.CandidateLocked?
  }

  /** The steps that take a process back to its loop. */
  predicate GoesBack(step: Step, p: int) {
    step == Resume(p) || step == Release(p)
  }

  ghost predicate WentBack(steps: seq<Step>, p: int) {
    exists i :: 0 <= i < |steps| && GoesBack(steps[i], p)
  }

  /** Who has voted: a process past its append, or one that went back; nobody else, and nobody
      from outside. */
  ghost predicate Votes(pids: set<int>, s: State, steps: seq<Step>) {
    && s.procs.Keys == pids
    && (forall p :: HasVoted(s.log, p) ==> p in pids)
    && (forall p :: WentBack(steps, p) ==> HasVoted(s.log, p))
    && (forall p :: p in pids && !NotYet(s.procs[p]) && !s.procs[p].Dead? ==> HasVoted(s.log, p))
    && (forall p :: p in pids && NotYet(s.procs[p]) && HasVoted(s.log, p) ==> WentBack(steps, p))
  }

  lemma WentBackStep(steps: seq<Step>, p: int)
    requires |steps| > 0
    ensures WentBack(steps, p) <==> WentBack(steps[..|steps| - 1], p) || GoesBack(steps[|steps| - 1], p)
  {
    var l := |steps| - 1;
    assert forall i :: 0 <= i < l ==> steps[..l][i] == steps[i];
    if i :| 0 <= i < l && GoesBack(steps[..l][i], p) {
      assert GoesBack(steps[i], p);
    }
  }

  lemma HasVotedAppend(log: seq<Record>, r: Record, p: int)
    ensures HasVoted(log + [r], p) <==> HasVoted(log, p) || p == r.pid
  {
    if i :| 0 <= i < |log| && log[i].pid == p {
      assert (log + [r])[i].pid == p;
    }
    assert (log + [r])[|log|] == r;
  }

  lemma NextVotes(n: nat, pids: set<int>, steps: seq<Step>)
    requires |steps| > 0 && Legal(n, pids, steps)
    requires Votes(pids, After(n, pids, steps[..|steps| - 1]), steps[..|steps| - 1])
    ensures Votes(pids, After(n, pids, steps), steps)
  {
    var s, step := After(n, pids, steps[..|steps| - 1]), steps[|steps| - 1];
    var s' := Next(n, s, step);
    assert Enabled(s, step) && After(n, pids, steps) == s';
    hide Legal, After, WentBack, HasVoted;
    assert s'.procs.Keys == pids;
    forall p
      ensures WentBack(steps, p) <==> WentBack(steps[..|steps| - 1], p) || GoesBack(step, p)
      ensures HasVoted(s'.log, p) <==> HasVoted(s.log, p) || (step.Append? && p == step.pid)
    {
      WentBackStep(steps, p);
      if step.Append? {
        HasVotedAppend(s.log, Record(step.pid, step.yes), p);
      }
    }
    VotesMove(n, pids, s, step, steps);
  }

  lemma VotesMove(n: nat, pids: set<int>, s: State, step: Step, steps: seq<Step>)
    requires Enabled(s, step) && |steps| > 0 && Votes(pids, s, steps[..|steps| - 1])
    requires forall p :: WentBack(steps, p) <==> WentBack(steps[..|steps| - 1], p) || GoesBack(step, p)
    requires forall p :: HasVoted(Next(n, s, step).log, p) <==> HasVoted(s.log, p) || (step.Append? && p == step.pid)
    ensures Votes(pids, Next(n, s, step), steps)
  {
    hide WentBack, HasVoted;
    var s' := Next(n, s, step);
    assert s'.procs.Keys == pids;
    if !step.Open? {
      assert s'.procs == s.procs[step.pid := OwnNext(s, step)];
      assert step.pid in pids;
    }
  }

  lemma {:induction false} AfterVotes(n: nat, pids: set<int>, steps: seq<Step>)
    requires Legal(n, pids, steps)
    ensures Votes(pids, After(n, pids, steps), steps)
  {
    if steps != [] {
      AfterVotes(n, pids, steps[..|steps| - 1]);
      NextVotes(n, pids, steps);
    }
  }

  /** Two of the first m records are by the same process. */
  ghost predicate Repeats(log: seq<Record>, m: nat) {
    exists a, b :: 0 <= a < b < m && b < |log| && log[a].pid == log[b].pid
  }

  lemma RepeatsAppend(log: seq<Record>, r: Record, m: nat)
    ensures Repeats(log + [r], m) <==> Repeats(log, m) || (|log| < m && HasVoted(log, r.pid))
  {
    var log' := log + [r];
    if a, b :| 0 <= a < b < m && b < |log'| && log'[a].pid == log'[b].pid {
      assert b < |log| ==> log[a].pid == log[b].pid;
      assert b == |log| ==> log[a].pid == r.pid;
    }
    if a, b :| 0 <= a < b < m && b < |log| && log[a].pid == log[b].pid {
      assert log'[a].pid == log'[b].pid;
    } else if |log| < m && HasVoted(log, r.pid) {
      var a :| 0 <= a < |log| && log[a].pid == r.pid;
      assert log'[a].pid == log'[|log|].pid;
    }
  }

  /** Step j writes a record while there are fewer than m of them, on behalf of a process that
      has been back in its loop. */
  ghost predicate VotesAgainAt(n: nat, pids: set<int>, steps: seq<Step>, j: nat, m: nat)
    requires j < |steps|
  {
    && steps[j].Append? && WentBack(steps[..j], steps[j].pid)
    && Legal(n, pids, steps[..j]) && |After(n, pids, steps[..j]).log| < m
  }

  ghost predicate SomeoneVotesAgain(n: nat, pids: set<int>, steps: seq<Step>, m: nat) {
    exists j :: 0 <= j < |steps| && VotesAgainAt(n, pids, steps, j, m)
  }

  lemma VotesAgainStep(n: nat, pids: set<int>, steps: seq<Step>, m: nat)
    requires |steps| > 0
    ensures SomeoneVotesAgain(n, pids, steps, m)
       <==> SomeoneVotesAgain(n, pids, steps[..|steps| - 1], m) || VotesAgainAt(n, pids, steps, |steps| - 1, m)
  {
    hide Legal, After, WentBack;
    var l := |steps| - 1;
    forall j | 0 <= j < l
      ensures VotesAgainAt(n, pids, steps, j, m) <==> VotesAgainAt(n, pids, steps[..l], j, m)
    {
      assert steps[..l][..j] == steps[..j];
    }
    hide VotesAgainAt;
    if j :| 0 <= j < l && VotesAgainAt(n, pids, steps[..l], j, m) {
      assert VotesAgainAt(n, pids, steps, j, m);
    }
  }

  /** When a process is counted twice, exactly: two of the first m records are by the same
      process if and only if one of them was written by a process that had been back in its
      loop before. */
  lemma {:induction false} RepeatIff(n: nat, pids: set<int>, steps: seq<Step>, m: nat)
    requires Legal(n, pids, steps)
    ensures Repeats(After(n, pids, steps).log, m) <==> SomeoneVotesAgain(n, pids, steps, m)
  {
    if steps != [] {
      var front, step := steps[..|steps| - 1], steps[|steps| - 1];
      var s := After(n, pids, front);
      RepeatIff(n, pids, front, m);
      VotesAgainStep(n, pids, steps, m);
      AfterVotes(n, pids, front);
      assert After(n, pids, steps) == Next(n, s, step) && Legal(n, pids, front);
      hide Legal, After, WentBack, HasVoted, Repeats, SomeoneVotesAgain;
      if step.Append? {
        RepeatsAppend(s.log, Record(step.pid, step.yes), m);
      }
    }
  }

  /** In particular, while no process has gone back to its loop all records are by different
      processes. */
  lemma FirstVotesDiffer(n: nat, pids: set<int>, steps: seq<Step>)
    requires Legal(n, pids, steps) && forall p :: !WentBack(steps, p)
    ensures !Repeats(After(n, pids, steps).log, |After(n, pids, steps).log|)
  {
    hide Legal, After;
    RepeatIff(n, pids, steps, |After(n, pids, steps).log|);
    forall j, p | 0 <= j < |steps| ensures !WentBack(steps[..j], p) {
      WentBackLater(steps, j, p);
    }
  }

  lemma WentBackLater(steps: seq<Step>, j: nat, p: int)
    requires j <= |steps|
    ensures WentBack(steps[..j], p) ==> WentBack(steps, p)
  {
    if i :| 0 <= i < j && GoesBack(steps[..j][i], p) {
      assert GoesBack(steps[i], p);
    }
  }

  /** Every process of the run has one vote among these, and no more. */
  ghost predicate OneVoteEach(pids: set<int>, votes: seq<Record>) {
    !Repeats(votes, |votes|) && forall p :: p in pids <==> HasVoted(votes, p)
  }

  function Voters(votes: seq<Record>): set<int> {
    set i | 0 <= i < |votes| :: votes[i].pid
  }

  lemma {:induction false} VotersSize(votes: seq<Record>)
    requires !Repeats(votes, |votes|)
    ensures |Voters(votes)| == |votes|
  {
    if votes == [] {
      assert Voters(votes) == {};
    } else {
      var l := |votes| - 1;
      var front := votes[..l];
      RepeatsAppend(front, votes[l], |votes|);
      assert front + [votes[l]] == votes;
      assert !Repeats(front, l);
      VotersSize(front);
      assert Voters(votes) == Voters(front) + {votes[l].pid} by {
        forall p ensures p in Voters(votes) <==> p in Voters(front) + {votes[l].pid} {
          HasVotedAppend(front, votes[l], p);
        }
      }
      assert votes[l].pid !in Voters(front) by {
        assert !HasVoted(front, votes[l].pid);
      }
    }
  }

  /** When the tally is one vote per process, exactly. The program runs as many processes as it
      expects votes. Its tally then holds one vote of each of them if and only if none of the
      first n records was written by a process that had been back in its loop. */
  lemma TallyIsOneVoteEachIff(n: nat, pids: set<int>, steps: seq<Step>)
    requires Legal(n, pids, steps) && |pids| == n && After(n, pids, steps).tallies != []
    ensures OneVoteEach(pids, After(n, pids, steps).tallies[0].votes) <==> !SomeoneVotesAgain(n, pids, steps, n)
  {
    hide Legal, After, SomeoneVotesAgain;
    var s := After(n, pids, steps);
    OneTally(n, pids, steps);
    AfterVotes(n, pids, steps);
    RepeatIff(n, pids, steps, n);
    FirstRecords(n, pids, s.log);
  }

  lemma FirstRecords(n: nat, pids: set<int>, log: seq<Record>)
    requires |pids| == n <= |log| && forall p :: HasVoted(log, p) ==> p in pids
    ensures OneVoteEach(pids, log[..n]) <==> !Repeats(log, n)
  {
    var votes := log[..n];
    assert Repeats(votes, n) <==> Repeats(log, n) by {
      if a, b :| 0 <= a < b < n && b < |votes| && votes[a].pid == votes[b].pid {
        assert log[a].pid == log[b].pid;
      }
      if a, b :| 0 <= a < b < n && b < |log| && log[a].pid == log[b].pid {
        assert votes[a].pid == votes[b].pid;
      }
    }
    if !Repeats(votes, n) {
      VotersSize(votes);
      forall p | p in Voters(votes) ensures p in pids {
        var i :| 0 <= i < |votes| && votes[i].pid == p;
        assert log[i].pid == p;
      }
      SubsetOfSameSize(Voters(votes), pids);
      VotersAre(votes);
    }
  }

  lemma VotersAre(votes: seq<Record>)
    ensures forall p :: p in Voters(votes) <==> HasVoted(votes, p)
  {
  }

  // ---------------------------------------------------------------- what is not promised

  lemma Take(n: nat, pids: set<int>, steps: seq<Step>, step: Step) returns (steps': seq<Step>)
    requires Legal(n, pids, steps) && Enabled(After(n, pids, steps), step)
    ensures Legal(n, pids, steps') && After(n, pids, steps') == Next(n, After(n, pids, steps), step)
    ensures steps <= steps'
  {
    steps' := steps + [step];
    assert steps'[..|steps|] == steps;
  }

  /** The idle process p takes the candidature and writes a vote; it is about to look. */
  lemma StandsAndVotes(n: nat, pids: set<int>, steps: seq<Step>, p: int) returns (steps': seq<Step>)
    requires Legal(n, pids, steps)
    requires var s := After(n, pids, steps); p in s.procs && s.procs[p].Loop? && s.file == 1 && s.candidature == 1
    ensures Legal(n, pids, steps')
    ensures var s := After(n, pids, steps);
      After(n, pids, steps') == s.(log := s.log + [Record(p, true)], candidature := 0, procs := s.procs[p := CheckWait])
  {
    hide Legal, After;
    var s := After(n, pids, steps);
    steps' := Take(n, pids, steps, Try(p));
    steps' := Take(n, pids, steps', Lock(p));
    assert After(n, pids, steps') == s.(candidature := 0, file := 0, procs := s.procs[p := CandidateLocked]);
    steps' := Take(n, pids, steps', Append(p, true));
    steps' := Take(n, pids, steps', Unlock(p));
  }

  /** It looks at the file and gives up the candidature. */
  lemma LooksAndLeaves(n: nat, pids: set<int>, steps: seq<Step>, p: int) returns (steps': seq<Step>)
    requires Legal(n, pids, steps)
    requires var s := After(n, pids, steps); p in s.procs && s.procs[p].CheckWait? && s.file == 1 && s.candidature == 0
    ensures Legal(n, pids, steps')
    ensures var s := After(n, pids, steps);
      After(n, pids, steps') == s.(candidature := 1, procs := s.procs[p := Loop],
        tallies := if |s.log| == n then s.tallies + [Tally(p, s.log, 2 * CountYes(s.log) > n)] else s.tallies)
  {
    hide Legal, After;
    var s := After(n, pids, steps);
    steps' := Take(n, pids, steps, Lock(p));
    steps' := Take(n, pids, steps', Check(p));
    var tallies := if |s.log| == n then s.tallies + [Tally(p, s.log, 2 * CountYes(s.log) > n)] else s.tallies;
    assert After(n, pids, steps') == s.(file := 0, tallies := tallies, procs := s.procs[p := CheckDone]);
    steps' := Take(n, pids, steps', Unlock(p));
    steps' := Take(n, pids, steps', Release(p));
  }

  lemma OneReady() returns (steps: seq<Step>)
    ensures Legal(2, {1, 2}, steps)
    ensures After(2, {1, 2}, steps) == State(map[1 := Loop, 2 := StartWait], true, 1, 1, [], [])
  {
    steps := Take(2, {1, 2}, [], Open);
    steps := Take(2, {1, 2}, steps, Lock(1));
    steps := Take(2, {1, 2}, steps, Unlock(1));
  }

  /** The tally is not one vote per process: with two processes, one of them can be candidate
      twice and fill the file alone, while the other has not voted. */
  lemma OneProcessCanBeCountedTwice() returns (steps: seq<Step>)
    ensures Legal(2, {1, 2}, steps)
    ensures After(2, {1, 2}, steps).tallies == [Tally(1, [Record(1, true), Record(1, true)], true)]
    ensures !HasVoted(After(2, {1, 2}, steps).log, 2)
  {
    hide Legal, After;
    steps := OneReady();
    steps := StandsAndVotes(2, {1, 2}, steps, 1);
    steps := LooksAndLeaves(2, {1, 2}, steps, 1);
    var procs := After(2, {1, 2}, steps).procs;
    assert procs == map[1 := Loop, 2 := StartWait];
    steps := StandsAndVotes(2, {1, 2}, steps, 1);
    steps := LooksAndLeaves(2, {1, 2}, steps, 1);
    var votes := [Record(1, true), Record(1, true)];
    assert After(2, {1, 2}, steps).log == votes;
    assert votes[..1] == [Record(1, true)];
    assert CountYes(votes[..1]) == 1 by { assert votes[..1][..0] == []; }
  }

  // ---------------------------------------------------------------- dying by SIGINT

  /** The process has appended, or looked at the file, since the last step of the other kind. */
  function SinceLast(steps: seq<Step>, p: int, marks: Step -> bool, ends: Step -> bool): bool {
    if steps == [] then false
    else
      var front, step := steps[..|steps| - 1], steps[|steps| - 1];
      if step.Open? || step.pid != p then SinceLast(front, p, marks, ends)
      else if marks(step) then true
      else if ends(step) then false
      else SinceLast(front, p, marks, ends)
  }

  predicate IsAppend(step: Step) { step.Append? }
  predicate IsCheck(step: Step) { step.Check? }
  predicate IsLock(step: Step) { step.Lock? }
  predicate IsTry(step: Step) { step.Try? }

  /** What a process has done with the file since it locked it, and since it stood. */
  predicate DoneSo(ph: Phase, appendedSinceLock: bool, lookedSinceLock: bool, appendedSinceTry: bool,
                   lookedSinceTry: bool)
  {
    && (ph.VoteWritten? || ph.CandidateWritten? ==> appendedSinceLock)
    && (ph.CheckDone? ==> lookedSinceLock)
    && (ph.StartLocked? ==> !lookedSinceLock)
    && (ph.StartLocked? || ph.VoteLocked? || ph.CandidateLocked? || (ph.Dead? && ph.file) ==> !appendedSinceLock)
    && (ph.CandidateWait? || ph.CandidateLocked? || (ph.Dead? && ph.file && ph.candidature) ==> !appendedSinceTry)
    && (ph.CandidateWait? || ph.CandidateLocked? || Unchecked(ph) || (ph.Dead? && ph.candidature) ==> !lookedSinceTry)
  }

  ghost predicate Done(s: State, steps: seq<Step>, p: int) {
    p in s.procs ==>
      DoneSo(s.procs[p], SinceLast(steps, p, IsAppend, IsLock), SinceLast(steps, p, IsCheck, IsLock),
             SinceLast(steps, p, IsAppend, IsTry), SinceLast(steps, p, IsCheck, IsTry))
  }

  lemma {:induction false} AfterDone(n: nat, pids: set<int>, steps: seq<Step>, p: int)
    requires Legal(n, pids, steps)
    ensures Done(After(n, pids, steps), steps, p)
  {
    if steps != [] {
      AfterDone(n, pids, steps[..|steps| - 1], p);
    }
  }

  /** A process that receives SIGINT leaves with whatever it holds, but never in the middle of
      its work: one that dies with the file has not appended since it locked it, one that dies
      with both semaphores has not appended since it became the candidate, and one that dies as
      the candidate has not looked at the file. */
  lemma DeathsAreClean(n: nat, pids: set<int>, steps: seq<Step>, p: int)
    requires Legal(n, pids, steps) && p in After(n, pids, steps).procs && After(n, pids, steps).procs[p].Dead?
    ensures var ph := After(n, pids, steps).procs[p];
      && (ph.file ==> !SinceLast(steps, p, IsAppend, IsLock))
      && (ph.file && ph.candidature ==> !SinceLast(steps, p, IsAppend, IsTry))
      && (ph.candidature ==> !SinceLast(steps, p, IsCheck, IsTry))
  {
    AfterDone(n, pids, steps, p);
  }

  /** When a process that has received SIGINT can leave, exactly: if and only if the next thing
      it does is to wait for the file, to stand, to append, or to give back the file which it
      holds without having appended or looked. */
  lemma CanLeaveIff(n: nat, pids: set<int>, steps: seq<Step>, p: int)
    requires Legal(n, pids, steps) && p in After(n, pids, steps).procs
    ensures var s := After(n, pids, steps);
      Enabled(s, Die(p))
      <==> || Enabled(s.(file := 1), Lock(p)) || Enabled(s, Try(p)) || Enabled(s, Append(p, true))
           || (Enabled(s, Unlock(p)) && !SinceLast(steps, p, IsAppend, IsLock) && !SinceLast(steps, p, IsCheck, IsLock))
  {
    AfterDone(n, pids, steps, p);
  }

  /** And a process does die with each: with neither semaphore, with the file, with the
      candidature, and with both. */
  lemma DiesHolding(n: nat, file: bool, candidature: bool) returns (steps: seq<Step>)
    ensures Legal(n, {1}, steps) && After(n, {1}, steps).procs == map[1 := Dead(file, candidature)]
  {
    hide Legal, After;
    steps := StartsAlone(n);
    if candidature {
      steps := Take(n, {1}, steps, Lock(1));
      steps := Take(n, {1}, steps, Unlock(1));
      steps := Take(n, {1}, steps, Try(1));
    }
    if file {
      steps := Take(n, {1}, steps, Lock(1));
    }
    steps := Take(n, {1}, steps, Die(1));
  }

  lemma StartsAlone(n: nat) returns (steps: seq<Step>)
    ensures Legal(n, {1}, steps)
    ensures After(n, {1}, steps) == State(map[1 := StartWait], true, 1, 1, [], [])
  {
    steps := Take(n, {1}, [], Open);
  }

  // ---------------------------------------------------------------- the vote file

  /** A `Vote` as it lies in the file, and its size in bytes. */
  datatype Ballot = Ballot(pid: int, vote: char)

  const VOTE_SIZE := 8

  function RecordOf(b: Ballot): Record {
    Record(b.pid, b.vote == 'Y')
  }

  /** The vote file and what has been printed about it (lines 150-165 and 181-211). Each
      operation does to them what the step of the transition system does to the log and the
      tallies. */
  class VoteFile {
    var ballots: seq<Ballot>
    var printed: seq<Tally>

    ghost function Records(): seq<Record>
      reads this
    {
      seq(|ballots|, i requires 0 <= i < |ballots| reads this => RecordOf(ballots[i]))
    }

    ghost predicate Shows(s: State)
      reads this
    {
      Records() == s.log && printed == s.tallies
    }

    constructor ()
      ensures forall pids :: Shows(Start(pids))
    {
      ballots, printed := [], [];
    }

    /** Appends the vote that the coin decides. */
    method Append(pid: int, coin: nat, ghost n: nat, ghost s: State)
      requires Shows(s) && Enabled(s, Step.Append(pid, coin % 2 != 0))
      modifies this`ballots
      ensures Shows(Next(n, s, Step.Append(pid, coin % 2 != 0)))
      ensures Records() == old(Records()) + [Record(pid, coin % 2 != 0)]
    {
      ballots := ballots + [Ballot(pid, if coin % 2 != 0 then 'Y' else 'N')];
    }

    /** Nothing is printed unless the file has the size of exactly n votes. */
    method Check(pid: int, n: nat, ghost s: State) returns (announced: bool, accepted: bool)
      requires Shows(s) && Enabled(s, Step.Check(pid))
      modifies this`printed
      ensures Shows(Next(n, s, Step.Check(pid)))
      ensures announced <==> |Records()| == n
      ensures announced ==> (accepted <==> 2 * |YesVotes(Records())| > n)
    {
      announced, accepted := |ballots| * VOTE_SIZE == n * VOTE_SIZE, false;
      if announced {
        var votes := ballots;
        var count := 0;
        for i := 0 to n
          invariant |votes| == n && votes == ballots && count == CountYes(Records()[..i])
        {
          if votes[i].vote == 'Y' {
            count := count + 1;
          }
          assert Records()[..i + 1][..i] == Records()[..i];
        }
        assert Records()[..n] == Records() == seq(n, i requires 0 <= i < n => RecordOf(votes[i]));
        CountYesIs(Records());
        accepted := 2 * count > n;
        printed := printed + [Tally(pid, seq(n, i requires 0 <= i < n => RecordOf(votes[i])), accepted)];
      }
    }
  }

  // ---------------------------------------------------------------- the quotient in single precision

  function Distance(x: real, y: real): real {
    if x < y then y - x else x - y
  }

  /** The single-precision numbers around one half. */
  const HALF := 0.5
  const ABOVE_HALF := 0.5 + 1.0 / 16777216.0

  /** A rounding to the nearest single-precision number is at least as near as these two. */
  ghost predicate RoundsToNearest(round: real -> real) {
    forall x :: Distance(round(x), x) <= Distance(HALF, x) && Distance(round(x), x) <= Distance(ABOVE_HALF, x)
  }

  /** So it keeps a number on its side of one half, unless that is nearer to one half than to
      the number above. */
  lemma RoundingKeepsSide(q: real, round: real -> real)
    requires RoundsToNearest(round)
    ensures q <= HALF ==> round(q) <= HALF
    ensures q > HALF + 1.0 / 33554432.0 ==> round(q) > HALF
  {
    assert Distance(round(q), q) <= Distance(HALF, q);
    assert Distance(round(q), q) <= Distance(ABOVE_HALF, q);
  }

  lemma ScaleReal(x: real, y: real, m: real)
    requires x <= y && m >= 0.0
    ensures x * m <= y * m
  {
    assert (y - x) * m >= 0.0;
    assert (y - x) * m == y * m - x * m;
  }

  /** Comparing a quotient is comparing products. */
  lemma QuotientSide(q: real, c: real, m: real)
    requires q * m == c && 0.0 < m < 16777216.0
    ensures 2.0 * c <= m ==> q <= HALF
    ensures 2.0 * c >= m + 1.0 ==> q > HALF + 1.0 / 33554432.0
  {
    var edge := HALF + 1.0 / 33554432.0;
    if q <= edge {
      ScaleReal(q, edge, m);
      assert edge * m == HALF * m + m / 33554432.0;
    }
    if q > HALF {
      assert (q - HALF) * m > 0.0;
      assert (q - HALF) * m == q * m - HALF * m;
    }
  }

  /** The program divides two `float`s and compares the rounded quotient with 0.5. For fewer
      than 2 to the 24th processes that decides as the exact comparison does. */
  lemma FloatQuotientDecides(count: nat, n: nat, round: real -> real)
    requires RoundsToNearest(round) && count <= n && 0 < n < 0x100_0000
    ensures round(count as real / n as real) > HALF <==> 2 * count > n
  {
    hide RoundsToNearest;
    var c, m := count as real, n as real;
    var q := c / m;
    assert q * m == c;
    assert 2 * count > n ==> 2.0 * c >= m + 1.0;
    assert 2 * count <= n ==> 2.0 * c <= m;
    QuotientSide(q, c, m);
    RoundingKeepsSide(q, round);
  }
}
