/** Whether the P2 processes can still come to a tally. A candidate announces one only if it
    finds exactly n records; one record too many, and none is ever announced. */
module VotingTally {
  import opened Counting
  import opened Voting

  // ---------------------------------------------------------------- how many are where

  /** What matters of a phase: whether the process will look at the file without appending
      again (Looking), will stand and append first (Standing), can come to stand (Near), or has
      to append a vote before that (Losing) - and, for each, whether it holds the file - or what
      it has taken to its death. */
  datatype Kind = Near | NearFile | Losing | LosingFile | Standing | StandingFile | Looking | LookingFile
                | Gone | GoneFile | GoneCandidate | GoneBoth

  function KindOf(ph: Phase): Kind {
    match ph
    case StartWait => Near
    case StartLocked => NearFile
    case Loop => Near
    case VoteWait => Losing
    case VoteLocked => LosingFile
    case VoteWritten => NearFile
    case Resting => Near
    case CandidateWait => Standing
    case CandidateLocked => StandingFile
    case CandidateWritten => LookingFile
    case CheckWait => Looking
    case CheckLocked => LookingFile
    case CheckDone => StandingFile
    case Stepping => Standing
    case Dead(file, candidature) =>
      if file then (if candidature then GoneBoth else GoneFile) else if candidature then GoneCandidate else Gone
  }

  ghost function IsOf(k: Kind): Phase -> bool { ph => KindOf(ph) == k }

  /** The number of processes of a kind. */
  ghost function N(s: State, k: Kind): nat {
    Count(s.procs, IsOf(k))
  }

  /** One process has gone from kind a to kind b. */
  ghost predicate Moved(s: State, s': State, a: Kind, b: Kind) {
    && (forall k :: k != a && k != b ==> N(s', k) == N(s, k))
    && N(s, a) > 0
    && (if a == b then N(s', a) == N(s, a) else N(s', a) == N(s, a) - 1 && N(s', b) == N(s, b) + 1)
  }

  lemma OneMoves(s: State, s': State, p: int, ph: Phase)
    requires p in s.procs && s'.procs == s.procs[p := ph]
    ensures Moved(s, s', KindOf(s.procs[p]), KindOf(ph))
  {
    hide Moved;
    var a, b := KindOf(s.procs[p]), KindOf(ph);
    CountPositive(s.procs, p, IsOf(a));
    forall k ensures N(s', k) == N(s, k) - One(a == k) + One(b == k) {
      KindMoves(s, s', p, ph, k);
    }
    MovedIs(s, s', a, b);
  }

  lemma KindMoves(s: State, s': State, p: int, ph: Phase, k: Kind)
    requires p in s.procs && s'.procs == s.procs[p := ph]
    ensures N(s', k) == N(s, k) - One(KindOf(s.procs[p]) == k) + One(KindOf(ph) == k)
  {
    CountUpdate(s.procs, p, ph, IsOf(k));
  }

  lemma MovedIs(s: State, s': State, a: Kind, b: Kind)
    requires N(s, a) > 0 && forall k :: N(s', k) == N(s, k) - One(a == k) + One(b == k)
    ensures Moved(s, s', a, b)
  {
    hide N;
  }

  /** The two semaphores account for the processes. */
  ghost predicate Books(s: State) {
    && s.candidature + N(s, Standing) + N(s, StandingFile) + N(s, Looking) + N(s, LookingFile)
       + N(s, GoneCandidate) + N(s, GoneBoth) == 1
    && s.file + N(s, NearFile) + N(s, LosingFile) + N(s, StandingFile) + N(s, LookingFile)
       + N(s, GoneFile) + N(s, GoneBoth) == One(s.ready)
  }

  /** The kinds between which a step takes its process. */
  predicate Takes(step: Step, candidature: nat, a: Kind, b: Kind) {
    match step
    case Open => false
    case Lock(_) => (a == Near && b == NearFile) || (a == Losing && b == LosingFile)
                    || (a == Standing && b == StandingFile) || (a == Looking && b == LookingFile)
    case Unlock(_) => (a == NearFile && b == Near) || (a == StandingFile && b == Standing)
                      || (a == LookingFile && b == Looking)
    case Try(_) => a == Near && b == if candidature > 0 then Standing else Losing
    case Append(_, _) => (a == LosingFile && b == NearFile) || (a == StandingFile && b == LookingFile)
    case Check(_) => a == LookingFile && b == StandingFile
    case Resume(_) => a == Near && b == Near
    case Release(_) => a == Standing && b == Near
    case Die(_) => (a == Near && b == Gone) || (a == NearFile && b == GoneFile)
                   || (a == Losing && b == Gone) || (a == LosingFile && b == GoneFile)
                   || (a == Standing && b == GoneCandidate) || (a == StandingFile && b == GoneBoth)
                   || (a == Looking && b == GoneCandidate)
  }

  /** What a step does to the semaphores and the log. */
  predicate Counted(s: State, s': State, step: Step) {
    && s'.ready == (s.ready || step.Open?)
    && s'.file == s.file - One(step.Lock?) + One(step.Unlock? || step.Open?)
    && s'.candidature == s.candidature - One(step.Try? && s.candidature > 0) + One(step.Release?)
    && |s'.log| == |s.log| + One(step.Append?)
    && (step.Lock? ==> s.file > 0) && (step.Open? ==> !s.ready)
  }

  lemma StepOnKinds(n: nat, s: State, step: Step)
    requires Enabled(s, step)
    ensures var s' := Next(n, s, step);
      && Counted(s, s', step)
      && (if step.Open? then forall k :: N(s', k) == N(s, k)
          else var a, b := KindOf(s.procs[step.pid]), KindOf(OwnNext(s, step));
               Takes(step, s.candidature, a, b) && Moved(s, s', a, b))
  {
    hide N, Moved;
    if step.Open? {
      NobodyMoves(s, Next(n, s, step));
    } else {
      OneMoves(s, Next(n, s, step), step.pid, OwnNext(s, step));
    }
  }

  lemma NextBooks(n: nat, s: State, step: Step)
    requires Books(s) && Enabled(s, step)
    ensures Books(Next(n, s, step))
  {
    hide N, Books, Moved, Takes, Counted, Next, OwnNext, KindOf;
    StepOnKinds(n, s, step);
    if step.Open? {
      OpenBooks(s, Next(n, s, step));
    } else {
      MovedBooks(s, Next(n, s, step), step, KindOf(s.procs[step.pid]), KindOf(OwnNext(s, step)));
    }
  }

  lemma OpenBooks(s: State, s': State)
    requires Books(s) && Counted(s, s', Open) && forall k :: N(s', k) == N(s, k)
    ensures Books(s')
  {
    hide N;
  }

  lemma MovedBooks(s: State, s': State, step: Step, a: Kind, b: Kind)
    requires Books(s) && Counted(s, s', step) && Takes(step, s.candidature, a, b) && Moved(s, s', a, b)
    ensures Books(s')
  {
    hide N, Books, Moved, Takes, Counted;
    if IsOnFile(step) {
      FileBooks(s, s', step, a, b);
    } else {
      LoopBooks(s, s', step, a, b);
    }
  }

  predicate IsOnFile(step: Step) {
    step.Lock? || step.Unlock? || step.Append? || step.Check?
  }

  lemma FileBooks(s: State, s': State, step: Step, a: Kind, b: Kind)
    requires Books(s) && Counted(s, s', step) && Takes(step, s.candidature, a, b) && Moved(s, s', a, b)
        && IsOnFile(step)
    ensures Books(s')
  {
    hide N;
  }

  lemma LoopBooks(s: State, s': State, step: Step, a: Kind, b: Kind)
    requires Books(s) && Counted(s, s', step) && Takes(step, s.candidature, a, b) && Moved(s, s', a, b)
        && !IsOnFile(step)
    ensures Books(s')
  {
    hide N;
  }

  lemma NobodyMoves(s: State, s': State)
    requires s'.procs == s.procs
    ensures forall k :: N(s', k) == N(s, k)
  {
  }

  lemma StartBooks(pids: set<int>)
    ensures Books(Start(pids))
  {
    forall k | k != Near ensures N(Start(pids), k) == 0 {
      CountZero(Start(pids).procs, IsOf(k));
    }
    hide N;
  }

  lemma {:induction false} AfterBooks(n: nat, pids: set<int>, steps: seq<Step>)
    requires Legal(n, pids, steps)
    ensures Books(After(n, pids, steps))
  {
    hide Books;
    if steps == [] {
      StartBooks(pids);
    } else {
      AfterBooks(n, pids, steps[..|steps| - 1]);
      NextBooks(n, After(n, pids, steps[..|steps| - 1]), steps[|steps| - 1]);
    }
  }

  // ---------------------------------------------------------------- the condition

  /** The fewest records that are written before some candidate looks at the file. */
  ghost function Needed(s: State): nat {
    if N(s, Looking) + N(s, LookingFile) > 0 then N(s, LosingFile)
    else if N(s, Standing) + N(s, StandingFile) + N(s, Near) + N(s, NearFile) > 0 then 1 + N(s, LosingFile)
    else 2
  }

  ghost function Living(s: State): nat {
    N(s, Near) + N(s, NearFile) + N(s, Losing) + N(s, LosingFile)
    + N(s, Standing) + N(s, StandingFile) + N(s, Looking) + N(s, LookingFile)
  }

  /** Nobody has died with a semaphore, someone lives, and the records that have to be written
      before the next look do not exceed n. */
  ghost predicate CanTally(n: nat, s: State) {
    && N(s, GoneFile) + N(s, GoneCandidate) + N(s, GoneBoth) == 0
    && Living(s) > 0
    && |s.log| + Needed(s) <= n
  }

  // ---------------------------------------------------------------- once it fails

  /** No step brings the hope back, and without it no candidate that looks announces a tally. */
  lemma StaysHopeless(n: nat, s: State, step: Step)
    requires Books(s) && Enabled(s, step) && !CanTally(n, s)
    ensures !CanTally(n, Next(n, s, step)) && Next(n, s, step).tallies == s.tallies
  {
    hide N, Books, CanTally, Moved, Takes, Counted, KindOf;
    StepOnKinds(n, s, step);
    if step.Open? {
      OpenHopeless(n, s, Next(n, s, step));
    } else {
      MovedHopeless(n, s, Next(n, s, step), step, KindOf(s.procs[step.pid]), KindOf(OwnNext(s, step)));
    }
  }

  lemma OpenHopeless(n: nat, s: State, s': State)
    requires !CanTally(n, s) && Counted(s, s', Open) && forall k :: N(s', k) == N(s, k)
    ensures !CanTally(n, s')
  {
    hide N;
  }

  lemma MovedHopeless(n: nat, s: State, s': State, step: Step, a: Kind, b: Kind)
    requires Books(s) && !CanTally(n, s) && !step.Open?
    requires Counted(s, s', step) && Takes(step, s.candidature, a, b) && Moved(s, s', a, b)
    ensures !CanTally(n, s') && (step.Check? ==> |s.log| != n)
  {
    hide N, Books, Moved, Takes, Counted, CanTally;
    if step.Lock? {
      LockHopeless(n, s, s', step, a, b);
    } else if step.Unlock? {
      UnlockHopeless(n, s, s', step, a, b);
    } else if IsOnFile(step) {
      RecordHopeless(n, s, s', step, a, b);
    } else if step.Die? {
      DeathHopeless(n, s, s', step, a, b);
    } else {
      LoopHopeless(n, s, s', step, a, b);
    }
  }

  lemma LockHopeless(n: nat, s: State, s': State, step: Step, a: Kind, b: Kind)
    requires Books(s) && !CanTally(n, s) && step.Lock?
    requires Counted(s, s', step) && Takes(step, s.candidature, a, b) && Moved(s, s', a, b)
    ensures !CanTally(n, s')
  {
    hide N;
  }

  lemma UnlockHopeless(n: nat, s: State, s': State, step: Step, a: Kind, b: Kind)
    requires Books(s) && !CanTally(n, s) && step.Unlock?
    requires Counted(s, s', step) && Takes(step, s.candidature, a, b) && Moved(s, s', a, b)
    ensures !CanTally(n, s')
  {
    hide N;
  }

  lemma RecordHopeless(n: nat, s: State, s': State, step: Step, a: Kind, b: Kind)
    requires Books(s) && !CanTally(n, s) && (step.Append? || step.Check?)
    requires Counted(s, s', step) && Takes(step, s.candidature, a, b) && Moved(s, s', a, b)
    ensures !CanTally(n, s') && (step.Check? ==> |s.log| != n)
  {
    hide N;
  }

  lemma DeathHopeless(n: nat, s: State, s': State, step: Step, a: Kind, b: Kind)
    requires Books(s) && !CanTally(n, s) && step.Die?
    requires Counted(s, s', step) && Takes(step, s.candidature, a, b) && Moved(s, s', a, b)
    ensures !CanTally(n, s')
  {
    hide N;
  }

  lemma LoopHopeless(n: nat, s: State, s': State, step: Step, a: Kind, b: Kind)
    requires Books(s) && !CanTally(n, s) && (step.Try? || step.Resume? || step.Release?)
    requires Counted(s, s', step) && Takes(step, s.candidature, a, b) && Moved(s, s', a, b)
    ensures !CanTally(n, s')
  {
    hide N;
  }

  // ---------------------------------------------------------------- as long as it holds

  /** The steps that free the file without taking the hope away. */
  predicate FreesFile(step: Step, a: Kind) {
    step.Open? || (step.Unlock? && a == NearFile) || (step.Append? && a == LosingFile)
  }

  lemma KeepsHope(n: nat, s: State, step: Step)
    requires Books(s) && CanTally(n, s) && Enabled(s, step)
    requires FreesFile(step, if step.Open? then Near else KindOf(s.procs[step.pid]))
    ensures CanTally(n, Next(n, s, step)) && Next(n, s, step).tallies == s.tallies
    ensures Clutter(Next(n, s, step)) < Clutter(s)
  {
    hide N, Books, CanTally, Moved, Takes, Counted, KindOf;
    StepOnKinds(n, s, step);
    if step.Open? {
      OpenHope(n, s, Next(n, s, step));
    } else {
      MovedHope(n, s, Next(n, s, step), step, KindOf(s.procs[step.pid]), KindOf(OwnNext(s, step)));
    }
  }

  lemma OpenHope(n: nat, s: State, s': State)
    requires Books(s) && CanTally(n, s) && Counted(s, s', Open) && forall k :: N(s', k) == N(s, k)
    ensures CanTally(n, s') && Clutter(s') < Clutter(s)
  {
    hide N;
  }

  lemma MovedHope(n: nat, s: State, s': State, step: Step, a: Kind, b: Kind)
    requires Books(s) && CanTally(n, s) && FreesFile(step, a) && !step.Open?
    requires Counted(s, s', step) && Takes(step, s.candidature, a, b) && Moved(s, s', a, b)
    ensures CanTally(n, s') && Clutter(s') < Clutter(s)
  {
    hide N, Books, CanTally, Moved, Clutter;
    if step.Unlock? {
      UnlockHope(n, s, s');
    } else {
      AppendHope(n, s, s');
    }
  }

  lemma UnlockHope(n: nat, s: State, s': State)
    requires Books(s) && CanTally(n, s) && Moved(s, s', NearFile, Near) && |s'.log| == |s.log| && s'.ready == s.ready
    ensures CanTally(n, s') && Clutter(s') < Clutter(s)
  {
    hide N;
  }

  lemma AppendHope(n: nat, s: State, s': State)
    requires Books(s) && CanTally(n, s) && Moved(s, s', LosingFile, NearFile) && |s'.log| == |s.log| + 1
    ensures CanTally(n, s') && Clutter(s') < Clutter(s)
  {
    hide N;
  }

  /** How far the file is from being free for a candidate. */
  ghost function Clutter(s: State): nat {
    if N(s, LosingFile) > 0 then 3 else if N(s, NearFile) > 0 then 2 else if !s.ready then 1 else 0
  }

  /** The next step of a candidate that has the file to itself, or of a process that is about
      to become one; and how far it is from its next append. */
  function NextAlone(ph: Phase, c: int): Step {
    match ph
    case Loop => Try(c)
    case CandidateLocked => Append(c, true)
    case CheckLocked => Check(c)
    case CandidateWritten => Unlock(c)
    case CheckDone => Unlock(c)
    case Stepping => Release(c)
    case _ => Lock(c)
  }

  function ToAppend(ph: Phase): nat {
    match ph
    case CandidateWritten => 8
    case CheckWait => 7
    case CheckLocked => 6
    case CheckDone => 5
    case Stepping => 4
    case Loop => 3
    case CandidateWait => 2
    case CandidateLocked => 1
    case _ => 0
  }

  /** Process c can go round as the only candidate, with room for its next record. */
  ghost predicate Alone(n: nat, s: State, c: int) {
    && c in s.procs && s.tallies == [] && ToAppend(s.procs[c]) > 0
    && (!HoldsFile(s.procs[c]) ==> s.file > 0)
    && (s.procs[c].Loop? ==> s.candidature > 0)
    && |s.log| + One(!Unchecked(s.procs[c])) <= n
  }

  lemma AloneStep(n: nat, s: State, c: int)
    requires Alone(n, s, c)
    ensures var step := NextAlone(s.procs[c], c);
      && Enabled(s, step)
      && (Next(n, s, step).tallies != []
          || (Alone(n, Next(n, s, step), c)
              && (|Next(n, s, step).log| > |s.log|
                  || (|Next(n, s, step).log| == |s.log|
                      && ToAppend(Next(n, s, step).procs[c]) < ToAppend(s.procs[c])))))
  {
  }

  /** Alone, it goes round until the file holds exactly n records, and announces a tally. */
  lemma {:induction false} AloneTallies(n: nat, pids: set<int>, steps: seq<Step>, c: int) returns (later: seq<Step>)
    requires Legal(n, pids, steps) && Alone(n, After(n, pids, steps), c)
    ensures steps <= later && Legal(n, pids, later) && After(n, pids, later).tallies != []
    decreases n - |After(n, pids, steps).log|, ToAppend(After(n, pids, steps).procs[c])
  {
    hide Legal, After, Alone, Enabled, Next, ToAppend;
    var s := After(n, pids, steps);
    AloneInRange(n, s, c);
    AloneStep(n, s, c);
    later := Take(n, pids, steps, NextAlone(s.procs[c], c));
    if After(n, pids, later).tallies == [] {
      AloneInRange(n, After(n, pids, later), c);
      later := AloneTallies(n, pids, later, c);
    }
  }

  lemma AloneInRange(n: nat, s: State, c: int)
    requires Alone(n, s, c)
    ensures c in s.procs && |s.log| <= n
  {
  }

  /** Who holds the file as a candidate, or finds it free, goes on alone. */
  lemma CandidateIsAlone(n: nat, s: State, k: Kind) returns (c: int)
    requires Books(s) && CanTally(n, s) && s.tallies == [] && N(s, k) > 0
    requires k == LookingFile || k == StandingFile || (s.file > 0 && (k == Looking || k == Standing))
    ensures Alone(n, s, c)
  {
    c := CountWitness(s.procs, IsOf(k));
    hide N;
  }

  /** The file and the candidature are free, and c is in its loop. */
  ghost predicate Idle(n: nat, s: State, c: int) {
    c in s.procs && s.procs[c].Loop? && s.tallies == [] && s.file > 0 && s.candidature > 0 && |s.log| + 1 <= n
  }

  /** A process that has not to vote any more comes back to its loop. */
  lemma NearComesIdle(n: nat, pids: set<int>, steps: seq<Step>, c: int) returns (later: seq<Step>)
    requires Legal(n, pids, steps)
    requires var s := After(n, pids, steps);
      && c in s.procs && KindOf(s.procs[c]) == Near && s.tallies == []
      && s.file > 0 && s.candidature > 0 && |s.log| + 1 <= n
    ensures steps <= later && Legal(n, pids, later) && Idle(n, After(n, pids, later), c)
  {
    hide Legal, After;
    var s := After(n, pids, steps);
    if s.procs[c].Loop? {
      later := steps;
    } else if s.procs[c].Resting? {
      later := Take(n, pids, steps, Resume(c));
    } else {
      later := Take(n, pids, steps, Lock(c));
      later := Take(n, pids, later, Unlock(c));
    }
  }

  /** A process that has to vote does so, and comes back to its loop. */
  lemma LosingComesIdle(n: nat, pids: set<int>, steps: seq<Step>, c: int) returns (later: seq<Step>)
    requires Legal(n, pids, steps)
    requires var s := After(n, pids, steps);
      && c in s.procs && s.procs[c].VoteWait? && s.tallies == [] && s.file > 0 && s.candidature > 0 && |s.log| + 2 <= n
    ensures steps <= later && Legal(n, pids, later) && Idle(n, After(n, pids, later), c)
  {
    hide Legal, After;
    later := Take(n, pids, steps, Lock(c));
    later := Take(n, pids, later, Append(c, true));
    later := Take(n, pids, later, Unlock(c));
    later := Take(n, pids, later, Resume(c));
  }

  /** With the file free, somebody goes on alone. */
  lemma FreeTallies(n: nat, pids: set<int>, steps: seq<Step>) returns (later: seq<Step>)
    requires Legal(n, pids, steps) && After(n, pids, steps).tallies == []
    requires Books(After(n, pids, steps)) && CanTally(n, After(n, pids, steps)) && Clutter(After(n, pids, steps)) == 0
    ensures steps <= later && Legal(n, pids, later) && After(n, pids, later).tallies != []
  {
    hide Legal, After, Alone, Idle, IsOf;
    var s := After(n, pids, steps);
    var c;
    later := steps;
    if N(s, LookingFile) > 0 {
      c := CandidateIsAlone(n, s, LookingFile);
    } else if N(s, StandingFile) > 0 {
      c := CandidateIsAlone(n, s, StandingFile);
    } else if N(s, Looking) > 0 {
      c := CandidateIsAlone(n, s, Looking);
    } else if N(s, Standing) > 0 {
      c := CandidateIsAlone(n, s, Standing);
    } else {
      c, later := IdleComes(n, pids, steps);
    }
    later := AloneTallies(n, pids, later, c);
  }

  lemma AllIsFree(n: nat, s: State)
    requires Books(s) && CanTally(n, s) && Clutter(s) == 0
    requires N(s, LookingFile) + N(s, StandingFile) + N(s, Looking) + N(s, Standing) == 0
    ensures s.file > 0 && s.candidature > 0
    ensures if N(s, Near) > 0 then |s.log| + 1 <= n else N(s, Losing) > 0 && |s.log| + 2 <= n
  {
    hide N;
  }

  /** With no candidate at all, somebody comes to its loop. */
  lemma IdleComes(n: nat, pids: set<int>, steps: seq<Step>) returns (c: int, later: seq<Step>)
    requires Legal(n, pids, steps) && After(n, pids, steps).tallies == []
    requires var s := After(n, pids, steps);
      && Books(s) && CanTally(n, s) && Clutter(s) == 0
      && N(s, LookingFile) + N(s, StandingFile) + N(s, Looking) + N(s, Standing) == 0
    ensures steps <= later && Legal(n, pids, later) && Alone(n, After(n, pids, later), c)
  {
    hide Legal, After, Books, CanTally, Clutter;
    var s := After(n, pids, steps);
    AllIsFree(n, s);
    if N(s, Near) > 0 {
      c := CountWitness(s.procs, IsOf(Near));
      later := NearComesIdle(n, pids, steps, c);
    } else {
      c := CountWitness(s.procs, IsOf(Losing));
      later := LosingComesIdle(n, pids, steps, c);
    }
  }

  lemma {:induction false} HopeTallies(n: nat, pids: set<int>, steps: seq<Step>) returns (later: seq<Step>)
    requires Legal(n, pids, steps) && After(n, pids, steps).tallies == [] && CanTally(n, After(n, pids, steps))
    ensures steps <= later && Legal(n, pids, later) && After(n, pids, later).tallies != []
    decreases Clutter(After(n, pids, steps))
  {
    hide Legal, After, CanTally, Books, Enabled, Next;
    var s := After(n, pids, steps);
    AfterBooks(n, pids, steps);
    if Clutter(s) == 0 {
      later := FreeTallies(n, pids, steps);
    } else {
      var step := FreeingStep(s);
      KeepsHope(n, s, step);
      later := Take(n, pids, steps, step);
      later := HopeTallies(n, pids, later);
    }
  }

  lemma FreeingStep(s: State) returns (step: Step)
    requires Clutter(s) > 0
    ensures Enabled(s, step) && FreesFile(step, if step.Open? then Near else KindOf(s.procs[step.pid]))
  {
    if N(s, LosingFile) > 0 {
      var p := CountWitness(s.procs, IsOf(LosingFile));
      step := Append(p, true);
    } else if N(s, NearFile) > 0 {
      var p := CountWitness(s.procs, IsOf(NearFile));
      step := Unlock(p);
    } else {
      step := Open;
    }
  }

  // ---------------------------------------------------------------- main results

  lemma {:induction false} HopelessForEver(n: nat, pids: set<int>, steps: seq<Step>, later: seq<Step>)
    requires Legal(n, pids, steps) && !CanTally(n, After(n, pids, steps))
    requires steps <= later && Legal(n, pids, later)
    ensures !CanTally(n, After(n, pids, later))
    ensures After(n, pids, later).tallies == After(n, pids, steps).tallies
    decreases |later|
  {
    hide CanTally, Books;
    if |later| == |steps| {
      assert later == steps;
    } else {
      var front := later[..|later| - 1];
      assert Legal(n, pids, front) && Enabled(After(n, pids, front), later[|later| - 1]);
      assert After(n, pids, later) == Next(n, After(n, pids, front), later[|later| - 1]);
      hide Legal, After, Enabled, Next;
      HopelessForEver(n, pids, steps, front);
      AfterBooks(n, pids, front);
      StaysHopeless(n, After(n, pids, front), later[|later| - 1]);
    }
  }

  /** Whether a tally is still to come, exactly: a run that has announced none can be continued
      to one if and only if nobody has died with a semaphore, someone lives, and the records
      that have to be written before a candidate next looks at the file do not exceed n. */
  lemma TallyCanComeIff(n: nat, pids: set<int>, steps: seq<Step>)
    requires Legal(n, pids, steps) && After(n, pids, steps).tallies == []
    ensures (exists later :: steps <= later && Legal(n, pids, later) && After(n, pids, later).tallies != [])
       <==> CanTally(n, After(n, pids, steps))
  {
    hide Legal, After, CanTally;
    if CanTally(n, After(n, pids, steps)) {
      var later := HopeTallies(n, pids, steps);
    } else {
      forall later | steps <= later && Legal(n, pids, later) ensures After(n, pids, later).tallies == [] {
        HopelessForEver(n, pids, steps, later);
      }
    }
  }

  /** In particular, once the file holds more than n records there is none. */
  lemma NoTallyOnceTooMany(n: nat, pids: set<int>, steps: seq<Step>, later: seq<Step>)
    requires Legal(n, pids, steps) && After(n, pids, steps).tallies == [] && |After(n, pids, steps).log| > n
    requires steps <= later && Legal(n, pids, later)
    ensures After(n, pids, later).tallies == []
  {
    hide Legal, After;
    HopelessForEver(n, pids, steps, later);
  }

  /** Such a run: between the second record of a candidate and its look at the file, the other
      process appends the vote that it owes since the first candidature. */
  lemma TallyCanBeMissed() returns (steps: seq<Step>)
    ensures Legal(2, {1, 2}, steps)
    ensures After(2, {1, 2}, steps).tallies == [] && |After(2, {1, 2}, steps).log| == 3
  {
    hide Legal, After;
    steps := OneReady();
    steps := Take(2, {1, 2}, steps, Lock(2));
    steps := Take(2, {1, 2}, steps, Unlock(2));
    assert After(2, {1, 2}, steps).procs == map[1 := Loop, 2 := Loop];
    steps := StandsAndVotes(2, {1, 2}, steps, 1);
    steps := Take(2, {1, 2}, steps, Try(2));
    assert After(2, {1, 2}, steps).procs == map[1 := CheckWait, 2 := VoteWait];
    steps := LooksAndLeaves(2, {1, 2}, steps, 1);
    steps := StandsAndVotes(2, {1, 2}, steps, 1);
    assert After(2, {1, 2}, steps).procs == map[1 := CheckWait, 2 := VoteWait];
    steps := Take(2, {1, 2}, steps, Lock(2));
    steps := Take(2, {1, 2}, steps, Append(2, true));
  }
}
