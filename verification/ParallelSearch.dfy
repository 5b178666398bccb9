/** The threaded proof-of-work search shared by the miners of P1 and of the final
    project: n workers scan disjoint ranges and share a stop flag and a result cell.

    A worker is a small program counter; a schedule names the worker that takes each
    step. All results hold for every schedule. */
module ParallelSearch {
  import opened Counting
  import opened Modular
  import opened Pow

  /** The shared result cell. The final project's `_solution` is its second half. */
  datatype Cell = Cell(target: int, solution: int)

  datatype Config = Config(h: Hash, n: int, target: int) {
    ghost predicate Good() {
      h.Good() && 1 <= n
    }

    /** Length of one worker's range. */
    function Quota(): int
      requires n != 0
    {
      (h.p - 1) / n
    }

    function Start(j: int): int
      requires n != 0
    {
      j * Quota()
    }

    function End(j: int): int
      requires n != 0
    {
      (j + 1) * Quota()
    }

    /** x is in worker j's range. */
    predicate Scans(j: int, x: int)
      requires n != 0
    {
      Start(j) <= x < End(j)
    }

    /** x is in some worker's range. */
    ghost predicate Scanned(x: int)
      requires n != 0
    {
      exists j :: 0 <= j < n && Scans(j, x)
    }

    /** The target has a preimage, and it lies in some worker's range. */
    predicate Covered()
      requires n != 0 && h.p != 0
    {
      0 <= target < h.p && Preimage(h, target) < n * Quota()
    }

    /** What a finished round leaves in the cell. */
    function Outcome(before: Cell): Cell
      requires n != 0 && h.p != 0
    {
      if Covered() then Cell(target, Preimage(h, target)) else before
    }
  }

  // ---------------------------------------------------------------- the partition

  lemma QuotaBounds(c: Config)
    requires c.Good()
    ensures 0 <= c.Quota() && 0 <= c.n * c.Quota() <= c.h.p - 1
    ensures c.n * c.Quota() == c.h.p - 1 - (c.h.p - 1) % c.n
  {
    MulNonNegative(c.n, c.Quota());
  }

  lemma RangeBounds(c: Config, j: int)
    requires c.Good() && 0 <= j < c.n
    ensures 0 <= c.Start(j) <= c.End(j) <= c.n * c.Quota() < c.h.p
    ensures c.End(j) - c.Start(j) == c.Quota()
  {
    QuotaBounds(c);
    MulNonNegative(j, c.Quota());
    MulNonNegative(c.n - 1 - j, c.Quota());
    assert (c.n - 1 - j) * c.Quota() == c.n * c.Quota() - (j + 1) * c.Quota();
    assert (j + 1) * c.Quota() == j * c.Quota() + c.Quota();
  }

  /** The ranges ascend from 0 without gaps or overlaps, and exactly
      1 + (P - 1) mod n values at the top of [0, P) are in none of them. */
  lemma Partition(c: Config)
    requires c.Good()
    ensures c.Start(0) == 0
    ensures forall j :: 0 <= j < c.n - 1 ==> c.End(j) == c.Start(j + 1)
    ensures forall x :: c.Scanned(x) <==> 0 <= x < c.n * c.Quota()
    ensures forall x, j, k :: 0 <= j < c.n && 0 <= k < c.n && c.Scans(j, x) && c.Scans(k, x) ==> j == k
    ensures c.h.p - c.n * c.Quota() == 1 + (c.h.p - 1) % c.n
  {
    QuotaBounds(c);
    forall x ensures c.Scanned(x) <==> 0 <= x < c.n * c.Quota() {
      if 0 <= x < c.n * c.Quota() {
        var j := OwnerOf(c, x);
      } else if j :| 0 <= j < c.n && c.Scans(j, x) {
        RangeBounds(c, j);
      }
    }
    forall x, j, k | 0 <= j < c.n && 0 <= k < c.n && c.Scans(j, x) && c.Scans(k, x) ensures j == k {
      SameRange(c, x, j, k);
    }
  }

  lemma OwnerOf(c: Config, x: int) returns (j: int)
    requires c.Good() && 0 <= x < c.n * c.Quota()
    ensures 0 <= j < c.n && c.Scans(j, x)
  {
    QuotaBounds(c);
    var q := c.Quota();
    assert 0 < q by { assert q == 0 ==> c.n * q == 0; }
    j := x / q;
    QuotientBelow(x, c.n, q);
    assert (j + 1) * q == j * q + q;
  }

  lemma SameRange(c: Config, x: int, j: int, k: int)
    requires c.Good() && 0 <= j < c.n && 0 <= k < c.n
    requires c.Scans(j, x) && c.Scans(k, x)
    ensures j == k
  {
    QuotaBounds(c);
    var q := c.Quota();
    assert (j + 1) * q == j * q + q && (k + 1) * q == k * q + q;
    assert (j - k) * q == j * q - k * q;
    MulBounds(j - k, q);
  }

  // ---------------------------------------------------------------- workers and schedules

  /** Where a worker is: at the loop test, about to hash, about to write the two halves
      of the cell, about to raise the flag, or returned. */
  datatype Pc = Top(i: int) | Try(i: int) | StoreSolution(i: int) | StoreTarget(i: int) | Raise(i: int) | Done

  datatype Search = Search(pcs: seq<Pc>, flag: bool, cell: Cell)

  function Init(c: Config, before: Cell): Search
    requires 1 <= c.n
  {
    Search(seq(c.n, j => Top(c.Start(j))), false, before)
  }

  /** One step of worker j. A returned worker, and a number that names no worker, do nothing. */
  function Advance(c: Config, s: Search, j: nat): Search
    requires c.n != 0 && c.h.p != 0
  {
    if j >= |s.pcs| then s else
    match s.pcs[j]
    case Top(i) => s.(pcs := s.pcs[j := if i < c.End(j) && !s.flag then Try(i) else Done])
    case Try(i) => s.(pcs := s.pcs[j := if Eval(c.h, i) == c.target then StoreSolution(i) else Top(i + 1)])
    case StoreSolution(i) => s.(pcs := s.pcs[j := StoreTarget(i)], cell := s.cell.(solution := i))
    case StoreTarget(i) => s.(pcs := s.pcs[j := Raise(i)], cell := s.cell.(target := Eval(c.h, i)))
    case Raise(i) => s.(pcs := s.pcs[j := Done], flag := true)
    case Done => s
  }

  function RunFrom(c: Config, s: Search, schedule: seq<nat>): (s': Search)
    requires c.n != 0 && c.h.p != 0
    ensures |s'.pcs| == |s.pcs|
    decreases |schedule|
  {
    if schedule == [] then s else RunFrom(c, Advance(c, s, schedule[0]), schedule[1..])
  }

  function After(c: Config, before: Cell, schedule: seq<nat>): (s: Search)
    requires 1 <= c.n && c.h.p != 0
    ensures |s.pcs| == c.n
  {
    RunFrom(c, Init(c, before), schedule)
  }

  /** `pthread_join` has returned for every worker. */
  predicate Finished(s: Search) {
    forall j :: 0 <= j < |s.pcs| ==> s.pcs[j] == Done
  }

  predicate Storing(pc: Pc) {
    pc.StoreSolution? || pc.StoreTarget? || pc.Raise?
  }

  // ---------------------------------------------------------------- invariant

  ghost predicate NoHit(c: Config, from: int, to: int)
    requires c.h.p != 0
  {
    forall i :: from <= i < to ==> Eval(c.h, i) != c.target
  }

  ghost predicate PcOk(c: Config, s: Search, j: int)
    requires c.n != 0 && c.h.p != 0 && 0 <= j < |s.pcs|
  {
    match s.pcs[j]
    case Top(i) => c.Start(j) <= i <= c.End(j) && NoHit(c, c.Start(j), i)
    case Try(i) => c.Scans(j, i) && NoHit(c, c.Start(j), i)
    case StoreSolution(i) => c.Scans(j, i) && Eval(c.h, i) == c.target
    case StoreTarget(i) => c.Scans(j, i) && Eval(c.h, i) == c.target && s.cell.solution == i
    case Raise(i) => c.Scans(j, i) && Eval(c.h, i) == c.target && s.cell == Cell(c.target, i)
    case Done => s.flag || NoHit(c, c.Start(j), c.End(j))
  }

  ghost predicate Inv(c: Config, before: Cell, s: Search) {
    && c.Good()
    && |s.pcs| == c.n
    && (forall j :: 0 <= j < |s.pcs| ==> PcOk(c, s, j))
    && (s.flag ==> c.Covered() && s.cell == c.Outcome(before))
    && (s.cell == before || c.Covered())
  }

  lemma InitInv(c: Config, before: Cell)
    requires c.Good()
    ensures Inv(c, before, Init(c, before))
  {
    forall j | 0 <= j < c.n ensures PcOk(c, Init(c, before), j) {
      RangeBounds(c, j);
    }
  }

  /** A hit in a worker's range is the preimage of the target. */
  lemma HitIsPreimage(c: Config, j: int, i: int)
    requires c.Good() && 0 <= j < c.n && c.Scans(j, i) && Eval(c.h, i) == c.target
    ensures c.Covered() && i == Preimage(c.h, c.target)
  {
    RangeBounds(c, j);
    HashesToIff(c.h, i, c.target);
  }

  lemma AdvanceInv(c: Config, before: Cell, s: Search, j: nat)
    requires Inv(c, before, s)
    ensures Inv(c, before, Advance(c, s, j))
  {
    if j < |s.pcs| {
      RangeBounds(c, j);
      var s' := Advance(c, s, j);
      assert PcOk(c, s, j);
      if Storing(s.pcs[j]) {
        HitIsPreimage(c, j, s.pcs[j].i);
      }
      forall k | 0 <= k < |s'.pcs| ensures PcOk(c, s', k) {
        assert PcOk(c, s, k) && PcOk(c, s, j);
        if k != j && Storing(s.pcs[k]) {
          HitIsPreimage(c, k, s.pcs[k].i);
        }
      }
    }
  }

  lemma {:induction false} RunInv(c: Config, before: Cell, s: Search, schedule: seq<nat>)
    requires Inv(c, before, s)
    ensures Inv(c, before, RunFrom(c, s, schedule))
    decreases |schedule|
  {
    if schedule != [] {
      AdvanceInv(c, before, s, schedule[0]);
      RunInv(c, before, Advance(c, s, schedule[0]), schedule[1..]);
    }
  }

  // ---------------------------------------------------------------- results

  /** Schedule independence: whatever the interleaving, once every worker has returned the
      flag says whether the target's preimage was covered, and the cell holds that preimage
      or is untouched. */
  lemma SearchOutcome(c: Config, before: Cell, schedule: seq<nat>)
    requires c.Good() && Finished(After(c, before, schedule))
    ensures After(c, before, schedule).flag <==> c.Covered()
    ensures After(c, before, schedule).cell == c.Outcome(before)
  {
    var s := After(c, before, schedule);
    InitInv(c, before);
    RunInv(c, before, Init(c, before), schedule);
    if c.Covered() {
      var m := Preimage(c.h, c.target);
      PreimageIsPreimage(c.h, c.target);
      var j := OwnerOf(c, m);
      assert PcOk(c, s, j);
    }
  }

  /** Only one worker can ever be about to write the cell: the one whose range holds the
      preimage, whatever the schedules that led to the two states. */
  lemma OneWriter(c: Config, before: Cell, schedule: seq<nat>, schedule': seq<nat>, j: nat, k: nat)
    requires c.Good() && j < c.n && k < c.n
    requires Storing(After(c, before, schedule).pcs[j]) && Storing(After(c, before, schedule').pcs[k])
    ensures j == k
    ensures c.Covered() && c.Scans(j, Preimage(c.h, c.target))
  {
    InitInv(c, before);
    RunInv(c, before, Init(c, before), schedule);
    RunInv(c, before, Init(c, before), schedule');
    var s, s' := After(c, before, schedule), After(c, before, schedule');
    assert PcOk(c, s, j) && PcOk(c, s', k);
    HitIsPreimage(c, j, s.pcs[j].i);
    HitIsPreimage(c, k, s'.pcs[k].i);
    SameRange(c, Preimage(c.h, c.target), j, k);
  }

  // ---------------------------------------------------------------- every schedule makes progress

  function Left(c: Config, j: int, pc: Pc): nat
    requires c.n != 0
  {
    match pc
    case Top(i) => if i <= c.End(j) then 2 * (c.End(j) - i) + 4 else 4
    case Try(i) => if i <= c.End(j) then 2 * (c.End(j) - i) + 3 else 3
    case StoreSolution(_) => 3
    case StoreTarget(_) => 2
    case Raise(_) => 1
    case Done => 0
  }

  function TotalLeft(c: Config, pcs: seq<Pc>): nat
    requires c.n != 0
  {
    if pcs == [] then 0 else TotalLeft(c, pcs[..|pcs| - 1]) + Left(c, |pcs| - 1, pcs[|pcs| - 1])
  }

  lemma {:induction false} TotalLeftUpdate(c: Config, pcs: seq<Pc>, j: nat, pc: Pc)
    requires c.n != 0 && j < |pcs|
    ensures TotalLeft(c, pcs[j := pc]) == TotalLeft(c, pcs) - Left(c, j, pcs[j]) + Left(c, j, pc)
  {
    var l := |pcs| - 1;
    if j == l {
      assert pcs[j := pc][..l] == pcs[..l];
    } else {
      assert pcs[j := pc][..l] == pcs[..l][j := pc];
      TotalLeftUpdate(c, pcs[..l], j, pc);
    }
  }

  /** A step of a worker that has not returned uses up some of the remaining work, so no
      interleaving postpones the end of the round forever. */
  lemma StepProgress(c: Config, before: Cell, s: Search, j: nat)
    requires Inv(c, before, s) && j < c.n && s.pcs[j] != Done
    ensures TotalLeft(c, Advance(c, s, j).pcs) < TotalLeft(c, s.pcs)
  {
    assert PcOk(c, s, j);
    TotalLeftUpdate(c, s.pcs, j, Advance(c, s, j).pcs[j]);
  }

  lemma {:induction false} RunAppend(c: Config, s: Search, a: seq<nat>, b: seq<nat>)
    requires c.n != 0 && c.h.p != 0
    ensures RunFrom(c, s, a + b) == RunFrom(c, RunFrom(c, s, a), b)
    decreases |a|
  {
    if a == [] {
      assert a + b == b;
    } else {
      assert (a + b)[0] == a[0] && (a + b)[1..] == a[1..] + b;
      RunAppend(c, Advance(c, s, a[0]), a[1..], b);
    }
  }

  lemma {:induction false} FinishFrom(c: Config, before: Cell, s: Search) returns (rest: seq<nat>)
    requires Inv(c, before, s)
    ensures Finished(RunFrom(c, s, rest))
    decreases TotalLeft(c, s.pcs)
  {
    if Finished(s) {
      rest := [];
    } else {
      var j :| 0 <= j < |s.pcs| && s.pcs[j] != Done;
      StepProgress(c, before, s, j);
      AdvanceInv(c, before, s, j);
      var more := FinishFrom(c, before, Advance(c, s, j));
      rest := [j] + more;
      assert rest[1..] == more;
    }
  }

  /** Every partial schedule extends to one in which all workers return. */
  lemma CanFinish(c: Config, before: Cell, schedule: seq<nat>) returns (rest: seq<nat>)
    requires c.Good()
    ensures Finished(After(c, before, schedule + rest))
  {
    InitInv(c, before);
    RunInv(c, before, Init(c, before), schedule);
    rest := FinishFrom(c, before, After(c, before, schedule));
    RunAppend(c, Init(c, before), schedule, rest);
  }

  // ---------------------------------------------------------------- the stop flag

  /** How many steps of a schedule are worker j's. */
  function StepsOf(schedule: seq<nat>, j: nat): nat {
    if schedule == [] then 0 else One(schedule[0] == j) + StepsOf(schedule[1..], j)
  }

  /** How many steps a worker can still take once the flag is up. */
  function ToStop(pc: Pc): nat {
    match pc
    case Try(_) => 4
    case StoreSolution(_) => 3
    case StoreTarget(_) => 2
    case Raise(_) => 1
    case Top(_) => 1
    case Done => 0
  }

  lemma {:induction false} StopsFrom(c: Config, s: Search, more: seq<nat>, j: nat)
    requires c.n != 0 && c.h.p != 0 && s.flag && j < |s.pcs|
    ensures RunFrom(c, s, more).flag
    ensures StepsOf(more, j) >= ToStop(s.pcs[j]) ==> RunFrom(c, s, more).pcs[j] == Done
    decreases |more|
  {
    if more != [] {
      var s' := Advance(c, s, more[0]);
      assert more[0] == j ==> ToStop(s'.pcs[j]) < ToStop(s.pcs[j]) || s'.pcs[j] == Done;
      assert more[0] != j ==> s'.pcs[j] == s.pcs[j];
      StopsFrom(c, s', more[1..], j);
    }
  }

  /** The flag stops everybody: once it is up, a worker has returned after at most four more
      steps of its own, whatever the others do and however much of its range is left. */
  lemma FlagStopsWorkers(c: Config, before: Cell, schedule: seq<nat>, more: seq<nat>, j: nat)
    requires c.Good() && j < c.n && After(c, before, schedule).flag && StepsOf(more, j) >= 4
    ensures After(c, before, schedule + more).pcs[j] == Done
  {
    RunAppend(c, Init(c, before), schedule, more);
    StopsFrom(c, After(c, before, schedule), more, j);
  }

  // ---------------------------------------------------------------- the running program

  /** The threads of one miner: the two globals and, per thread, where it is. */
  class Threads {
    const c: Config
    var pcs: array<Pc>
    var flag: bool
    var cell: Cell

    ghost predicate Valid()
      reads this
    {
      c.Good() && pcs.Length == c.n
    }

    function State(): Search
      reads this, pcs
    {
      Search(pcs[..], flag, cell)
    }

    /** Fills in the thread ranges and starts the threads. */
    constructor (c: Config, before: Cell)
      requires c.Good()
      ensures Valid() && fresh(pcs) && this.c == c
      ensures State() == Init(c, before)
    {
      this.c := c;
      var a := new Pc[c.n](j => Done);
      pcs, flag, cell := a, false, before;
      new;
      for j := 0 to c.n
        invariant a.Length == c.n && pcs == a && fresh(a) && this.c == c && flag == false && cell == before
        invariant forall k :: 0 <= k < j ==> a[k] == Top(c.Start(k))
      {
        a[j] := Top(c.Start(j));
      }
      assert pcs[..] == Init(c, before).pcs;
    }

    /** Thread j runs on to its next access of shared memory. */
    method Step(j: nat)
      requires Valid()
      modifies this`flag, this`cell, pcs
      ensures Valid() && State() == Advance(c, old(State()), j)
    {
      if j >= pcs.Length { return; }
      match pcs[j] {
        case Top(i) =>
          pcs[j] := if i < c.End(j) && !flag then Try(i) else Done;
        case Try(i) =>
          var result := Eval(c.h, i);
          pcs[j] := if result == c.target then StoreSolution(i) else Top(i + 1);
        case StoreSolution(i) =>
          cell := cell.(solution := i);
          pcs[j] := StoreTarget(i);
        case StoreTarget(i) =>
          cell := cell.(target := Eval(c.h, i));
          pcs[j] := Raise(i);
        case Raise(i) =>
          flag := true;
          pcs[j] := Done;
        case Done =>
      }
    }

    /** Joins every thread. Which thread runs next is arbitrary; whatever is chosen, the
        threads all return, and they leave the preimage in the cell if it was covered and
        otherwise leave the cell alone. */
    method JoinAll(before: Cell)
      requires Valid() && State() == Init(c, before)
      modifies this`flag, this`cell, pcs
      ensures Valid() && Finished(State())
      ensures cell == c.Outcome(before) && (flag <==> c.Covered())
    {
      ghost var schedule: seq<nat> := [];
      InitInv(c, before);
      while exists j :: 0 <= j < pcs.Length && pcs[j] != Done
        invariant Valid() && State() == After(c, before, schedule) && Inv(c, before, State())
        decreases TotalLeft(c, pcs[..])
      {
        var j :| 0 <= j < pcs.Length && pcs[j] != Done;
        StepProgress(c, before, State(), j);
        AdvanceInv(c, before, State(), j);
        RunAppend(c, Init(c, before), schedule, [j]);
        schedule := schedule + [j];
        Step(j);
      }
      assert forall j :: 0 <= j < pcs.Length ==> State().pcs[j] == pcs[j];
      SearchOutcome(c, before, schedule);
    }
  }
}
