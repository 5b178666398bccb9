/** The shared memory of the miner network and the regions that a miner process executes
    under its mutex (Proyecto/launch/miner_launch.c). Each region is given twice: as a
    method of the shared object, and as a function on its view, which the transition system
    of the whole network uses. */
module MinerSystem {
  import opened CTypes
  import opened MinerTable

  function Increment(b: Byte): Byte { (b + 1) % 256 }

  /** The shared memory: the table of miners, the last archived block, the current block. */
  datatype Sys = Sys(miners: seq<Miner>, last: Block, cur: Block) {

    function Register(m: Miner): Sys {
      this.(miners := miners + [m])
    }

    function SetFirstBlock(): Sys {
      this.(cur := FreshBlock(-1, 0))
    }

    function Join(m: Miner): Sys {
      this.(cur := cur.(voters := cur.voters + [m]))
    }

    function Publish(solution: int): Sys {
      this.(cur := cur.(solution := solution, total := Increment(cur.total), favorable := Increment(cur.favorable)))
    }

    function Vote(solution: int): Sys {
      this.(cur := cur.(total := Increment(cur.total),
                        favorable := if cur.solution == solution then Increment(cur.favorable) else cur.favorable))
    }

    function Award(pid: int): Sys {
      this.(cur := cur.(winner := pid))
    }

    function Rotate(): Sys {
      this.(last := cur, cur := FreshBlock(cur.id, cur.solution))
    }

    function Leave(pid: int): Sys
      requires miners != []
    {
      this.(miners := Deleted(miners, pid))
    }
  }

  /** The processes that the kill loops signal: every listed pid but the sender's. */
  function Others(ms: seq<Miner>, self: int): seq<int> {
    if ms == [] then []
    else Others(ms[..|ms| - 1], self) + (if ms[|ms| - 1].pid != self then [ms[|ms| - 1].pid] else [])
  }

  lemma {:induction false} OthersAre(ms: seq<Miner>, self: int, p: int)
    ensures p in Others(ms, self) <==> Has(ms, p) && p != self
  {
    if ms != [] {
      var l := |ms| - 1;
      OthersAre(ms[..l], self, p);
      assert ms == ms[..l] + [ms[l]];
      HasAppend(ms[..l], ms[l]);
    }
  }

  // ---------------------------------------------------------------- the regions as code

  class SharedSystem {
    var miners: array<Miner>
    var num_miners: Byte
    var last_block: BlockData
    var current_block: BlockData

    ghost predicate Valid()
      reads this
    {
      && miners.Length == MAX_MINERS && num_miners <= MAX_MINERS
      && last_block.Fits() && current_block.Fits()
    }

    ghost function View(): Sys
      reads this, miners
      requires Valid()
    {
      Sys(miners[..num_miners], last_block.View(), current_block.View())
    }

    /** `create_system`: a new memory segment reads as zeroes. */
    constructor ()
      ensures Valid() && fresh(miners)
      ensures View() == Sys([], Block(0, 0, 0, 0, [], 0, 0), Block(0, 0, 0, 0, [], 0, 0))
    {
      var zero := BlockData(0, 0, 0, 0, seq(MAX_MINERS, i => Miner(0, 0)), 0, 0, 0);
      miners := new Miner[MAX_MINERS](i => Miner(0, 0));
      num_miners, last_block, current_block := 0, zero, zero;
    }

    /** Lines 188-189. The index must lie inside the array. */
    method Register(m: Miner)
      requires Valid() && num_miners < MAX_MINERS
      modifies this`num_miners, miners
      ensures Valid() && miners == old(miners)
      ensures View() == old(View()).Register(m)
    {
      miners[num_miners] := m;
      num_miners := num_miners + 1;
    }

    /** Lines 207-212; `unset` is the content of the uninitialised local block. */
    method SetFirstBlock(unset: BlockData, self: int) returns (woken: seq<int>)
      requires Valid() && |unset.miners| == MAX_MINERS
      modifies this`current_block
      ensures Valid() && View() == old(View()).SetFirstBlock()
      ensures woken == Others(View().miners, self)
    {
      var first_block := InitBlock(unset, -1, 0);
      current_block := first_block;
      woken := OtherPids(miners[..num_miners], self);
    }

    /** Lines 253-254. */
    method Join(m: Miner)
      requires Valid() && current_block.num_voters < MAX_MINERS
      modifies this`current_block
      ensures Valid() && View() == old(View()).Join(m)
    {
      var n := current_block.num_voters;
      current_block := current_block.(miners := current_block.miners[n := m]);
      current_block := current_block.(num_voters := n + 1);
    }

    /** Lines 284-292. */
    method Publish(solution: int, self: int) returns (signalled: seq<int>)
      requires Valid()
      modifies this`current_block
      ensures Valid() && View() == old(View()).Publish(solution)
      ensures signalled == Others(View().cur.voters, self)
    {
      current_block := current_block.(solution := solution);
      signalled := OtherPids(current_block.miners[..current_block.num_voters], self);
      current_block := current_block.(total_votes := Increment(current_block.total_votes));
      current_block := current_block.(favorable_votes := Increment(current_block.favorable_votes));
    }

    /** Lines 346-348. */
    method Vote(solution: int)
      requires Valid()
      modifies this`current_block
      ensures Valid() && View() == old(View()).Vote(solution)
    {
      if current_block.solution == solution {
        current_block := current_block.(favorable_votes := Increment(current_block.favorable_votes));
      }
      current_block := current_block.(total_votes := Increment(current_block.total_votes));
    }

    /** Line 314, outside the mutex. */
    method Award(self: int)
      requires Valid()
      modifies this`current_block
      ensures Valid() && View() == old(View()).Award(self)
    {
      current_block := current_block.(winner := self);
    }

    /** Lines 332-340. */
    method Rotate(unset: BlockData, self: int) returns (woken: seq<int>)
      requires Valid() && |unset.miners| == MAX_MINERS
      modifies this`current_block, this`last_block
      ensures Valid() && View() == old(View()).Rotate()
      ensures woken == Others(View().miners, self)
    {
      last_block := current_block;
      var new_block := InitBlock(unset, last_block.id, last_block.solution);
      current_block := new_block;
      woken := OtherPids(miners[..num_miners], self);
    }

    /** Lines 366-374. The last miner does not release the mutex. */
    method Leave(self: int) returns (last: bool)
      requires Valid() && num_miners > 0
      modifies this`num_miners, miners
      ensures Valid() && miners == old(miners)
      ensures View() == old(View()).Leave(self) && (last <==> old(num_miners) == 1)
    {
      last := num_miners == 1;
      num_miners := DeleteMiner(miners, num_miners, self);
    }

    /** The kill loops of lines 209-212, 286-289 and 337-340. */
    static method OtherPids(ms: seq<Miner>, self: int) returns (pids: seq<int>)
      ensures pids == Others(ms, self)
    {
      pids := [];
      for i := 0 to |ms|
        invariant pids == Others(ms[..i], self)
      {
        assert ms[..i + 1][..i] == ms[..i];
        if ms[i].pid != self {
          pids := pids + [ms[i].pid];
        }
      }
      assert ms[..|ms|] == ms;
    }
  }
}
