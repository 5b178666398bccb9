/** The table of miners in shared memory and its in-place deletion, and the block
    structure (Proyecto/srclib/miner.c, Proyecto/includes/miner.h). */
module MinerTable {
  import opened CTypes

  const MAX_MINERS := 100

  datatype Miner = Miner(pid: int, coins: int)

  function Pids(ms: seq<Miner>): seq<int> {
    seq(|ms|, i requires 0 <= i < |ms| => ms[i].pid)
  }

  predicate Has(ms: seq<Miner>, pid: int) {
    exists i :: 0 <= i < |ms| && ms[i].pid == pid
  }

  ghost predicate DistinctPids(ms: seq<Miner>) {
    forall i, j :: 0 <= i < j < |ms| ==> ms[i].pid != ms[j].pid
  }

  lemma HasAppend(ms: seq<Miner>, m: Miner)
    ensures forall q :: Has(ms + [m], q) <==> Has(ms, q) || q == m.pid
    ensures DistinctPids(ms) && !Has(ms, m.pid) ==> DistinctPids(ms + [m])
  {
    var ms' := ms + [m];
    forall q ensures Has(ms', q) <==> Has(ms, q) || q == m.pid {
      if i :| 0 <= i < |ms| && ms[i].pid == q {
        assert ms'[i].pid == q;
      }
      assert ms'[|ms|].pid == m.pid;
    }
  }

  /** Position of the first entry for pid, or |ms|. */
  function IndexOf(ms: seq<Miner>, pid: int): (k: nat)
    ensures k <= |ms| && (k < |ms| <==> Has(ms, pid))
    ensures k < |ms| ==> ms[k].pid == pid
    ensures forall i :: 0 <= i < k ==> ms[i].pid != pid
  {
    if ms == [] then 0
    else if ms[0].pid == pid then 0
    else 1 + IndexOf(ms[1..], pid)
  }

  /** The table without the entries for pid, in the same order. */
  function Without(ms: seq<Miner>, pid: int): seq<Miner> {
    if ms == [] then []
    else Without(ms[..|ms| - 1], pid) + (if ms[|ms| - 1].pid == pid then [] else [ms[|ms| - 1]])
  }

  /** What `delete_miner` leaves in the table: the first entry for pid is removed; if there
      is none, the last entry is dropped, because 255 never equals -1. */
  function Deleted(ms: seq<Miner>, pid: int): seq<Miner>
    requires ms != []
  {
    var k := IndexOf(ms, pid);
    if k < |ms| then ms[..k] + ms[k + 1..] else ms[..|ms| - 1]
  }

  lemma {:induction false} WithoutAbsent(ms: seq<Miner>, pid: int)
    requires !Has(ms, pid)
    ensures Without(ms, pid) == ms
  {
    if ms != [] {
      var l := |ms| - 1;
      assert forall i :: 0 <= i < l ==> ms[..l][i] == ms[i];
      WithoutAbsent(ms[..l], pid);
      assert ms == ms[..l] + [ms[l]];
    }
  }

  lemma {:induction false} WithoutConcat(a: seq<Miner>, b: seq<Miner>, pid: int)
    ensures Without(a + b, pid) == Without(a, pid) + Without(b, pid)
  {
    if b == [] {
      assert a + b == a;
    } else {
      var l := |b| - 1;
      assert (a + b)[..|a + b| - 1] == a + b[..l];
      WithoutConcat(a, b[..l], pid);
    }
  }

  lemma WithoutSingle(x: Miner, pid: int)
    ensures Without([x], pid) == if x.pid == pid then [] else [x]
  {
    assert [x][..0] == [];
  }

  lemma WithoutMiddle(a: seq<Miner>, x: Miner, b: seq<Miner>)
    requires !Has(a, x.pid) && !Has(b, x.pid)
    ensures Without(a + [x] + b, x.pid) == a + b
  {
    hide Without, Has;
    WithoutConcat(a + [x], b, x.pid);
    WithoutConcat(a, [x], x.pid);
    WithoutSingle(x, x.pid);
    WithoutAbsent(a, x.pid);
    WithoutAbsent(b, x.pid);
    assert a + [] == a;
  }

  lemma WithoutOne(ms: seq<Miner>, k: nat)
    requires DistinctPids(ms) && k < |ms|
    ensures Without(ms, ms[k].pid) == ms[..k] + ms[k + 1..]
  {
    OnlyOnce(ms, k);
    hide Without, Has, DistinctPids;
    var a, b := ms[..k], ms[k + 1..];
    assert a + [ms[k]] + b == ms;
    WithoutMiddle(a, ms[k], b);
  }

  lemma OnlyOnce(ms: seq<Miner>, k: nat)
    requires DistinctPids(ms) && k < |ms|
    ensures !Has(ms[..k], ms[k].pid) && !Has(ms[k + 1..], ms[k].pid)
  {
  }

  /** Deleting removes exactly the given miner, in order, if and only if it is in the table. */
  lemma DeletedIsRemovalIffPresent(ms: seq<Miner>, pid: int)
    requires DistinctPids(ms) && ms != []
    ensures Deleted(ms, pid) == Without(ms, pid) <==> Has(ms, pid)
  {
    if Has(ms, pid) {
      WithoutOne(ms, IndexOf(ms, pid));
    } else {
      WithoutAbsent(ms, pid);
    }
  }

  lemma DeletedAt(ms: seq<Miner>, pid: int)
    requires ms != []
    ensures |Deleted(ms, pid)| == |ms| - 1
    ensures forall j :: 0 <= j < |ms| - 1 ==> Deleted(ms, pid)[j] == if j < IndexOf(ms, pid) then ms[j] else ms[j + 1]
  {
    hide Has, IndexOf;
  }

  method FindMinerIndex(miners: array<Miner>, num: Byte, pid: int) returns (index: Byte)
    requires num <= miners.Length
    ensures index == if Has(miners[..num], pid) then IndexOf(miners[..num], pid) else 255
  {
    var i := 0;
    while i < num
      invariant 0 <= i <= num
      invariant forall j :: 0 <= j < i ==> miners[j].pid != pid
    {
      if miners[i].pid == pid {
        assert miners[..num][i].pid == pid;
        return i;
      }
      i := i + 1;
    }
    return 255;
  }

  /** `delete_miner`: shifts the entries after the found one down by one place. */
  method DeleteMiner(miners: array<Miner>, num: Byte, pid: int) returns (num': Byte)
    requires num <= miners.Length
    modifies miners
    ensures num' == if num == 0 then 255 else num - 1
    ensures num > 0 ==> miners[..num - 1] == Deleted(old(miners[..num]), pid)
    ensures num > 0 ==> miners[num - 1..] == old(miners[num - 1..])
    ensures num == 0 ==> miners[..] == old(miners[..])
  {
    hide Deleted;
    ghost var before := miners[..];
    ghost var table := miners[..num];
    var index := FindMinerIndex(miners, num, pid);
    if index != -1 {
      var i: int := index;
      while i < num - 1
        invariant index <= i && (i <= num - 1 || i == index)
        invariant forall j :: 0 <= j < miners.Length && !(index <= j < i) ==> miners[j] == before[j]
        invariant forall j :: index <= j < i && j < num - 1 ==> miners[j] == before[j + 1]
      {
        miners[i] := miners[i + 1];
        i := i + 1;
      }
    }
    num' := if num == 0 then 255 else num - 1;
    if num > 0 {
      DeletedAt(table, pid);
      forall j | 0 <= j < num - 1 ensures miners[j] == Deleted(table, pid)[j] {
        assert table[j] == before[j] && table[j + 1] == before[j + 1];
      }
      assert forall j :: num - 1 <= j < miners.Length ==> miners[j] == before[j];
    }
  }

  // ---------------------------------------------------------------- blocks

  /** A block, with its list of voters as a sequence. */
  datatype Block = Block(id: int, target: int, solution: int, winner: int, voters: seq<Miner>, total: Byte,
      favorable: Byte)

  /** All votes so far are favourable: the winner's acceptance test. */
  predicate Unanimous(b: Block) {
    b.total == b.favorable
  }

  /** The block as laid out in memory: entries past the voters are left-overs. */
  datatype BlockData = BlockData(id: int, target: int, solution: int, winner: int,
                                 miners: seq<Miner>, num_voters: Byte, total_votes: Byte, favorable_votes: Byte)
  {
    predicate Fits() {
      |miners| == MAX_MINERS && num_voters <= MAX_MINERS
    }

    function View(): Block
      requires Fits()
    {
      Block(id, target, solution, winner, miners[..num_voters], total_votes, favorable_votes)
    }
  }

  /** `init_block` writes every field but the list of miners. */
  method InitBlock(block: BlockData, last_id: int, target: int) returns (block': BlockData)
    requires |block.miners| == MAX_MINERS
    ensures block'.Fits() && block'.View() == FreshBlock(last_id, target)
  {
    block' := block.(id := ToShort(last_id + 1));
    block' := block'.(target := ToInt(target));
    block' := block'.(solution := 0, winner := 0);
    block' := block'.(total_votes := 0, favorable_votes := 0, num_voters := 0);
  }

  function FreshBlock(last_id: int, target: int): Block {
    Block(ToShort(last_id + 1), ToInt(target), 0, 0, [], 0, 0)
  }
}
