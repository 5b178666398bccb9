/** How the final project reports the outcome of a block: the register of each miner
    (`_register`) and the monitor, which do not always agree. */
module Display {
  import opened CTypes
  import opened MinerTable
  import opened Network
  import NetworkRaces

  /** The votes of the last unanimous block, or 0. The monitor keeps this number in a variable
      that it sets only when it reads a unanimous block. */
  function LastUnanimous(blocks: seq<Block>): Byte {
    if blocks == [] then 0
    else if Unanimous(blocks[|blocks| - 1]) then blocks[|blocks| - 1].total
    else LastUnanimous(blocks[..|blocks| - 1])
  }

  /** The block at position k is reported as validated by the monitor. */
  predicate MonitorValidates(blocks: seq<Block>, k: nat)
    requires k < |blocks|
  {
    blocks[k].favorable == LastUnanimous(blocks[..k + 1])
  }

  /** The loop of `monitor` over the blocks it reads. */
  method Monitor(blocks: seq<Block>) returns (validated: seq<bool>)
    ensures |validated| == |blocks|
    ensures forall k :: 0 <= k < |blocks| ==> (validated[k] <==> MonitorValidates(blocks, k))
  {
    validated := [];
    var num_miners: Byte := 0;
    for k := 0 to |blocks|
      invariant |validated| == k && num_miners == LastUnanimous(blocks[..k])
      invariant forall i :: 0 <= i < k ==> (validated[i] <==> MonitorValidates(blocks, i))
    {
      var read_block := blocks[k];
      assert blocks[..k + 1][..k] == blocks[..k];
      if read_block.favorable == read_block.total {
        num_miners := read_block.total;
      }
      validated := validated + [read_block.favorable == num_miners];
    }
  }

  /** The loop of `_register` over the blocks it is sent. */
  method Register(blocks: seq<Block>) returns (validated: seq<bool>)
    ensures |validated| == |blocks|
    ensures forall k :: 0 <= k < |blocks| ==> (validated[k] <==> Unanimous(blocks[k]))
  {
    validated := [];
    for k := 0 to |blocks|
      invariant |validated| == k
      invariant forall i :: 0 <= i < k ==> (validated[i] <==> Unanimous(blocks[i]))
    {
      var num_miners := blocks[k].total;
      validated := validated + [blocks[k].favorable == num_miners];
    }
  }

  /** No block up to the k-th is unanimous: the monitor still compares with the 0 it began with. */
  lemma {:induction false} NoneUnanimous(blocks: seq<Block>, k: nat)
    requires k < |blocks| && forall i :: 0 <= i <= k ==> !Unanimous(blocks[i])
    ensures MonitorValidates(blocks, k) <==> blocks[k].favorable == 0
  {
    LastOfNone(blocks[..k + 1]);
  }

  lemma {:induction false} LastOfNone(blocks: seq<Block>)
    requires forall i :: 0 <= i < |blocks| ==> !Unanimous(blocks[i])
    ensures LastUnanimous(blocks) == 0
  {
    if blocks != [] {
      LastOfNone(blocks[..|blocks| - 1]);
    }
  }

  /** The j-th block is the last unanimous one up to the k-th: it compares with its votes. */
  lemma ValidatedAfterUnanimous(blocks: seq<Block>, j: nat, k: nat)
    requires j <= k < |blocks| && Unanimous(blocks[j]) && forall i :: j < i <= k ==> !Unanimous(blocks[i])
    ensures MonitorValidates(blocks, k) <==> blocks[k].favorable == blocks[j].total
  {
    LastIsAt(blocks[..k + 1], j);
  }

  lemma {:induction false} LastIsAt(blocks: seq<Block>, j: nat)
    requires j < |blocks| && Unanimous(blocks[j]) && forall i :: j < i < |blocks| ==> !Unanimous(blocks[i])
    ensures LastUnanimous(blocks) == blocks[j].total
    decreases |blocks|
  {
    if j < |blocks| - 1 {
      LastIsAt(blocks[..|blocks| - 1], j);
    }
  }

  /** The monitor reports a block as the register does exactly when the block is unanimous or
      its favourable votes differ in number from the votes of the last unanimous block before. */
  lemma MonitorAgreesIff(blocks: seq<Block>, k: nat)
    requires k < |blocks|
    ensures (MonitorValidates(blocks, k) <==> Unanimous(blocks[k]))
       <==> Unanimous(blocks[k]) || blocks[k].favorable != LastUnanimous(blocks[..k])
  {
    assert blocks[..k + 1][..k] == blocks[..k];
  }

  /** A split block that the monitor reports as validated: the two archived blocks of the run
      behind `NetworkRaces.StaleTargetSplitsVote`. The first has one vote, which is favourable;
      the second has two, of which one is. */
  lemma SplitBlockValidated() returns (s: Net, blocks: seq<Block>)
    ensures Reachable(s) && |blocks| == |s.history| && forall k :: 0 <= k < |blocks| ==> blocks[k] == s.history[k].block
    ensures |blocks| == 2 && MonitorValidates(blocks, 1) && !Unanimous(blocks[1])
  {
    s := NetworkRaces.SplitBlockArchived();
    hide Reachable;
    blocks := [NetworkRaces.WON, NetworkRaces.SPLIT];
    assert blocks[..2] == blocks && blocks[..1] == [blocks[0]];
    assert Unanimous(blocks[0]) && LastUnanimous([blocks[0]]) == 1;
  }
}
