/** The two ring buffers in shared memory, as the programs lay them out, and their
    protected regions (P3/Codificacion/monitor.c and Proyecto/launch/monitor_launch.c). Each
    region is shown to do to the memory what the model of `Ring` says. */
module Buffers {
  import opened CTypes
  import opened Pow
  import opened RingSlots
  import opened Ring
  import opened MinerTable

  // ---------------------------------------------------------------- P3

  /** What a monitor makes of a slot: a block with its verdict, or the end marker. */
  datatype Item = Data(target: int, solution: int, accepted: bool) | End

  /** The monitor copies target and solution into `int`s before it compares them with -1. */
  function Decode(target: int, solution: int, flag: int): Item {
    if ToInt(target) == -1 && ToInt(solution) == -1 then End else Data(ToInt(target), ToInt(solution), flag == 1)
  }

  /** The flag that the comprobador stores. */
  function FlagOf(target: int, solution: int): int {
    if PowHash(target) == solution then 1 else 0
  }

  /** The marker is the one pair of `int`s that reads as the end: any other pair, also one with a
      single -1, reads as a block, with its own numbers. */
  lemma EndIffMarker(target: int, solution: int, flag: int)
    requires -2147483648 <= target <= 2147483647 && -2147483648 <= solution <= 2147483647
    ensures Decode(target, solution, flag).End? <==> target == -1 && solution == -1
    ensures Decode(target, solution, flag).Data? ==>
      Decode(target, solution, flag) == Data(target, solution, flag == 1)
  {
    IntIdentity(target);
    IntIdentity(solution);
  }

  /** The comprobador accepts exactly the pairs whose target is the preimage of the solution; it
      rejects all others, a solution outside the range of the hash among them. */
  lemma FlagIffPreimage(target: int, solution: int)
    requires 0 <= target < POW_LIMIT
    ensures FlagOf(target, solution) == if 0 <= solution < POW_LIMIT && target == Preimage(HASH, solution) then 1 else 0
  {
    HashIsGood();
    HashesToIff(HASH, target, solution);
  }

  function DecodeAll(target: seq<int>, solution: seq<int>, flag: seq<int>): seq<Item>
    requires |target| == |solution| == |flag|
  {
    seq(|target|, i requires 0 <= i < |target| => Decode(target[i], solution[i], flag[i]))
  }

  /** Writing one slot of the three arrays is writing one item. */
  lemma DecodeUpdate(target: seq<int>, solution: seq<int>, flag: seq<int>, k: nat, t: int, s: int, f: int)
    requires |target| == |solution| == |flag| && k < |target|
    ensures DecodeAll(target[k := t], solution[k := s], flag[k := f])
         == DecodeAll(target, solution, flag)[k := Decode(t, s, f)]
  {
  }

  class IntRing {
    const target: array<int>
    const solution: array<int>
    const flag: array<int>
    var reading: nat
    var writing: nat

    ghost predicate Valid() {
      && target.Length == solution.Length == flag.Length == INT_RING.length
      && target != solution && target != flag && solution != flag
    }

    ghost function View(): Memory<Item>
      reads this, target, solution, flag
      requires Valid()
    {
      Memory(DecodeAll(target[..], solution[..], flag[..]), writing, reading)
    }

    constructor ()
      ensures Valid() && fresh(target) && fresh(solution) && fresh(flag)
      ensures View() == Memory(seq(INT_RING.length, i => Data(0, 0, false)), 0, 0)
    {
      target := new int[INT_RING.length](i => 0);
      solution := new int[INT_RING.length](i => 0);
      flag := new int[INT_RING.length](i => 0);
      reading, writing := 0, 0;
      new;
      assert View().slots == seq(INT_RING.length, i => Data(0, 0, false));
    }

    /** Lines 184-188. */
    method WriteBlock(t: int, s: int)
      requires Valid()
      modifies this`writing, target, solution, flag
      ensures View() == old(View()).Put(INT_RING, Decode(t, s, FlagOf(t, s)))
    {
      var index := writing % INT_RING.length;
      writing := writing + 1;
      target[index] := t;
      solution[index] := s;
      flag[index] := if PowHash(target[index]) == solution[index] then 1 else 0;
      DecodeUpdate(old(target[..]), old(solution[..]), old(flag[..]), index, t, s, FlagOf(t, s));
    }

    /** Lines 155-158. The flag of the slot is left as it was. */
    method WriteEnd()
      requires Valid()
      modifies this`writing, target, solution
      ensures View() == old(View()).Put(INT_RING, End)
    {
      var index := writing % INT_RING.length;
      writing := writing + 1;
      target[index] := -1;
      solution[index] := -1;
      DecodeUpdate(old(target[..]), old(solution[..]), old(flag[..]), index, -1, -1, flag[index]);
      assert flag[..] == flag[..][index := flag[index]];
    }

    /** Lines 236-241 and 261. */
    method Read() returns (item: Item)
      requires Valid()
      modifies this`reading
      ensures (item, View()) == old(View()).Get(INT_RING)
    {
      var aux_reading := reading % INT_RING.length;
      reading := reading + 1;
      var t, s := ToInt(target[aux_reading]), ToInt(solution[aux_reading]);
      if t == -1 && s == -1 {
        return End;
      }
      var aux_flag := flag[aux_reading];
      item := Data(t, s, aux_flag == 1);
    }
  }

  // ---------------------------------------------------------------- final project

  class ByteRing {
    const blocks: array<BlockData>
    var reading: Byte
    var writing: Byte

    ghost predicate Valid() {
      blocks.Length == BYTE_RING.length
    }

    ghost function View(): Memory<BlockData>
      reads this, blocks
      requires Valid()
    {
      Memory(blocks[..], writing, reading)
    }

    constructor (zero: BlockData)
      ensures Valid() && fresh(blocks)
      ensures View() == Memory(seq(BYTE_RING.length, i => zero), 0, 0)
    {
      blocks := new BlockData[BYTE_RING.length](i => zero);
      reading, writing := 0, 0;
    }

    /** Lines 182-184. */
    method Put(msg: BlockData)
      requires Valid()
      modifies this`writing, blocks
      ensures View() == old(View()).Put(BYTE_RING, msg)
    {
      var index := writing % BYTE_RING.length;
      writing := (writing + 1) % 256;
      blocks[index] := msg;
    }

    /** Lines 234-236. */
    method Get() returns (read_block: BlockData)
      requires Valid()
      modifies this`reading
      ensures (read_block, View()) == old(View()).Get(BYTE_RING)
    {
      var aux_reading := reading % BYTE_RING.length;
      reading := (reading + 1) % 256;
      read_block := blocks[aux_reading];
    }
  }
}
