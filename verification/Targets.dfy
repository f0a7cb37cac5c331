/** The assembler's per-label target lists: references to the instructions to be
    patched, in the order the labels were used. */
module Targets {
  import opened Words
  import opened Asm
  import opened Backpatching

  /** Assembled bytes and their address, shared between the instruction list and the
      backpatch targets. */
  class AssembledInstruction {
    var value: seq<u8>
    var address: u32

    constructor (data: seq<u8>)
      ensures value == data && address == 0
    {
      value, address := data, 0;
    }
  }

  /** A field of an instruction waiting for a label's address. */
  datatype BackpatchTarget =
    BackpatchTarget(index: nat, size: Size, isRelative: bool, instruction: AssembledInstruction)
  {
    /** Writes the address, or its distance from the instruction, over the field. */
    method Write(address: u32)
      requires index + Bytes(size) <= |instruction.value|
      modifies instruction`value
      ensures instruction.value == Store(
        size, old(instruction.value), index, if isRelative then Sub32(address, instruction.address) else address)
    {
      var v := if isRelative then Sub32(address, instruction.address) else address;
      var addressBytes := [v % 0x100, v / 0x100 % 0x100, v / 0x1_0000 % 0x100, v / 0x100_0000];
      match size
      case Byte =>
        instruction.value := instruction.value[index := addressBytes[0]];
      case Half =>
        instruction.value := instruction.value[index := addressBytes[0]];
        instruction.value := instruction.value[index + 1 := addressBytes[1]];
      case Word =>
        instruction.value := instruction.value[index := addressBytes[0]];
        instruction.value := instruction.value[index + 1 := addressBytes[1]];
        instruction.value := instruction.value[index + 2 := addressBytes[2]];
        instruction.value := instruction.value[index + 3 := addressBytes[3]];
    }

    function BackpatchLocation(): u32
      reads instruction
    {
      Plus(instruction.address, index)
    }
  }

  type TargetTable = map<string, seq<BackpatchTarget>>

  function Listed(table: TargetTable, name: string): seq<BackpatchTarget> {
    if name in table then table[name] else []
  }

  /** The table after one more use of a name. */
  function Registered(table: TargetTable, name: string, target: BackpatchTarget): TargetTable {
    table[name := Listed(table, name) + [target]]
  }

  function TargetOf(hole: Hole, instruction: AssembledInstruction): BackpatchTarget {
    BackpatchTarget(hole.index, hole.size, hole.isRelative, instruction)
  }

  /** The table after an instruction's holes, in order. */
  function RegisterAll(table: TargetTable, holes: seq<Hole>, instruction: AssembledInstruction): TargetTable {
    if holes == [] then table
    else
      var h := holes[|holes| - 1];
      Registered(RegisterAll(table, holes[..|holes| - 1], instruction), h.name, TargetOf(h, instruction))
  }

  lemma {:induction false} RegisterAppend(
    table: TargetTable, a: seq<Hole>, b: seq<Hole>, instruction: AssembledInstruction)
    ensures RegisterAll(table, a + b, instruction) == RegisterAll(RegisterAll(table, a, instruction), b, instruction)
    decreases |b|
  {
    if b == [] {
      assert a + b == a;
    } else {
      var init := b[..|b| - 1];
      RegisterAppend(table, a, init, instruction);
      assert (a + b)[..|a + b| - 1] == a + init;
    }
  }

  /** The table after a whole pass. */
  function RegisterChunks(chunks: seq<Chunk>, instructions: seq<AssembledInstruction>): TargetTable
    requires |instructions| == |chunks|
  {
    if chunks == [] then map[]
    else
      var n := |chunks| - 1;
      RegisterAll(RegisterChunks(chunks[..n], instructions[..n]), chunks[n].code.holes, instructions[n])
  }

  lemma RegisterOneMore(
    chunks: seq<Chunk>, instructions: seq<AssembledInstruction>, c: Chunk, instruction: AssembledInstruction)
    requires |instructions| == |chunks|
    ensures RegisterChunks(chunks + [c], instructions + [instruction])
      == RegisterAll(RegisterChunks(chunks, instructions), c.code.holes, instruction)
  {
    assert (chunks + [c])[..|chunks|] == chunks;
    assert (instructions + [instruction])[..|chunks|] == instructions;
  }

  // ----- what the lists hold

  /** The targets of the listed holes. */
  function TargetsOf(chunks: seq<Chunk>, instructions: seq<AssembledInstruction>, ids: seq<Id>)
    : (r: seq<BackpatchTarget>)
    requires |instructions| == |chunks|
    requires forall k :: 0 <= k < |ids| ==> IsId(chunks, ids[k])
    ensures |r| == |ids|
  {
    seq(|ids|, k requires 0 <= k < |ids| => TargetAt(chunks, instructions, ids[k]))
  }

  function TargetAt(chunks: seq<Chunk>, instructions: seq<AssembledInstruction>, id: Id): BackpatchTarget
    requires |instructions| == |chunks| && IsId(chunks, id)
  {
    TargetOf(HoleOf(chunks, id), instructions[id.chunk])
  }

  lemma {:induction false} HolesListed(
    table: TargetTable, chunks: seq<Chunk>, instructions: seq<AssembledInstruction>, j: nat, holes: seq<Hole>,
    name: string)
    requires |instructions| == |chunks| && j < |chunks| && holes <= chunks[j].code.holes
    ensures forall k :: 0 <= k < |HoleIds(name, holes, j)| ==> IsId(chunks, HoleIds(name, holes, j)[k])
    ensures
      var after := RegisterAll(table, holes, instructions[j]);
      && (name in after <==> name in table || HoleIds(name, holes, j) != [])
      && Listed(after, name) == Listed(table, name) + TargetsOf(chunks, instructions, HoleIds(name, holes, j))
    decreases |holes|
  {
    hide *;
    if holes == [] {
      NothingListed(table, chunks, instructions, name, j);
    } else {
      var n := |holes| - 1;
      UseLast(table, holes, instructions[j], name, j);
      var before := RegisterAll(table, holes[..n], instructions[j]);
      HolesListed(table, chunks, instructions, j, holes[..n], name);
      OneMoreListed(before, holes[n].name, TargetOf(holes[n], instructions[j]), name);
      if holes[n].name == name {
        OneMoreTarget(chunks, instructions, HoleIds(name, holes[..n], j), j, n);
        var target := [TargetOf(holes[n], instructions[j])];
        var targets := TargetsOf(chunks, instructions, HoleIds(name, holes[..n], j));
        assert Listed(table, name) + targets + target == Listed(table, name) + (targets + target);
      }
    }
  }

  lemma NothingListed(
    table: TargetTable, chunks: seq<Chunk>, instructions: seq<AssembledInstruction>, name: string, j: nat)
    requires |instructions| == |chunks| && j < |chunks|
    ensures HoleIds(name, [], j) == [] && RegisterAll(table, [], instructions[j]) == table
    ensures Listed(table, name) == Listed(table, name) + TargetsOf(chunks, instructions, [])
  {
  }

  lemma UseLast(table: TargetTable, holes: seq<Hole>, instruction: AssembledInstruction, name: string, j: nat)
    requires holes != []
    ensures
      var n := |holes| - 1;
      && RegisterAll(table, holes, instruction)
         == Registered(RegisterAll(table, holes[..n], instruction), holes[n].name, TargetOf(holes[n], instruction))
      && HoleIds(name, holes, j)
         == if holes[n].name == name then HoleIds(name, holes[..n], j) + [Id(j, n)] else HoleIds(name, holes[..n], j)
  {
  }

  lemma OneMoreListed(table: TargetTable, used: string, target: BackpatchTarget, name: string)
    ensures
      var after := Registered(table, used, target);
      && (name in after <==> name in table || used == name)
      && Listed(after, name) == if used == name then Listed(table, name) + [target] else Listed(table, name)
  {
  }

  lemma OneMoreTarget(
    chunks: seq<Chunk>, instructions: seq<AssembledInstruction>, ids: seq<Id>, j: nat, i: nat)
    requires |instructions| == |chunks| && j < |chunks| && i < |chunks[j].code.holes|
    requires forall k :: 0 <= k < |ids| ==> IsId(chunks, ids[k])
    ensures IsId(chunks, Id(j, i))
    ensures forall k :: 0 <= k < |ids + [Id(j, i)]| ==> IsId(chunks, (ids + [Id(j, i)])[k])
    ensures TargetsOf(chunks, instructions, ids + [Id(j, i)])
      == TargetsOf(chunks, instructions, ids) + [TargetOf(chunks[j].code.holes[i], instructions[j])]
  {
  }

  /** The list of a name holds the targets of its holes, in source order; a name is
      in the table exactly when it was used. */
  lemma {:induction false} ChunksListed(
    chunks: seq<Chunk>, instructions: seq<AssembledInstruction>, n: nat, name: string)
    requires |instructions| == |chunks| && n <= |chunks|
    ensures forall k :: 0 <= k < |Ids(name, chunks[..n])| ==> IsId(chunks, Ids(name, chunks[..n])[k])
    ensures
      var table := RegisterChunks(chunks[..n], instructions[..n]);
      && (name in table <==> Ids(name, chunks[..n]) != [])
      && Listed(table, name) == TargetsOf(chunks, instructions, Ids(name, chunks[..n]))
    decreases n
  {
    hide RegisterAll, HoleIds;
    if n > 0 {
      assert chunks[..n][..n - 1] == chunks[..n - 1] && instructions[..n][..n - 1] == instructions[..n - 1];
      ChunksListed(chunks, instructions, n - 1, name);
      var table := RegisterChunks(chunks[..n - 1], instructions[..n - 1]);
      HolesListed(table, chunks, instructions, n - 1, chunks[n - 1].code.holes, name);
    }
  }
}
