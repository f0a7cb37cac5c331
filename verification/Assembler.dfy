/** The assembler as it runs: one pass that appends to shared instruction objects and
    records targets, then patching in place label by label, then the output file. */
module Assembler {
  import opened Words
  import Asm
  import opened Emission
  import opened Fxf
  import opened Placement
  import opened Backpatching
  import opened Targets

  predicate Distinct(instructions: seq<AssembledInstruction>) {
    forall i, j :: 0 <= i < j < |instructions| ==> instructions[i] != instructions[j]
  }

  ghost predicate HolesInside(chunks: seq<Asm.Chunk>) {
    forall j :: 0 <= j < |chunks| ==> Asm.HolesFit(chunks[j].code.holes, 0, |chunks[j].code.bytes|)
  }

  class Assembler {
    var labelTargets: TargetTable
    var labelAddresses: Asm.LabelTable
    var relocAddresses: seq<u32>
    var instructions: seq<AssembledInstruction>
    var currentAddress: u32

    constructor ()
      ensures Passed(Asm.Pass([], map[], 0)) && relocAddresses == []
    {
      labelTargets, labelAddresses, relocAddresses, instructions, currentAddress := map[], map[], [], [], 0;
    }

    /** The state is what the pass has recorded so far. */
    ghost predicate Passed(p: Asm.Pass)
      reads this, instructions
    {
      && |instructions| == |p.chunks| && Distinct(instructions)
      && (forall j :: 0 <= j < |instructions| ==>
           instructions[j].value == p.chunks[j].code.bytes && instructions[j].address == p.chunks[j].address)
      && labelTargets == RegisterChunks(p.chunks, instructions)
      && labelAddresses == p.labels
      && currentAddress == p.address
    }

    // ----- assembling one node

    method GenerateBackpatchImmediate(name: string, size: Size, instruction: AssembledInstruction, isRelative: bool)
      modifies this`labelTargets, instruction`value
      ensures instruction.value == old(instruction.value) + Asm.Placeholders(size)
      ensures labelTargets == Registered(
        old(labelTargets), name, BackpatchTarget(|old(instruction.value)|, size, isRelative, instruction))
    {
      var index := |instruction.value|;
      for i := 0 to Bytes(size)
        invariant instruction.value == old(instruction.value) + seq(i, _ => Asm.PLACEHOLDER)
        invariant labelTargets == old(labelTargets)
      {
        instruction.value := instruction.value + [Asm.PLACEHOLDER];
      }
      if name !in labelTargets {
        labelTargets := labelTargets[name := []];
      }
      var target := BackpatchTarget(index, size, isRelative, instruction);
      labelTargets := labelTargets[name := labelTargets[name] + [target]];
    }

    method PushOperand(operand: Asm.Operand, instruction: AssembledInstruction)
      modifies this`labelTargets, instruction`value
      ensures
        var code := Asm.OperandCode(operand, |old(instruction.value)|);
        && instruction.value == old(instruction.value) + code.bytes
        && labelTargets == RegisterAll(old(labelTargets), code.holes, instruction)
    {
      match operand
      case Register(register) => instruction.value := instruction.value + [register];
      case RegisterPointer(register) => instruction.value := instruction.value + [register];
      case Immediate8(immediate) => instruction.value := instruction.value + [immediate];
      case Immediate16(immediate) => instruction.value := instruction.value + Le(Half, immediate);
      case Immediate32(immediate) => instruction.value := instruction.value + Le(Word, immediate);
      case ImmediatePointer(immediate) => instruction.value := instruction.value + Le(Word, immediate);
      case LabelOperand(name, size, isRelative) =>
        GenerateBackpatchImmediate(name, size, instruction, isRelative);
      case LabelOperandPointer(name, isRelative) =>
        GenerateBackpatchImmediate(name, Word, instruction, isRelative);
    }

    method NodeToImmediateValues(node: Asm.AstNode, instruction: AssembledInstruction)
      requires Asm.IsOperation(node) && |instruction.value| == 2
      modifies this`labelTargets, instruction`value
      ensures
        var code := Asm.OperandsCode(node);
        && instruction.value == old(instruction.value) + code.bytes
        && labelTargets == RegisterAll(old(labelTargets), code.holes, instruction)
    {
      hide Asm.OperandCode, RegisterAll;
      match node
      case OperationZero(_, _) => NoHolesRegistered(labelTargets, instruction);
      case OperationOne(_, _, _, operand) => PushOperand(operand, instruction);
      case OperationTwo(_, _, _, lhs, rhs) =>
        PushOperand(rhs, instruction);
        PushOperand(lhs, instruction);
        ghost var source := Asm.OperandCode(rhs, 2);
        RegisterAppend(
          old(labelTargets), source.holes, Asm.OperandCode(lhs, 2 + |source.bytes|).holes, instruction);
    }

    /** None where the source panics. */
    method AssembleNode(node: Asm.AstNode) returns (r: Option<AssembledInstruction>)
      modifies this`labelTargets
      ensures r.Some? <==> Asm.AssembleNode(node).Some?
      ensures r.Some? ==>
        var code := Asm.AssembleNode(node).value;
        && fresh(r.value)
        && r.value.value == code.bytes
        && labelTargets == RegisterAll(old(labelTargets), code.holes, r.value)
    {
      hide Asm.OperandsCode, Asm.ConditionSourceDestinationToByte, Asm.InstructionToByte;
      var instruction := new AssembledInstruction([]);
      match node {
        case DataByte(byte) => instruction.value := [byte];
        case DataHalf(half) => instruction.value := Le(Half, half);
        case DataWord(word) => instruction.value := Le(Word, word);
        case DataStr(bytes) => instruction.value := bytes;
        case LabelData(name, size, isRelative) =>
          GenerateBackpatchImmediate(name, size, instruction, isRelative);
        case OperationZero(_, _) | OperationOne(_, _, _, _) | OperationTwo(_, _, _, _, _) =>
          var first := Asm.ConditionSourceDestinationToByte(node);
          if first.None? {
            return None;
          }
          instruction.value := [first.value, Asm.InstructionToByte(node)];
          NodeToImmediateValues(node, instruction);
        case _ => return None;
      }
      r := Some(instruction);
    }

    // ----- the pass over the tree

    /** Appends an instruction that is not in the list yet. */
    method PushInstruction(instruction: AssembledInstruction, ghost p: Asm.Pass, ghost c: Asm.Chunk)
      requires |instructions| == |p.chunks| && Distinct(instructions) && instruction !in instructions
      requires forall j :: 0 <= j < |instructions| ==>
        instructions[j].value == p.chunks[j].code.bytes && instructions[j].address == p.chunks[j].address
      requires labelTargets == RegisterAll(RegisterChunks(p.chunks, instructions), c.code.holes, instruction)
      requires instruction.value == c.code.bytes && instruction.address == c.address
      requires labelAddresses == p.labels
      modifies this`instructions
      ensures instructions == old(instructions) + [instruction]
      ensures Passed(Asm.Pass(p.chunks + [c], p.labels, currentAddress))
    {
      hide RegisterAll, RegisterChunks;
      RegisterOneMore(p.chunks, instructions, c, instruction);
      instructions := instructions + [instruction];
    }

    /** Bytes that are neither an instruction nor addressed data. */
    method PushBytes(bytes: seq<u8>, address: u32, ghost p: Asm.Pass)
      requires Passed(p)
      modifies this`instructions, this`currentAddress
      ensures |instructions| == |old(instructions)| + 1 && old(instructions) <= instructions
      ensures fresh(instructions[|old(instructions)|])
      ensures Passed(Asm.Pass(p.chunks + [Asm.Chunk(Asm.Code(bytes, []), 0)], p.labels, address))
    {
      hide RegisterAll, RegisterChunks;
      currentAddress := address;
      var instruction := new AssembledInstruction(bytes);
      NoHolesRegistered(labelTargets, instruction);
      PushInstruction(instruction, p, Asm.Chunk(Asm.Code(bytes, []), 0));
    }

    /** A node that is assembled; false where the source panics. */
    method AddCode(node: Asm.AstNode, ghost p: Asm.Pass) returns (ok: bool)
      requires Passed(p)
      modifies this`instructions, this`currentAddress, this`labelTargets
      ensures ok <==> Asm.AssembleNode(node).Some?
      ensures ok ==>
        && |instructions| == |old(instructions)| + 1 && old(instructions) <= instructions
        && fresh(instructions[|old(instructions)|])
        && var code := Asm.AssembleNode(node).value;
        Passed(Asm.Pass(p.chunks + [Asm.Chunk(code, p.address)], p.labels, Asm.Plus(p.address, |code.bytes|)))
      ensures !ok ==> instructions == old(instructions)
    {
      hide RegisterAll, RegisterChunks, Asm.AssembleNode;
      var instruction := AssembleNode(node);
      if instruction.None? {
        return false;
      }
      instruction.value.address := currentAddress;
      currentAddress := Asm.Plus(currentAddress, |instruction.value.value|);
      PushInstruction(instruction.value, p, Asm.Chunk(Asm.AssembleNode(node).value, p.address));
      ok := true;
    }

    /** One node of the tree; false where the source panics. */
    method AddNode(node: Asm.AstNode, ghost p: Asm.Pass) returns (ok: bool)
      requires Passed(p)
      modifies this
      ensures ok <==> Asm.PassNode(p, node).Some?
      ensures ok ==> Passed(Asm.PassNode(p, node).value)
      ensures relocAddresses == old(relocAddresses)
      ensures old(instructions) <= instructions
      ensures forall j :: |old(instructions)| <= j < |instructions| ==> fresh(instructions[j])
    {
      hide RegisterAll, RegisterChunks, Asm.AssembleNode, Distinct, Asm.Plus;
      ok := true;
      match node {
        case LabelDefine(name) =>
          labelAddresses := labelAddresses[name := Asm.Label(currentAddress, false)];
        case Constant(name, address) =>
          labelAddresses := labelAddresses[name := Asm.Label(address, true)];
        case Origin(address) =>
          ok := address > currentAddress;
          currentAddress := address;
        case OriginPadded(address) =>
          if address <= currentAddress {
            return false;
          }
          PushBytes(seq(address - currentAddress, _ => 0), address, p);
        case DataFill(value, size) =>
          PushBytes(seq(size, _ => value), Asm.Plus(currentAddress, size), p);
        case IncludedBinary(bytes) =>
          PushBytes(bytes, Asm.Plus(currentAddress, |bytes|), p);
        case _ =>
          ok := AddCode(node, p);
      }
    }

    /** The pass over the whole tree. */
    method AddNodes(ast: seq<Asm.AstNode>) returns (ok: bool)
      requires Passed(Asm.Pass([], map[], 0))
      modifies this
      ensures ok <==> Asm.FirstPass(0, ast).Some?
      ensures ok ==> Passed(Asm.FirstPass(0, ast).value)
      ensures relocAddresses == old(relocAddresses)
      ensures forall j :: 0 <= j < |instructions| ==> fresh(instructions[j])
    {
      hide Asm.PassNode;
      for i := 0 to |ast|
        invariant Asm.FirstPass(0, ast[..i]).Some?
        invariant Passed(Asm.FirstPass(0, ast[..i]).value)
        invariant relocAddresses == old(relocAddresses)
        invariant forall j :: 0 <= j < |instructions| ==> fresh(instructions[j])
      {
        assert ast[..i + 1][..i] == ast[..i];
        var added := AddNode(ast[i], Asm.FirstPass(0, ast[..i]).value);
        if !added {
          PassStops(0, ast, i + 1);
          return false;
        }
      }
      assert ast[..|ast|] == ast;
      ok := true;
    }

    // ----- backpatching

    /** The instructions of a pass, with some holes filled. */
    ghost predicate PartlyPatched(chunks: seq<Asm.Chunk>, labels: Asm.LabelTable, filled: set<Id>)
      reads this, instructions
    {
      && |instructions| == |chunks| && Distinct(instructions)
      && forall j :: 0 <= j < |instructions| ==>
        && instructions[j].value == Filled(chunks[j], j, labels, filled)
        && instructions[j].address == chunks[j].address
        && Asm.HolesFit(chunks[j].code.holes, 0, |chunks[j].code.bytes|)
    }

    /** Patches one field. */
    method WriteTarget(
      target: BackpatchTarget, address: u32,
      ghost chunks: seq<Asm.Chunk>, ghost labels: Asm.LabelTable, ghost filled: set<Id>, ghost id: Id)
      requires PartlyPatched(chunks, labels, filled)
      requires IsId(chunks, id) && target == TargetAt(chunks, instructions, id)
      requires HoleOf(chunks, id).name in labels && address == labels[HoleOf(chunks, id).name].address
      modifies target.instruction`value
      ensures PartlyPatched(chunks, labels, filled + {id})
    {
      hide Filled, Store, Asm.HolesFit;
      FillOne(chunks[id.chunk], id.chunk, labels, filled, id.hole);
      HoleInside(chunks, id);
      target.Write(address);
      forall j | 0 <= j < |instructions| && j != id.chunk
        ensures instructions[j].value == Filled(chunks[j], j, labels, filled + {id})
      {
        OtherFilled(chunks[j], j, labels, filled, id);
        assert instructions[j] != target.instruction;
      }
    }

    /** Patches every use of one label, and notes where they are unless the label is
        a constant. */
    method PerformBackpatching(
      targets: seq<BackpatchTarget>, address: Asm.Label,
      ghost name: string, ghost chunks: seq<Asm.Chunk>, ghost labels: Asm.LabelTable, ghost filled: set<Id>)
      requires PartlyPatched(chunks, labels, filled)
      requires name in labels && address == labels[name]
      requires forall k :: 0 <= k < |Ids(name, chunks)| ==> IsId(chunks, Ids(name, chunks)[k])
      requires targets == TargetsOf(chunks, instructions, Ids(name, chunks))
      modifies this`relocAddresses, instructions
      ensures PartlyPatched(chunks, labels, filled + set id | id in Ids(name, chunks))
      ensures relocAddresses == old(relocAddresses) + Asm.Relocs(chunks, labels, {name})
    {
      hide Filled, Asm.HolesFit, Asm.Relocs, Ids;
      ghost var ids := Ids(name, chunks);
      ghost var now := filled;
      IdsAreIds(name, chunks);
      assert chunks[..|chunks|] == chunks;
      RelocsOfOne(chunks, |chunks|, labels, name);
      for k := 0 to |targets|
        invariant now == filled + set id | id in ids[..k]
        invariant PartlyPatched(chunks, labels, now)
        invariant relocAddresses
          == old(relocAddresses) + if address.isConst then [] else Locations(chunks, ids)[..k]
      {
        var target := targets[k];
        assert target.BackpatchLocation() == Locations(chunks, ids)[k];
        WriteTarget(target, address.address, chunks, labels, now, ids[k]);
        now := now + {ids[k]};
        assert ids[..k + 1] == ids[..k] + [ids[k]];
        if !address.isConst {
          relocAddresses := relocAddresses + [target.BackpatchLocation()];
        }
      }
      assert ids[..|targets|] == ids;
    }

    /** The names in `done` are patched and their places noted. */
    ghost predicate Backpatched(p: Asm.Pass, done: set<string>, filled: set<Id>)
      reads this, instructions
    {
      && |instructions| == |p.chunks|
      && labelTargets == RegisterChunks(p.chunks, instructions)
      && labelAddresses == p.labels
      && PartlyPatched(p.chunks, p.labels, filled)
      && (forall id :: IsId(p.chunks, id) && HoleOf(p.chunks, id).name in done ==> id in filled)
      && multiset(relocAddresses) == multiset(Asm.Relocs(p.chunks, p.labels, done))
    }

    /** Patches one more name; false if it was never defined. */
    method BackpatchName(name: string, ghost p: Asm.Pass, ghost done: set<string>, ghost filled: set<Id>)
      returns (ok: bool, ghost now: set<Id>)
      requires Backpatched(p, done, filled)
      requires name in labelTargets && name !in done
      modifies this`relocAddresses, instructions
      ensures ok <==> name in p.labels
      ensures !ok ==> !Asm.Defined(p.chunks, p.labels)
      ensures ok ==> Backpatched(p, done + {name}, now)
    {
      hide Filled, Asm.HolesFit, Asm.Relocs, Ids, RegisterChunks;
      now := filled + set id | id in Ids(name, p.chunks);
      UsesListed(p.chunks, instructions, name);
      if name !in labelAddresses {
        NotDefined(p.chunks, p.labels, name);
        return false, now;
      }
      PerformBackpatching(labelTargets[name], labelAddresses[name], name, p.chunks, p.labels, filled);
      IdsListed(name, p.chunks);
      RelocsAdd(p.chunks, p.labels, done, name);
      ok := true;
    }

    /** Patches label by label, in whatever order the table gives its keys; false if a
        label was used but never defined. */
    method Backpatch(ghost p: Asm.Pass) returns (ok: bool)
      requires Passed(p) && relocAddresses == []
      requires HolesInside(p.chunks)
      modifies this`relocAddresses, instructions
      ensures ok <==> Asm.Defined(p.chunks, p.labels)
      ensures ok ==>
        && |instructions| == |p.chunks|
        && forall j :: 0 <= j < |instructions| ==> instructions[j].value == Asm.Patched(p.chunks[j], p.labels)
      ensures ok ==> multiset(relocAddresses) == multiset(Asm.Relocs(p.chunks, p.labels, p.labels.Keys))
    {
      hide Filled, Asm.HolesFit, Asm.Relocs, Ids, RegisterChunks, Asm.Patched, Asm.Defined, Passed, Backpatched;
      hide HolesInside;
      ghost var done: set<string> := {};
      ghost var filled: set<Id> := {};
      var remaining := labelTargets.Keys;
      NothingBackpatched(p);
      while remaining != {}
        invariant remaining <= labelTargets.Keys && done == labelTargets.Keys - remaining
        invariant done <= p.labels.Keys
        invariant Backpatched(p, done, filled)
        decreases |remaining|
      {
        var name :| name in remaining;
        remaining := remaining - {name};
        var found;
        found, filled := BackpatchName(name, p, done, filled);
        if !found {
          return false;
        }
        done := done + {name};
      }
      AllBackpatched(p, done, filled);
      ok := true;
    }

    // ----- the output file

    /** The instructions' bytes, behind what is already written. */
    method AppendCode(head: seq<u8>, ghost chunks: seq<Asm.Chunk>, ghost labels: Asm.LabelTable)
      returns (binary: seq<u8>)
      requires Asm.Defined(chunks, labels) && |instructions| == |chunks|
      requires forall j :: 0 <= j < |instructions| ==> instructions[j].value == Asm.Patched(chunks[j], labels)
      ensures binary == head + Asm.Output(chunks, labels)
    {
      hide Asm.Patched, Asm.DefinedIn;
      binary := head;
      assert chunks[..|chunks|] == chunks;
      for k := 0 to |instructions|
        invariant Asm.Defined(chunks[..k], labels)
        invariant binary == head + Asm.Output(chunks[..k], labels)
      {
        assert chunks[..k + 1] == chunks[..k] + [chunks[k]];
        OutputAppend(chunks[..k], chunks[k], labels);
        binary := binary + instructions[k].value;
      }
    }

    method CodeSize(ghost chunks: seq<Asm.Chunk>) returns (size: nat)
      requires |instructions| == |chunks|
      requires forall j :: 0 <= j < |instructions| ==> |instructions[j].value| == |chunks[j].code.bytes|
      ensures size == Asm.Total(chunks)
    {
      size := 0;
      assert chunks[..|chunks|] == chunks;
      for k := 0 to |instructions|
        invariant size == Asm.Total(chunks[..k])
      {
        assert chunks[..k + 1][..k] == chunks[..k];
        size := size + |instructions[k].value|;
      }
    }

    /** The relocation table, behind what is already written, and its size. */
    method AppendTable(head: seq<u8>) returns (binary: seq<u8>, size: u32)
      ensures binary == head + TableBytes(relocAddresses)
      ensures size == Asm.Plus(0, 4 * |relocAddresses|)
    {
      hide Le, TableBytes;
      binary, size := head, 0;
      NoTable();
      for k := 0 to |relocAddresses|
        invariant binary == head + TableBytes(relocAddresses[..k])
        invariant size == Asm.Plus(0, 4 * k)
      {
        TableOneMore(relocAddresses, k);
        binary := binary + Le(Word, relocAddresses[k]);
        size := Asm.Plus(size, 4);
      }
      assert relocAddresses[..|relocAddresses|] == relocAddresses;
    }

    /** The code with an FXF header before it and the relocation table after it; the
        table's size and place are filled in at the end. */
    method WriteFxf(ghost chunks: seq<Asm.Chunk>, ghost labels: Asm.LabelTable) returns (binary: seq<u8>)
      requires Asm.Defined(chunks, labels) && |instructions| == |chunks|
      requires forall j :: 0 <= j < |instructions| ==> instructions[j].value == Asm.Patched(chunks[j], labels)
      ensures binary == FxfImage(Asm.Output(chunks, labels), relocAddresses)
    {
      hide Asm.Patched, Asm.Output, Asm.Defined, Asm.Plus, Store, Header, TableBytes;
      var codeSize := CodeSize(chunks);
      Asm.OutputLength(chunks, labels);
      binary := AppendCode(Header(Asm.Plus(0, codeSize), 0, 0), chunks, labels);
      PlusPlus(0, HEADER_SIZE, codeSize);
      var relocPtr := Asm.Plus(0, |binary|);
      var relocTableSize;
      binary, relocTableSize := AppendTable(binary);
      FillHeader(
        Asm.Plus(0, codeSize), Asm.Output(chunks, labels), TableBytes(relocAddresses), relocTableSize, relocPtr);
      binary := Store(Word, binary, FXF_RELOC_SIZE, relocTableSize);
      binary := Store(Word, binary, FXF_RELOC_PTR, relocPtr);
      StartPlus();
    }

    lemma NothingBackpatched(p: Asm.Pass)
      requires Passed(p) && relocAddresses == []
      requires HolesInside(p.chunks)
      ensures Backpatched(p, {}, {})
    {
      hide Filled, Asm.HolesFit, Asm.Relocs;
      forall j | 0 <= j < |instructions|
        ensures instructions[j].value == Filled(p.chunks[j], j, p.labels, {})
      {
        NothingFilled(p.chunks[j], j, p.labels);
      }
      RelocsNone(p.chunks, p.labels);
    }

    lemma AllBackpatched(p: Asm.Pass, done: set<string>, filled: set<Id>)
      requires Backpatched(p, done, filled) && done == labelTargets.Keys && done <= p.labels.Keys
      ensures |instructions| == |p.chunks| && Asm.Defined(p.chunks, p.labels)
      ensures forall j :: 0 <= j < |instructions| ==> instructions[j].value == Asm.Patched(p.chunks[j], p.labels)
      ensures multiset(relocAddresses) == multiset(Asm.Relocs(p.chunks, p.labels, p.labels.Keys))
    {
      hide Filled, Asm.HolesFit, Asm.Relocs, Asm.Patched, RegisterChunks;
      AllDone(p.chunks, instructions, p.labels, done);
      forall j | 0 <= j < |instructions|
        ensures instructions[j].value == Asm.Patched(p.chunks[j], p.labels)
      {
        forall i | 0 <= i < |p.chunks[j].code.holes|
          ensures Id(j, i) in filled
        {
          assert IsId(p.chunks, Id(j, i)) && HoleOf(p.chunks, Id(j, i)).name in done;
        }
        AllFilled(p.chunks[j], j, p.labels, filled);
      }
    }
  }

  /** Assembles a tree to a raw binary or an FXF file; None where the source panics.
      The order in which labels are patched is not determined; it shows only in the
      order of the relocation table. */
  method Assemble(ast: seq<Asm.AstNode>, isFxf: bool) returns (binary: Option<seq<u8>>, ghost table: seq<u32>)
    ensures
      var p := Asm.FirstPass(0, ast);
      binary.Some? <==> p.Some? && Asm.Defined(p.value.chunks, p.value.labels)
    ensures binary.Some? ==>
      var p := Asm.FirstPass(0, ast).value;
      var code := Asm.Output(p.chunks, p.labels);
      && binary.value == (if isFxf then FxfImage(code, table) else code)
      && multiset(table) == multiset(TableOf(ast))
  {
    hide Asm.FirstPass, FxfImage, Asm.Patched, Asm.Output, Asm.Defined, Asm.Relocs, RegisterChunks, Asm.HolesFit;
    table := [];
    var assembler := new Assembler();
    var added := assembler.AddNodes(ast);
    if !added {
      return None, [];
    }
    ghost var p := Asm.FirstPass(0, ast).value;
    ChunksFit(0, ast);
    var patched := assembler.Backpatch(p);
    if !patched {
      return None, [];
    }
    var bytes;
    if isFxf {
      bytes := assembler.WriteFxf(p.chunks, p.labels);
    } else {
      bytes := assembler.AppendCode([], p.chunks, p.labels);
      assert [] + Asm.Output(p.chunks, p.labels) == Asm.Output(p.chunks, p.labels);
    }
    return Some(bytes), assembler.relocAddresses;
  }

  lemma StartPlus()
    ensures Asm.Plus(0, HEADER_SIZE) == HEADER_SIZE
  {
  }

  lemma NoTable()
    ensures TableBytes([]) == []
  {
  }

  lemma TableOneMore(table: seq<u32>, k: nat)
    requires k < |table|
    ensures TableBytes(table[..k + 1]) == TableBytes(table[..k]) + Le(Word, table[k])
  {
    assert table[..k + 1][..k] == table[..k];
  }

  /** Overwriting the two table fields of a header. */
  lemma FillHeader(codeSize: u32, code: seq<u8>, table: seq<u8>, relocSize: u32, relocPtr: u32)
    ensures
      var binary := Header(codeSize, 0, 0) + code + table;
      Store(Word, Store(Word, binary, FXF_RELOC_SIZE, relocSize), FXF_RELOC_PTR, relocPtr)
      == Header(codeSize, relocSize, relocPtr) + code + table
  {
    hide Le, Store;
    var binary := Header(codeSize, 0, 0) + code + table;
    StoreIsSplice(Word, binary, FXF_RELOC_SIZE, relocSize);
    var sized := Store(Word, binary, FXF_RELOC_SIZE, relocSize);
    StoreIsSplice(Word, sized, FXF_RELOC_PTR, relocPtr);
    assert binary[..FXF_RELOC_SIZE] == Header(codeSize, 0, 0)[..FXF_RELOC_SIZE];
    assert Header(codeSize, 0, 0)[..FXF_RELOC_SIZE] == Header(codeSize, relocSize, relocPtr)[..FXF_RELOC_SIZE];
  }

  lemma NoHolesRegistered(table: TargetTable, instruction: AssembledInstruction)
    ensures RegisterAll(table, [], instruction) == table
  {
  }

  /** A pass that stops on a prefix stops on the whole. */
  lemma {:induction false} PassStops(start: u32, ast: seq<Asm.AstNode>, n: nat)
    requires n <= |ast| && Asm.FirstPass(start, ast[..n]).None?
    ensures Asm.FirstPass(start, ast).None?
    decreases |ast|
  {
    if n == |ast| {
      assert ast[..n] == ast;
    } else {
      hide Asm.PassNode;
      assert ast[..|ast| - 1][..n] == ast[..n];
      PassStops(start, ast[..|ast| - 1], n);
    }
  }

  lemma HoleInside(chunks: seq<Asm.Chunk>, id: Id)
    requires IsId(chunks, id)
    requires Asm.HolesFit(chunks[id.chunk].code.holes, 0, |chunks[id.chunk].code.bytes|)
    ensures HoleOf(chunks, id).index + Bytes(HoleOf(chunks, id).size) <= |chunks[id.chunk].code.bytes|
  {
  }

  /** The recorded targets of a name are those of its holes. */
  lemma UsesListed(chunks: seq<Asm.Chunk>, instructions: seq<AssembledInstruction>, name: string)
    requires |instructions| == |chunks| && name in RegisterChunks(chunks, instructions)
    ensures Ids(name, chunks) != []
    ensures forall k :: 0 <= k < |Ids(name, chunks)| ==> IsId(chunks, Ids(name, chunks)[k])
    ensures RegisterChunks(chunks, instructions)[name] == TargetsOf(chunks, instructions, Ids(name, chunks))
  {
    hide Ids, RegisterChunks;
    ChunksListed(chunks, instructions, |chunks|, name);
    assert chunks[..|chunks|] == chunks && instructions[..|chunks|] == instructions;
  }

  lemma NotDefined(chunks: seq<Asm.Chunk>, labels: Asm.LabelTable, name: string)
    requires Ids(name, chunks) != [] && name !in labels
    ensures !Asm.Defined(chunks, labels)
  {
    hide Ids;
    IdsListed(name, chunks);
    var id := Ids(name, chunks)[0];
    assert id in Ids(name, chunks);
    assert !Asm.DefinedIn(chunks[id.chunk], labels) by {
      assert chunks[id.chunk].code.holes[id.hole].name !in labels;
    }
  }

  /** When every used name is done, every hole's label is defined, and the entries
      gathered are those of all labels. */
  lemma AllDone(
    chunks: seq<Asm.Chunk>, instructions: seq<AssembledInstruction>, labels: Asm.LabelTable, done: set<string>)
    requires |instructions| == |chunks| && done == RegisterChunks(chunks, instructions).Keys && done <= labels.Keys
    ensures forall id :: IsId(chunks, id) ==> HoleOf(chunks, id).name in done
    ensures Asm.Defined(chunks, labels)
    ensures Asm.Relocs(chunks, labels, done) == Asm.Relocs(chunks, labels, labels.Keys)
  {
    hide Asm.Relocs, Ids, RegisterChunks;
    forall id | IsId(chunks, id)
      ensures HoleOf(chunks, id).name in done
    {
      var name := HoleOf(chunks, id).name;
      IdsListed(name, chunks);
      assert id in Ids(name, chunks);
      ChunksListed(chunks, instructions, |chunks|, name);
      assert chunks[..|chunks|] == chunks && instructions[..|chunks|] == instructions;
    }
    forall j, i | 0 <= j < |chunks| && 0 <= i < |chunks[j].code.holes|
      ensures chunks[j].code.holes[i].name in labels
    {
      assert IsId(chunks, Id(j, i)) && HoleOf(chunks, Id(j, i)).name in done;
    }
    RelocsSame(chunks, labels, done, labels.Keys);
  }
}
