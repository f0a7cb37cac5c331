/** Relative branches land: position-independent code assembled for one address and
    lying at another reaches its labels in both interpreters. */
module Branches {
  import opened Words
  import opened Memory
  import A = Asm
  import C = Core
  import R = Cpu
  import L = Lockstep
  import opened Encoding
  import opened Placement

  /** The relative instructions that name a word-sized label. */
  datatype Relative = Rjmp | Rcall | Rta(register: u8)

  function NodeOf(relative: Relative, condition: A.Condition, name: string): A.AstNode {
    var target := A.LabelOperand(name, Word, true);
    match relative
    case Rjmp => A.OperationOne(Word, condition, A.Rjmp, target)
    case Rcall => A.OperationOne(Word, condition, A.Rcall, target)
    case Rta(register) => A.OperationTwo(Word, condition, A.Rta, A.Register(register), target)
  }

  function OpcodeOf(relative: Relative): u8 {
    match relative
    case Rjmp => 0x09
    case Rcall => 0x19
    case Rta(_) => 0x39
  }

  /** The bytes lie at an address, in RAM or in ROM. */
  predicate Lies(ram: Ram, rom: Rom, base: nat, bytes: seq<u8>) {
    || (base + |bytes| <= RAM_SIZE && ram[base..base + |bytes|] == bytes)
    || (ROM_START <= base && base + |bytes| <= ROM_START + ROM_SIZE
        && rom[base - ROM_START..base - ROM_START + |bytes|] == bytes)
  }

  /** An assembled program whose output lies at `base`. */
  ghost predicate Loaded(start: u32, ast: seq<A.AstNode>, ram: Ram, rom: Rom, base: nat) {
    && NoOrigin(ast) && A.FirstPass(start, ast).Some?
    && var p := A.FirstPass(start, ast).value;
    && A.Defined(p.chunks, p.labels)
    && Lies(ram, rom, base, A.Output(p.chunks, p.labels))
  }

  /** The distance from where the code was assembled for, taken from where it lies. */
  lemma DisplacedTarget(a: u32, d: u32, address: u32)
    ensures Add32(Add32(a, d), Sub32(address, a)) == Add32(address, d)
  {
  }

  lemma DisplacedOffset(start: u32, d: u32, offset: nat)
    requires Add32(start, d) + offset < 0x1_0000_0000
    ensures Add32(A.Plus(start, offset), d) == Add32(start, d) + offset
  {
  }

  lemma RelativeEmission(relative: Relative, condition: A.Condition, name: string, labels: A.LabelTable, a: u32)
    requires name in labels
    ensures
      var node := NodeOf(relative, condition, name);
      var half := HalfOf(node);
      && half == Some(A.ConditionBits(condition) + 2 + 0x100 * (OpcodeOf(relative) + 0x80))
      && E.Emit(node, labels, a)
         == Some(Le(Half, half.value) + Le(Word, Sub32(labels[name].address, a))
                 + if relative.Rta? then [relative.register] else [])
  {
    hide Le;
    var node := NodeOf(relative, condition, name);
    var first, second := A.ConditionSourceDestinationToByte(node).value, A.InstructionToByte(node);
    assert Le(Half, HalfOf(node).value) == [first, second] by {
      HalfBytes(first, second);
    }
    var distance := Le(Word, Sub32(labels[name].address, a));
    if relative.Rta? {
      assert [first, second] + (distance + [relative.register]) == [first, second] + distance + [relative.register];
    } else {
      assert [first, second] + distance == [first, second] + distance + [];
    }
  }

  lemma HalfBytes(first: u8, second: u8)
    ensures Le(Half, Join(first, second, 0, 0)) == [first, second]
  {
    JoinBytes(first, second, 0, 0);
  }

  /** The instruction stands at the instruction pointer, with this distance in its label
      field, as a fetch from either memory finds it. */
  predicate Stands(relative: Relative, condition: A.Condition, cpu: R.State, distance: u32) {
    && R.Read(cpu, Half, cpu.instructionPointer)
       == Some(A.ConditionBits(condition) + 2 + 0x100 * (OpcodeOf(relative) + 0x80))
    && R.Read(cpu, Word, R.At(cpu, 2)) == Some(distance)
    && (relative.Rta? ==> R.Read(cpu, Byte, R.At(cpu, 6)) == Some(relative.register))
  }

  /** What a machine at the k-th node finds there. */
  lemma BranchBytes(
    start: u32, ast: seq<A.AstNode>, k: nat, relative: Relative, condition: A.Condition, name: string,
    cpu: R.State, base: nat)
    requires Loaded(start, ast, cpu.ram, cpu.rom, base) && k < |ast| && ast[k] == NodeOf(relative, condition, name)
    requires A.FirstPass(start, ast[..k]).Some? ==> cpu.instructionPointer == base + OffsetOf(start, ast, k)
    ensures A.FirstPass(start, ast[..k]).Some?
    ensures
      var labels := A.FirstPass(start, ast).value.labels;
      && name in labels
      && Stands(
           relative, condition, cpu, Sub32(labels[name].address, A.Plus(start, OffsetOf(start, ast, k))))
  {
    hide A.FirstPass, A.Output, A.Patched, Load, Le, A.AssembleNode, E.Emit, OffsetOf, Lies, R.Read;
    var p := A.FirstPass(start, ast).value;
    NodeStandsAtOffset(start, ast, k);
    var offset := OffsetOf(start, ast, k);
    var chunk := A.Chunk(A.AssembleNode(ast[k]).value, A.Plus(start, offset));
    UsesLabel(relative, condition, name, chunk, p.labels);
    RelativeEmission(relative, condition, name, p.labels, chunk.address);
    FieldsRead(
      cpu, base, A.Output(p.chunks, p.labels), offset, HalfOf(ast[k]).value,
      Sub32(p.labels[name].address, chunk.address), if relative.Rta? then [relative.register] else []);
  }

  /** Fetching the fields of an instruction out of a longer run of bytes. */
  lemma FieldsRead(
    cpu: R.State, base: nat, bytes: seq<u8>, offset: nat, half: u16, word: u32, tail: seq<u8>)
    requires Lies(cpu.ram, cpu.rom, base, bytes) && cpu.instructionPointer == base + offset
    requires |tail| <= 1 && offset + 6 + |tail| <= |bytes|
    requires bytes[offset..offset + 6 + |tail|] == Le(Half, half) + Le(Word, word) + tail
    ensures R.Read(cpu, Half, cpu.instructionPointer) == Some(half)
    ensures R.Read(cpu, Word, R.At(cpu, 2)) == Some(word)
    ensures tail != [] ==> R.Read(cpu, Byte, R.At(cpu, 6)) == Some(tail[0])
  {
    hide Load, Le;
    var n := 6 + |tail|;
    if base + |bytes| <= RAM_SIZE && cpu.ram[base..base + |bytes|] == bytes {
      var at := base + offset;
      EmittedInMemory(cpu.ram, base, bytes, offset, bytes[offset..offset + n]);
      ThreeFields(cpu.ram, at, half, word, tail);
      assert R.Find(at, Half) == Some(InRam(at)) && R.Find(at + 2, Word) == Some(InRam(at + 2));
      if tail != [] {
        assert R.Find(at + 6, Byte) == Some(InRam(at + 6));
        ByteLoad(cpu.ram, at + 6);
      }
    } else {
      var at := base - ROM_START + offset;
      EmittedInMemory(cpu.rom, base - ROM_START, bytes, offset, bytes[offset..offset + n]);
      ThreeFields(cpu.rom, at, half, word, tail);
      assert R.Find(base + offset, Half) == Some(InRom(at)) && R.Find(base + offset + 2, Word) == Some(InRom(at + 2));
      if tail != [] {
        assert R.Find(base + offset + 6, Byte) == Some(InRom(at + 6));
        ByteLoad(cpu.rom, at + 6);
      }
    }
  }

  lemma LoadedPasses(start: u32, ast: seq<A.AstNode>, ram: Ram, rom: Rom, base: nat)
    requires Loaded(start, ast, ram, rom, base)
    ensures A.FirstPass(start, ast).Some?
  {
  }

  lemma UsesLabel(relative: Relative, condition: A.Condition, name: string, chunk: A.Chunk, labels: A.LabelTable)
    requires Some(chunk.code) == A.AssembleNode(NodeOf(relative, condition, name)) && A.DefinedIn(chunk, labels)
    ensures name in labels
  {
    assert chunk.code.holes[0].name == name;
  }

  lemma EmittedInMemory(ram: seq<u8>, base: nat, bytes: seq<u8>, offset: nat, emitted: seq<u8>)
    requires base + |bytes| <= |ram| && ram[base..base + |bytes|] == bytes
    requires offset + |emitted| <= |bytes| && bytes[offset..offset + |emitted|] == emitted
    ensures ram[base + offset..base + offset + |emitted|] == emitted
  {
    SliceOfSlice(ram, base, base + |bytes|, offset, offset + |emitted|);
  }

  lemma ThreeFields(ram: seq<u8>, at: nat, half: u16, word: u32, tail: seq<u8>)
    requires at + 6 + |tail| <= |ram|
    requires ram[at..at + 6 + |tail|] == Le(Half, half) + Le(Word, word) + tail
    ensures Load(Half, ram, at) == half && Load(Word, ram, at + 2) == word
    ensures tail != [] ==> ram[at + 6] == tail[0]
  {
    hide Load, Le;
    var field := Le(Half, half) + Le(Word, word) + tail;
    SliceOfSlice(ram, at, at + 6 + |tail|, 0, 2);
    SliceOfSlice(ram, at, at + 6 + |tail|, 2, 6);
    assert field[0..2] == Le(Half, half);
    assert field[2..6] == Le(Word, word);
    LoadLe(Half, ram, at, half);
    LoadLe(Word, ram, at + 2, word);
    if tail != [] {
      assert ram[at + 6] == ram[at..at + 6 + |tail|][6] == field[6];
    }
  }

  // ----- execution

  /** What a relative instruction at `at` with this target does when its condition
      holds, apart from the C scratch cursor. */
  function Effect(relative: Relative, cpu: R.State, at: u32, target: u32): Option<R.State> {
    match relative
    case Rjmp => Some(cpu.(instructionPointer := target))
    case Rcall =>
      var pushed :- R.PushStack(cpu, Word, Add32(at, 6));
      Some(pushed.(instructionPointer := target))
    case Rta(register) =>
      var written :- R.WriteRegister(cpu, register, target);
      Some(written.(instructionPointer := Add32(at, 7)))
  }

  lemma CpuExecutes(relative: Relative, condition: A.Condition, cpu: R.State, distance: u32, bus: Bus)
    requires Stands(relative, condition, cpu, distance)
    requires R.CheckCondition(cpu, ConditionOf(condition))
    ensures R.ExecuteMemoryInstruction(cpu, bus)
      == Effect(relative, cpu, cpu.instructionPointer, Add32(cpu.instructionPointer, distance))
  {
    hide Load, R.FromHalf, R.CheckCondition, ConditionOf, R.ExecuteInstruction, HalfOf, R.Read, R.PushStack;
    hide R.WriteRegister;
    var node := NodeOf(relative, condition, "");
    RelativeEmission(relative, condition, "", map["" := A.Label(0, false)], 0);
    HalfDecodes(node);
    match relative
    case Rjmp => CpuJumps(R.Rjmp, ConditionOf(condition), cpu, distance, bus);
    case Rcall => CpuJumps(R.Rcall, ConditionOf(condition), cpu, distance, bus);
    case Rta(register) => CpuAddresses(register, ConditionOf(condition), cpu, distance, bus);
  }

  lemma CpuJumps(op: R.JumpOp, condition: R.Condition, cpu: R.State, distance: u32, bus: Bus)
    requires op.Rjmp? || op.Rcall?
    requires R.Read(cpu, Word, R.At(cpu, 2)) == Some(distance) && R.CheckCondition(cpu, condition)
    ensures
      var target := R.At(cpu, distance);
      R.ExecuteInstruction(cpu, R.Jump(op, condition, R.Immediate32), bus)
      == if op.Rjmp? then Some((cpu, target))
         else if R.PushStack(cpu, Word, R.At(cpu, 6)).None? then None
         else Some((R.PushStack(cpu, Word, R.At(cpu, 6)).value, target))
  {
    hide R.Read, R.CheckCondition, R.PushStack, R.At;
    assert R.ReadSource(cpu, R.Immediate32) == Some((distance, 6));
  }

  lemma CpuAddresses(register: u8, condition: R.Condition, cpu: R.State, distance: u32, bus: Bus)
    requires R.Read(cpu, Word, R.At(cpu, 2)) == Some(distance) && R.CheckCondition(cpu, condition)
    requires R.Read(cpu, Byte, R.At(cpu, 6)) == Some(register)
    ensures
      R.ExecuteInstruction(cpu, R.Rta(condition, R.Register, R.Immediate32), bus)
      == if R.WriteRegister(cpu, register, R.At(cpu, distance)).None? then None
         else Some((R.WriteRegister(cpu, register, R.At(cpu, distance)).value, R.At(cpu, 7)))
  {
    hide R.Read, R.CheckCondition, R.WriteRegister, R.At;
    assert R.ReadSource(cpu, R.Immediate32) == Some((distance, 6));
  }

  /** The C interpreter completes, and so has the same effect. */
  lemma CoreExecutes(relative: Relative, condition: A.Condition, vm: C.Vm, distance: u32, bus: Bus)
    requires Stands(relative, condition, L.OfVm(vm), distance)
    requires R.CheckCondition(L.OfVm(vm), ConditionOf(condition))
    requires relative.Rcall? ==> C.FindMemory(Sub32(vm.pointerStack, 4), Word, true).Some?
    requires relative.Rta? ==> relative.register <= 32
    ensures C.Execute(vm, bus).Done?
    ensures Some(L.OfVm(C.Execute(vm, bus).vm))
      == Effect(relative, L.OfVm(vm), vm.pointerInstr, Add32(vm.pointerInstr, distance))
  {
    hide Load, R.CheckCondition, C.Execute, R.ExecuteMemoryInstruction, Stands, R.WriteRegister, R.PushStack;
    hide C.FindMemory;
    var cpu := L.OfVm(vm);
    CoreCompletes(relative, condition, vm, distance, bus);
    CpuExecutes(relative, condition, cpu, distance, bus);
    CpuNext(relative, condition, cpu, distance);
    if relative.Rcall? {
      StackFits(vm, Add32(vm.pointerInstr, 6));
    }
    L.StepAgrees(vm, bus);
  }

  lemma StackFits(vm: C.Vm, value: u32)
    requires C.FindMemory(Sub32(vm.pointerStack, 4), Word, true).Some?
    ensures R.PushStack(L.OfVm(vm), Word, value).Some?
  {
    hide Store;
  }

  lemma CpuNext(relative: Relative, condition: A.Condition, cpu: R.State, distance: u32)
    requires Stands(relative, condition, cpu, distance)
    ensures L.Next(cpu).Some? && L.Covered(cpu, L.Next(cpu).value)
  {
    hide Load, R.FromHalf, HalfOf, R.Read, R.CheckCondition, ConditionOf, R.ReadSource, L.Names;
    RelativeEmission(relative, condition, "", map["" := A.Label(0, false)], 0);
    HalfDecodes(NodeOf(relative, condition, ""));
  }

  /** The fields of the opcode half, as the C decoder splits them. */
  lemma CoreDecodes(relative: Relative, condition: A.Condition)
    ensures
      var half := A.ConditionBits(condition) + 2 + 0x100 * (OpcodeOf(relative) + 0x80);
      C.InstrFrom(half) == C.Instr(OpcodeOf(relative) + 0x80, A.ConditionBits(condition) / 0x10, 0, 2, 2)
  {
    CoreFields(A.ConditionBits(condition) / 0x10, OpcodeOf(relative));
  }

  lemma CoreFields(c: nat, op: nat)
    requires c <= 6 && op < 0x40
    ensures C.InstrFrom(0x10 * c + 2 + 0x100 * (op + 0x80)) == C.Instr(op + 0x80, c, 0, 2, 2)
  {
    var half := 0x10 * c + 2 + 0x100 * (op + 0x80);
    HalfFields(c, 2, 0, op, 2);
    assert half / 0x100 == op + 0x80;
    assert half / 0x4000 == 2;
    assert half / 0x10 == c + 0x10 * (op + 0x80);
    assert half / 0x10 % 8 == c;
  }

  lemma ConditionHolds(vm: C.Vm, condition: A.Condition)
    requires R.CheckCondition(L.OfVm(vm), ConditionOf(condition))
    ensures C.ShouldSkip(vm, A.ConditionBits(condition) / 0x10) == C.Done(vm, false)
  {
  }

  lemma CoreCompletes(relative: Relative, condition: A.Condition, vm: C.Vm, distance: u32, bus: Bus)
    requires Stands(relative, condition, L.OfVm(vm), distance)
    requires R.CheckCondition(L.OfVm(vm), ConditionOf(condition))
    requires relative.Rcall? ==> C.FindMemory(Sub32(vm.pointerStack, 4), Word, true).Some?
    requires relative.Rta? ==> relative.register <= 32
    ensures C.Execute(vm, bus).Done?
  {
    hide Load, C.Read, C.InstrFrom, C.ShouldSkip, C.FindMemory, R.CheckCondition, C.Jmp, C.Call, C.Rta, C.DispatchSized;
    var at := vm.pointerInstr;
    var ready := vm.(pointerInstrMut := Add32(at, 2));
    CoreDecodes(relative, condition);
    L.ReadAgrees(vm, Half, at);
    L.ReadAgrees(ready, Word, Add32(at, 2));
    ConditionHolds(vm, condition);
    ConditionHolds(ready, condition);
    var i := C.InstrFrom(A.ConditionBits(condition) + 2 + 0x100 * (OpcodeOf(relative) + 0x80));
    match relative
    case Rjmp => CoreJumps(ready, i, at);
    case Rcall => CoreCalls(ready, i, at);
    case Rta(register) =>
      L.ReadAgrees(ready.(pointerInstrMut := Add32(at, 6)), Byte, Add32(at, 6));
      CoreAddresses(ready, i, at, register);
  }

  lemma CoreJumps(vm: C.Vm, i: C.Instr, base: u32)
    requires i.source == 2 && i.target == 0 && C.ShouldSkip(vm, i.condition) == C.Done(vm, false)
    requires C.Read(vm, Word, vm.pointerInstrMut).Done?
    ensures C.Jmp(vm, i, base).Done?
  {
    hide C.Read, C.ShouldSkip;
    ReadElsewhere(vm, C.Advance(vm, 4), Word, vm.pointerInstrMut);
  }

  lemma CoreCalls(vm: C.Vm, i: C.Instr, base: u32)
    requires i.source == 2 && i.target == 0 && C.ShouldSkip(vm, i.condition) == C.Done(vm, false)
    requires C.Read(vm, Word, vm.pointerInstrMut).Done?
    requires C.FindMemory(Sub32(vm.pointerStack, 4), Word, true).Some?
    ensures C.Call(vm, i, base).Done?
  {
    hide C.Read, C.ShouldSkip, C.FindMemory, Store;
    ReadElsewhere(vm, C.Advance(vm, 4), Word, vm.pointerInstrMut);
  }

  lemma CoreAddresses(vm: C.Vm, i: C.Instr, base: u32, register: u8)
    requires i.source == 2 && i.target == 0 && C.ShouldSkip(vm, i.condition) == C.Done(vm, false)
    requires C.Read(vm, Word, vm.pointerInstrMut).Done? && register <= 32
    requires
      var next := C.Advance(vm, 4);
      C.Read(next, Byte, next.pointerInstrMut) == C.Done(next, register)
    ensures C.Rta(vm, i, base).Done?
  {
    hide C.Read, C.ShouldSkip, C.SetLocal;
    var next := C.Advance(vm, 4);
    ReadElsewhere(vm, next, Word, vm.pointerInstrMut);
    ReadElsewhere(next, C.Advance(next, 1), Byte, next.pointerInstrMut);
  }

  /** Reading does not depend on the cursor. */
  lemma ReadElsewhere(vm: C.Vm, other: C.Vm, size: Size, address: u32)
    requires other == vm.(pointerInstrMut := other.pointerInstrMut)
    ensures C.Read(vm, size, address).Done? ==>
      C.Read(other, size, address) == C.Done(other, C.Read(vm, size, address).value)
  {
    hide Load;
  }

  // ----- the theorem

  /** An assembled word-sized rjmp, rcall or rta whose label was assembled for
      address L, in a program displaced by d, reaches L + d in both interpreters:
      the jumps continue there, rcall with the return address pushed, and rta puts
      it in its register. */
  lemma RelativeBranchesLand(
    start: u32, d: u32, ast: seq<A.AstNode>, k: nat, relative: Relative, condition: A.Condition, name: string,
    vm: C.Vm, bus: Bus)
    requires Loaded(start, ast, vm.ram, vm.rom, Add32(start, d))
    requires k < |ast| && ast[k] == NodeOf(relative, condition, name)
    requires A.FirstPass(start, ast[..k]).Some? ==> vm.pointerInstr == Add32(start, d) + OffsetOf(start, ast, k)
    requires R.CheckCondition(L.OfVm(vm), ConditionOf(condition))
    requires relative.Rcall? ==> C.FindMemory(Sub32(vm.pointerStack, 4), Word, true).Some?
    requires relative.Rta? ==> relative.register <= 32
    ensures A.FirstPass(start, ast).Some?
    ensures
      var labels := A.FirstPass(start, ast).value.labels;
      && name in labels
      && var target := Add32(labels[name].address, d);
      && R.ExecuteMemoryInstruction(L.OfVm(vm), bus) == Effect(relative, L.OfVm(vm), vm.pointerInstr, target)
      && C.Execute(vm, bus).Done?
      && Some(L.OfVm(C.Execute(vm, bus).vm)) == Effect(relative, L.OfVm(vm), vm.pointerInstr, target)
  {
    hide A.FirstPass, OffsetOf, Load, Loaded, R.CheckCondition, C.Execute, R.ExecuteMemoryInstruction, Effect;
    hide C.FindMemory;
    assert A.FirstPass(start, ast).Some? by {
      LoadedPasses(start, ast, vm.ram, vm.rom, Add32(start, d));
    }
    BranchBytes(start, ast, k, relative, condition, name, L.OfVm(vm), Add32(start, d));
    var offset := OffsetOf(start, ast, k);
    var labels := A.FirstPass(start, ast).value.labels;
    var a := A.Plus(start, offset);
    var distance := Sub32(labels[name].address, a);
    DisplacedOffset(start, d, offset);
    DisplacedTarget(a, d, labels[name].address);
    CpuExecutes(relative, condition, L.OfVm(vm), distance, bus);
    CoreExecutes(relative, condition, vm, distance, bus);
  }

  lemma ByteLoad(bytes: seq<u8>, at: nat)
    requires at < |bytes|
    ensures Load(Byte, bytes, at) == bytes[at]
  {
  }
}
