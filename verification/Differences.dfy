/** Where the two interpreters do not agree: what each does with the instructions and
    conditions that lock step leaves out. */
module Differences {
  import opened Words
  import opened Memory
  import opened Lockstep
  import F = Completion
  import C = Core
  import R = Cpu

  /** BRK stops the C interpreter with the debugger's error, and does nothing in Rust. */
  lemma BrkDiffers(vm: C.Vm, i: C.Instr, condition: R.Condition)
    requires R.ConditionFrom(i.condition) == Some(condition) && R.CheckCondition(OfVm(vm), condition)
    ensures C.Brk(vm, i) == C.Panic(vm, C.Debugger)
    ensures R.ExecutePlain(OfVm(vm), R.Brk, condition) == Some((OfVm(vm), R.At(OfVm(vm), 2)))
  {
    SkipAgrees(vm, i.condition, condition);
  }

  /** A LOOP whose condition does not hold counts r31 down in Rust only; both go on with
      the next instruction. */
  lemma SkippedLoopDiffers(
    vm: C.Vm, i: C.Instr, base: u32, op: R.JumpOp, condition: R.Condition, destination: R.Operand, source: R.Operand)
    requires Decoded(i, Word, condition, destination, source) && CursorAt(vm, 2) && (op.Loop? || op.Rloop?)
    requires !R.CheckCondition(OfVm(vm), condition) && R.ReadSource(OfVm(vm), source).Some?
    ensures
      var cpu := OfVm(vm);
      var next := R.At(cpu, 2 + R.OperandWidth(source));
      && C.Loop(vm, i, base) == C.Done(vm.(pointerInstrMut := next), ())
      && R.ExecuteJump(cpu, op, condition, source)
         == Some((cpu.(register := cpu.register[31 := Sub32(cpu.register[31], 1)]), next))
  {
    hide R.ReadSource, R.CheckCondition, C.ShouldSkip, R.OperandWidth;
    SkipAgrees(vm, i.condition, condition);
    WidthAgrees(Word, i.source, source);
    ReadSourceWidth(OfVm(vm), source);
  }

  /** A LOOP through r31 itself, still counting: C jumps to the value counted down, Rust to
      the value before. */
  lemma LoopThroughCounterDiffers(vm: C.Vm, i: C.Instr, condition: R.Condition)
    requires R.ConditionFrom(i.condition) == Some(condition) && R.CheckCondition(OfVm(vm), condition)
    requires i.source == C.TY_REG && i.target < 4 && CursorAt(vm, 2)
    requires R.Read(OfVm(vm), Byte, R.At(OfVm(vm), 2)) == Some(31) && vm.registers[31] != 1
    ensures
      && C.Loop(vm, i, 0).Done?
      && C.Loop(vm, i, 0).vm.pointerInstrMut == Sub32(vm.registers[31], 1)
      && R.ExecuteJump(OfVm(vm), R.Loop, condition, R.Register).Some?
      && R.ExecuteJump(OfVm(vm), R.Loop, condition, R.Register).value.1 == vm.registers[31]
  {
    hide R.CheckCondition, C.ShouldSkip, R.Read, C.Read;
    SkipAgrees(vm, i.condition, condition);
    LoopForm(vm, i, 0);
    var counter := Sub32(vm.registers[31], 1);
    var counted := vm.(registers := vm.registers[31 := counter]);
    CounterRead(vm, counted);
  }

  lemma CounterRead(vm: C.Vm, counted: C.Vm)
    requires counted == vm.(registers := counted.registers) && CursorAt(vm, 2)
    requires R.Read(OfVm(vm), Byte, R.At(OfVm(vm), 2)) == Some(31)
    ensures
      C.Source(counted, Word, C.TY_REG, false)
      == C.Done(C.Advance(counted, 1), counted.registers[31])
    ensures R.ReadSource(OfVm(vm), R.Register) == Some((vm.registers[31], 3))
  {
    ReadAgrees(vm, Byte, vm.pointerInstrMut);
  }

  /** CMP whose condition does not hold sets the flags in C only. */
  lemma SkippedCmpDiffers(
    vm: C.Vm, i: C.Instr, size: Size, condition: R.Condition, destination: R.Operand, source: R.Operand)
    requires Decoded(i, size, condition, destination, source) && CursorAt(vm, 2)
    requires !R.CheckCondition(OfVm(vm), condition)
    requires C.Cmp(vm, i, size).Done? && R.ExecuteTwo(OfVm(vm), R.Cmp, size, condition, destination, source).Some?
    ensures
      var s := C.Source(vm, size, i.source, false);
      s.Done? &&
      var t := C.Source(s.vm, size, i.target, false);
      && t.Done?
      && OfVm(C.Cmp(vm, i, size).vm)
         == OfVm(vm).(flag := R.Flag(vm.flagInterrupt, t.value < s.value, t.value == s.value))
      && R.ExecuteTwo(OfVm(vm), R.Cmp, size, condition, destination, source).value.0 == OfVm(vm)
  {
    hide C.Source, C.Checked, R.ReadSource, R.CheckCondition, R.ExecuteTwo, R.Compute, C.Cmp;
    SkippedTwo(OfVm(vm), R.Cmp, size, condition, destination, source);
    DecodedFields(i, size, condition, destination, source);
    var vm1, a, vm2, b := CmpForm(vm, i, size);
    SourceMovesOnly(vm, size, i.source);
    SourceMovesOnly(vm1, size, i.target);
    Compared(size, b, a);
  }

  lemma Compared(size: Size, b: u32, a: u32)
    requires a < Modulus(size) && b < Modulus(size)
    ensures
      var x := C.Checked(C.SubOp, size, b, a);
      x.1 == (b < a) && (x.0 == 0) == (b == a)
  {
  }

  lemma SourceMovesOnly(vm: C.Vm, size: Size, prtype: u8)
    requires prtype < 4
    ensures
      var s := C.Source(vm, size, prtype, false);
      s.Done? ==> s.vm == vm.(pointerInstrMut := s.vm.pointerInstrMut)
  {
    hide Fetch, Trunc;
  }

  /** IN whose condition does not hold reads its port in Rust only. */
  lemma SkippedInDiffers(
    vm: C.Vm, i: C.Instr, condition: R.Condition, destination: R.Operand, source: R.Operand, bus: Bus)
    requires Decoded(i, Word, condition, destination, source) && CursorAt(vm, 2)
    requires !R.CheckCondition(OfVm(vm), condition)
    requires R.ExecuteIn(OfVm(vm), condition, destination, source, bus).Some?
    ensures C.In(vm, i, bus).Done? && OfVm(C.In(vm, i, bus).vm) == OfVm(vm)
    ensures R.ReadSource(OfVm(vm), source).Some?
    ensures
      var port := R.ReadSource(OfVm(vm), source).value.0;
      && bus.read(vm.io, port).Some?
      && R.ExecuteIn(OfVm(vm), condition, destination, source, bus).value.0
         == OfVm(vm).(io := vm.io + [PortRead(port, bus.read(vm.io, port).value)])
  {
    hide C.Source, R.ReadSource, R.CheckCondition, C.ShouldSkip, R.Read;
    SkipAgrees(vm, i.condition, condition);
  }

  /** RTA through a pointer: C writes at its address, Rust at the instruction's
      own address plus that. */
  lemma RtaThroughPointerDiffers(
    vm: C.Vm, i: C.Instr, condition: R.Condition, destination: R.Operand, source: R.Operand, pointer: u32)
    requires Decoded(i, Word, condition, destination, source) && CursorAt(vm, 2) && !destination.Register?
    requires R.CheckCondition(OfVm(vm), condition)
    requires R.Pointer(OfVm(vm), destination, 2 + R.OperandWidth(source)) == Some(pointer)
    requires C.Rta(vm, i, vm.pointerInstr).Done?
    requires R.ExecuteRta(OfVm(vm), condition, destination, source).Some?
    ensures R.ReadSource(OfVm(vm), source).Some?
    ensures
      var cpu := OfVm(vm);
      var value := R.At(cpu, R.ReadSource(cpu, source).value.0);
      && Some(OfVm(C.Rta(vm, i, vm.pointerInstr).vm)) == R.Write(cpu, Word, pointer, value)
      && Some(R.ExecuteRta(cpu, condition, destination, source).value.0)
         == R.Write(cpu, Word, R.At(cpu, pointer), value)
  {
    hide C.Source, C.Target, C.Rta, C.ShouldSkip, C.SkipParams;
    hide R.ReadSource, R.CheckCondition, R.Write, R.Pointer, R.Read;
    var cpu := OfVm(vm);
    SkipAgrees(vm, i.condition, condition);
    RtaNeedsSource(cpu, condition, destination, source);
    ReadSourceWidth(cpu, source);
    RtaForm(vm, i, vm.pointerInstr);
    var vm1, a := F.SourceDone(vm, i, Word, condition, destination, source);
    TargetAgrees(vm1, Word, i.target, destination, 2 + R.OperandWidth(source), Add32(vm.pointerInstr, a), false);
  }

  /** POP through the stack pointer: C writes above the popped value, Rust over it. */
  lemma PopThroughStackDiffers(vm: C.Vm, i: C.Instr, size: Size, condition: R.Condition)
    requires R.ConditionFrom(i.condition) == Some(condition) && R.CheckCondition(OfVm(vm), condition)
    requires i.source == C.TY_REGPTR && i.target < 4 && CursorAt(vm, 2)
    requires R.Read(OfVm(vm), Byte, R.At(OfVm(vm), 2)) == Some(32)
    requires C.PopTo(vm, i, size).Done? && R.ExecutePop(OfVm(vm), size, condition, R.RegisterPtr).Some?
    ensures R.PopStack(OfVm(vm), size).Some?
    ensures
      var (popped, value) := R.PopStack(OfVm(vm), size).value;
      && Some(OfVm(C.PopTo(vm, i, size).vm)) == R.Write(popped, size, popped.stackPointer, value)
      && Some(R.ExecutePop(OfVm(vm), size, condition, R.RegisterPtr).value.0)
         == R.Write(popped, size, vm.pointerStack, value)
  {
    hide R.CheckCondition, C.ShouldSkip, R.Read, C.Read, C.Write, R.Write;
    SkipAgrees(vm, i.condition, condition);
    F.PopCompletes(vm, size);
    PopAgrees(vm, size);
    var (vm1, value) := C.Pop(vm, size).Extract();
    StackRead(vm, vm1);
    WriteAgrees(C.Advance(vm1, 1), size, vm1.pointerStack, value);
  }

  lemma StackRead(vm: C.Vm, vm1: C.Vm)
    requires vm1 == vm.(pointerStack := vm1.pointerStack) && CursorAt(vm, 2)
    requires R.Read(OfVm(vm), Byte, R.At(OfVm(vm), 2)) == Some(32)
    ensures C.Read(C.Advance(vm1, 1), Byte, vm.pointerInstrMut) == C.Done(C.Advance(vm1, 1), 32)
  {
    ReadAgrees(C.Advance(vm1, 1), Byte, vm.pointerInstrMut);
  }
}
