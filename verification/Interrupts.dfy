/** Entering an interrupt handler and returning from it with RETI undo each other,
    in both interpreters. */
module Interrupts {
  import opened Words
  import opened Memory
  import C = Core
  import R = Cpu
  import L = Lockstep

  /** The stack has room for the five saved bytes: a word and the flags. */
  predicate RoomForFrame(sp: u32) {
    5 <= sp <= RAM_SIZE
  }

  /** RAM after saving an instruction pointer and a flags byte below `sp`. */
  function WithFrame(ram: Ram, sp: u32, pointer: u32, flags: u8): Ram
    requires RoomForFrame(sp)
  {
    Store(Byte, Store(Word, ram, sp - 4, pointer), sp - 5, flags)
  }

  /** Saving a frame changes nothing outside its five bytes, and those read back. */
  lemma FrameReads(ram: Ram, sp: u32, pointer: u32, flags: u8)
    requires RoomForFrame(sp)
    ensures
      var after := WithFrame(ram, sp, pointer, flags);
      && Load(Word, after, sp - 4) == pointer
      && Load(Byte, after, sp - 5) == flags
      && after[..sp - 5] == ram[..sp - 5]
      && after[sp..] == ram[sp..]
  {
    hide Load;
    var ram1 := Store(Word, ram, sp - 4, pointer);
    LoadStore(Word, ram, sp - 4, pointer);
    LoadStoreDisjoint(Byte, Word, ram1, sp - 5, flags, sp - 4);
    LoadStore(Byte, ram1, sp - 5, flags);
  }

  /** Equal bytes load equal values. */
  lemma LoadEqual(size: Size, a: seq<u8>, b: seq<u8>, at: nat)
    requires at + Bytes(size) <= |a| && at + Bytes(size) <= |b|
    requires a[at..at + Bytes(size)] == b[at..at + Bytes(size)]
    ensures Load(size, a, at) == Load(size, b, at)
  {
    hide Join;
    assert forall k {:trigger a[at + k]} :: 0 <= k < Bytes(size) ==>
      a[at + k] == a[at..at + Bytes(size)][k] && b[at + k] == b[at..at + Bytes(size)][k];
  }

  // ----- the C interpreter

  /** Raising succeeds exactly when interrupts are enabled and the frame fits;
      the vector table always lies in RAM. */
  lemma CoreRaiseSucceeds(vm: C.Vm, vector: u16)
    ensures C.Raise(vm, vector).Report?
    ensures C.Raise(vm, vector).error.None? <==> vm.flagInterrupt && RoomForFrame(vm.pointerStack)
  {
    hide Load, Store;
  }

  /** What a successful raise does. */
  lemma CoreRaised(vm: C.Vm, vector: u16)
    requires C.Raise(vm, vector).Report? && C.Raise(vm, vector).error.None?
    ensures RoomForFrame(vm.pointerStack)
    ensures
      C.Raise(vm, vector).vm == vm.(
        pointerInstr := Load(Word, vm.ram, 4 * vector),
        pointerStack := vm.pointerStack - 5,
        halted := true,
        flagInterrupt := false,
        ram := WithFrame(vm.ram, vm.pointerStack, vm.pointerInstr, C.FlagsGet(vm)))
  {
    hide Load, Store;
    CoreRaiseSucceeds(vm, vector);
  }

  lemma CoreFlagsRoundTrip(vm: C.Vm, other: C.Vm)
    ensures
      C.FlagsSet(other, C.FlagsGet(vm))
      == other.(flagZero := vm.flagZero, flagCarry := vm.flagCarry, flagInterrupt := vm.flagInterrupt)
  {
  }

  /** The machine stands at a RETI whose condition holds. */
  predicate CoreAtReti(vm: C.Vm) {
    var half := C.Read(vm, Half, vm.pointerInstr);
    half.Done? &&
    var i := C.InstrFrom(half.value);
    i.size == 2 && i.opcode % 64 == 0x3A && C.ShouldSkip(vm, i.condition) == C.Done(vm, false)
  }

  /** RETI pops the frame below `sp`. */
  lemma CoreReti(vm: C.Vm, bus: Bus, pointer: u32, flags: u8)
    requires CoreAtReti(vm) && vm.pointerStack + 5 <= RAM_SIZE
    requires Load(Byte, vm.ram, vm.pointerStack) == flags
    requires Load(Word, vm.ram, vm.pointerStack + 1) == pointer
    ensures C.Execute(vm, bus).Done?
    ensures
      var after := C.Execute(vm, bus).vm;
      && after.pointerInstr == pointer
      && after.pointerStack == vm.pointerStack + 5
      && after == C.FlagsSet(vm, flags).(
           pointerInstr := pointer, pointerInstrMut := pointer, pointerStack := vm.pointerStack + 5)
  {
    hide Load, C.Dispatch, C.Reti, C.FlagsSet, C.InstrFrom;
    var half := C.Read(vm, Half, vm.pointerInstr).value;
    var i := C.InstrFrom(half);
    var vm1 := vm.(pointerInstrMut := Add32(vm.pointerInstr, 2));
    DispatchReti(vm1, i, vm.pointerInstr, bus);
    assert C.ShouldSkip(vm1, i.condition) == C.Done(vm1, false);
    RetiPops(vm1, i, pointer, flags);
    CoreFlagsSet(vm, vm1, flags);
  }

  lemma DispatchReti(vm: C.Vm, i: C.Instr, base: u32, bus: Bus)
    requires i.source < 4 && i.target < 4 && i.size == 2 && i.opcode % 64 == 0x3A
    ensures C.Dispatch(vm, i, base, bus) == C.Reti(vm, i)
  {
    hide C.DispatchSized, C.Reti;
  }

  lemma RetiPops(vm: C.Vm, i: C.Instr, pointer: u32, flags: u8)
    requires vm.pointerStack + 5 <= RAM_SIZE && C.ShouldSkip(vm, i.condition) == C.Done(vm, false)
    requires Load(Byte, vm.ram, vm.pointerStack) == flags
    requires Load(Word, vm.ram, vm.pointerStack + 1) == pointer
    ensures C.Reti(vm, i) == C.Done(
      C.FlagsSet(vm.(pointerStack := vm.pointerStack + 1), flags).(
        pointerStack := vm.pointerStack + 5, pointerInstrMut := pointer), ())
  {
    hide Load, C.ShouldSkip, C.Pop;
    PopLoads(vm, Byte);
    PopLoads(C.FlagsSet(vm.(pointerStack := vm.pointerStack + 1), flags), Word);
  }

  lemma PopLoads(vm: C.Vm, size: Size)
    requires vm.pointerStack + Bytes(size) <= RAM_SIZE
    ensures C.Pop(vm, size)
      == C.Done(vm.(pointerStack := vm.pointerStack + Bytes(size)), Load(size, vm.ram, vm.pointerStack))
  {
    hide Load;
  }

  /** Setting the flags commutes with moving the cursor and the stack pointer. */
  lemma CoreFlagsSet(vm: C.Vm, vm1: C.Vm, flags: u8)
    requires vm1 == vm.(pointerInstrMut := vm1.pointerInstrMut)
    ensures forall sp: u32, sp': u32, p: u32 ::
      C.FlagsSet(vm1.(pointerStack := sp'), flags).(pointerStack := sp, pointerInstrMut := p, pointerInstr := p)
      == C.FlagsSet(vm, flags).(pointerStack := sp, pointerInstrMut := p, pointerInstr := p)
  {
  }

  /** Entry and return undo each other: after a raise, any handler that gives back
      the stack pointer and the five saved bytes, ending in RETI, returns to the
      interrupted instruction with the interrupted stack and flags.  The raise
      itself changed no RAM outside those five bytes. */
  lemma CoreInterruptRoundTrip(vm: C.Vm, vector: u16, handled: C.Vm, bus: Bus)
    requires C.Raise(vm, vector).Report? && C.Raise(vm, vector).error.None?
    requires RoomForFrame(vm.pointerStack)
    requires handled.pointerStack == vm.pointerStack - 5
    requires
      handled.ram[vm.pointerStack - 5..vm.pointerStack]
      == C.Raise(vm, vector).vm.ram[vm.pointerStack - 5..vm.pointerStack]
    requires CoreAtReti(handled)
    ensures C.Execute(handled, bus).Done?
    ensures
      var after := C.Execute(handled, bus).vm;
      && after.pointerInstr == vm.pointerInstr
      && after.pointerStack == vm.pointerStack
      && after.flagZero == vm.flagZero
      && after.flagCarry == vm.flagCarry
      && after.flagInterrupt == vm.flagInterrupt == true
      && after.ram == handled.ram
      && after.registers == handled.registers
      && after == handled.(
           pointerInstr := vm.pointerInstr, pointerInstrMut := vm.pointerInstr, pointerStack := vm.pointerStack,
           flagZero := vm.flagZero, flagCarry := vm.flagCarry, flagInterrupt := vm.flagInterrupt)
    ensures
      var raised := C.Raise(vm, vector).vm;
      && raised.ram[..vm.pointerStack - 5] == vm.ram[..vm.pointerStack - 5]
      && raised.ram[vm.pointerStack..] == vm.ram[vm.pointerStack..]
      && raised.pointerInstr == Load(Word, vm.ram, 4 * vector)
      && !raised.flagInterrupt
  {
    hide Load, C.Raise, C.FlagsGet, C.FlagsSet, C.Execute, CoreAtReti, WithFrame;
    CoreRaiseSucceeds(vm, vector);
    CoreRaised(vm, vector);
    var sp := vm.pointerStack;
    var ram := C.Raise(vm, vector).vm.ram;
    FrameReads(vm.ram, sp, vm.pointerInstr, C.FlagsGet(vm));
    SubRun(handled.ram, ram, sp - 5, sp, sp - 4, sp);
    SubRun(handled.ram, ram, sp - 5, sp, sp - 5, sp - 4);
    LoadEqual(Word, handled.ram, ram, sp - 4);
    LoadEqual(Byte, handled.ram, ram, sp - 5);
    CoreReti(handled, bus, vm.pointerInstr, C.FlagsGet(vm));
    CoreFlagsRoundTrip(vm, handled);
  }

  /** A run of bytes that agrees also agrees on every part. */
  lemma SubRun(a: seq<u8>, b: seq<u8>, lo: nat, hi: nat, from: nat, to: nat)
    requires lo <= from <= to <= hi <= |a| && hi <= |b|
    requires a[lo..hi] == b[lo..hi]
    ensures a[from..to] == b[from..to]
  {
    forall k | from <= k < to
      ensures a[k] == b[k]
    {
      assert a[k] == a[lo..hi][k - lo] && b[k] == b[lo..hi][k - lo];
    }
  }

  // ----- the Rust interpreter

  lemma CpuRaised(cpu: R.State, vector: u8)
    requires cpu.flag.interrupt && RoomForFrame(cpu.stackPointer)
    ensures
      R.Interrupt(cpu, vector) == Some(cpu.(
        instructionPointer := Load(Word, cpu.ram, 4 * vector),
        stackPointer := cpu.stackPointer - 5,
        flag := cpu.flag.(interrupt := false),
        ram := WithFrame(cpu.ram, cpu.stackPointer, cpu.instructionPointer, R.FlagToByte(cpu.flag))))
  {
    hide Load, Store, R.FlagToByte;
  }

  /** The flags byte is a faithful encoding, both ways on its three bits. */
  lemma FlagRoundTrip(flag: R.Flag, byte: u8)
    ensures R.FlagFromByte(R.FlagToByte(flag)) == flag
    ensures R.FlagToByte(R.FlagFromByte(byte)) == byte % 8
  {
  }

  /** The machine stands at a RETI whose condition holds. */
  predicate CpuAtReti(cpu: R.State) {
    var half := R.Read(cpu, Half, cpu.instructionPointer);
    half.Some? &&
    var instruction := R.FromHalf(half.value);
    instruction.Some? && instruction.value.Plain? && instruction.value.plain.Reti? &&
    R.CheckCondition(cpu, instruction.value.condition)
  }

  lemma CpuReti(cpu: R.State, bus: Bus, pointer: u32, flags: u8)
    requires CpuAtReti(cpu) && cpu.stackPointer + 5 <= RAM_SIZE
    requires Load(Byte, cpu.ram, cpu.stackPointer) == flags
    requires Load(Word, cpu.ram, cpu.stackPointer + 1) == pointer
    ensures
      R.ExecuteMemoryInstruction(cpu, bus) == Some(cpu.(
        instructionPointer := pointer, stackPointer := cpu.stackPointer + 5, flag := R.FlagFromByte(flags)))
  {
    hide Load, R.FromHalf, R.FlagFromByte;
    assert R.PopStack(cpu, Byte) == Some((cpu.(stackPointer := cpu.stackPointer + 1), flags));
    var cpu1 := cpu.(stackPointer := cpu.stackPointer + 1, flag := R.FlagFromByte(flags));
    assert R.PopStack(cpu1, Word) == Some((cpu1.(stackPointer := cpu.stackPointer + 5), pointer));
    hide R.PopStack;
  }

  /** The Rust interrupt request path has the same round trip. */
  lemma CpuInterruptRoundTrip(cpu: R.State, vector: u8, handled: R.State, bus: Bus)
    requires cpu.flag.interrupt && RoomForFrame(cpu.stackPointer)
    requires R.Interrupt(cpu, vector).Some?
    requires handled.stackPointer == cpu.stackPointer - 5
    requires
      handled.ram[cpu.stackPointer - 5..cpu.stackPointer]
      == R.Interrupt(cpu, vector).value.ram[cpu.stackPointer - 5..cpu.stackPointer]
    requires CpuAtReti(handled)
    ensures
      R.ExecuteMemoryInstruction(handled, bus) == Some(handled.(
        instructionPointer := cpu.instructionPointer, stackPointer := cpu.stackPointer, flag := cpu.flag))
    ensures
      var raised := R.Interrupt(cpu, vector).value;
      && raised.ram[..cpu.stackPointer - 5] == cpu.ram[..cpu.stackPointer - 5]
      && raised.ram[cpu.stackPointer..] == cpu.ram[cpu.stackPointer..]
      && raised.rom == cpu.rom
  {
    hide Load, R.Interrupt, R.ExecuteMemoryInstruction, CpuAtReti, WithFrame, R.FlagToByte, R.FlagFromByte;
    CpuRaised(cpu, vector);
    var sp := cpu.stackPointer;
    var ram := R.Interrupt(cpu, vector).value.ram;
    FrameReads(cpu.ram, sp, cpu.instructionPointer, R.FlagToByte(cpu.flag));
    SubRun(handled.ram, ram, sp - 5, sp, sp - 4, sp);
    SubRun(handled.ram, ram, sp - 5, sp, sp - 5, sp - 4);
    LoadEqual(Word, handled.ram, ram, sp - 4);
    LoadEqual(Byte, handled.ram, ram, sp - 5);
    CpuReti(handled, bus, cpu.instructionPointer, R.FlagToByte(cpu.flag));
    FlagRoundTrip(cpu.flag, 0);
  }

  /** The frame can also come to lie in ROM, which the Rust memory lets be written. */
  predicate FrameInRom(sp: u32) {
    ROM_START + 5 <= sp <= ROM_START + ROM_SIZE
  }

  /** An enabled request succeeds exactly when the frame lies in one of the two memories. */
  lemma CpuRaiseSucceeds(cpu: R.State, vector: u8)
    requires cpu.flag.interrupt
    ensures R.Interrupt(cpu, vector).Some? <==> RoomForFrame(cpu.stackPointer) || FrameInRom(cpu.stackPointer)
  {
    hide Load, Store;
  }

  /** Whatever a handler does, if it gives back the stack pointer and the frame and stands
      at a RETI, that RETI brings back the interrupted instruction, stack and flags. */
  ghost predicate ReturnsTo(cpu: R.State, raised: R.State)
    requires RoomForFrame(cpu.stackPointer) && raised.stackPointer == cpu.stackPointer - 5
  {
    forall handled: R.State, bus: Bus {:trigger R.ExecuteMemoryInstruction(handled, bus)} |
      && handled.stackPointer == raised.stackPointer
      && handled.ram[raised.stackPointer..cpu.stackPointer] == raised.ram[raised.stackPointer..cpu.stackPointer]
      && CpuAtReti(handled) ::
      R.ExecuteMemoryInstruction(handled, bus) == Some(handled.(
        instructionPointer := cpu.instructionPointer, stackPointer := cpu.stackPointer, flag := cpu.flag))
  }

  lemma InterruptReturns(cpu: R.State, vector: u8)
    requires cpu.flag.interrupt && RoomForFrame(cpu.stackPointer)
    ensures
      var raised := R.Interrupt(cpu, vector);
      && raised.Some? && raised.value.stackPointer == cpu.stackPointer - 5
      && ReturnsTo(cpu, raised.value)
  {
    hide R.Interrupt, R.ExecuteMemoryInstruction, CpuAtReti, WithFrame, R.FlagToByte, Load;
    CpuRaised(cpu, vector);
    var raised := R.Interrupt(cpu, vector).value;
    forall handled: R.State, bus: Bus {:trigger R.ExecuteMemoryInstruction(handled, bus)} |
      && handled.stackPointer == raised.stackPointer
      && handled.ram[raised.stackPointer..cpu.stackPointer] == raised.ram[raised.stackPointer..cpu.stackPointer]
      && CpuAtReti(handled)
      ensures R.ExecuteMemoryInstruction(handled, bus) == Some(handled.(
        instructionPointer := cpu.instructionPointer, stackPointer := cpu.stackPointer, flag := cpu.flag))
    {
      CpuInterruptRoundTrip(cpu, vector, handled, bus);
    }
  }

  // ----- both

  /** The two ways into a handler agree, except that the C one leaves the machine
      marked as halted. */
  lemma RaisesAgreeExceptHalted(vm: C.Vm, vector: u8)
    requires C.Raise(vm, vector).Report? && C.Raise(vm, vector).error.None?
    ensures C.Raise(vm, vector).vm.halted
    ensures
      R.Interrupt(L.OfVm(vm), vector)
      == Some(L.OfVm(C.Raise(vm, vector).vm).(halted := vm.halted))
  {
    hide C.Raise, R.Interrupt, Load, WithFrame;
    CoreRaiseSucceeds(vm, vector);
    CoreRaised(vm, vector);
    L.FlagsAgree(vm, 0);
    CpuRaised(L.OfVm(vm), vector);
  }
}
