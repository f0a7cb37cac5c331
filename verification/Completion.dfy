/** When the C interpreter completes what the Rust interpreter completes: a covered step
    that the Rust side finishes is finished by the C side exactly when it writes no ROM
    and is encoded in a size the C side knows. */
module Completion {
  import opened Words
  import opened Arithmetic
  import opened Memory
  import opened Lockstep
  import C = Core
  import R = Cpu

  // ----- what a step writes

  /** The address a destination operand behind a source operand denotes. */
  function BehindSource(cpu: R.State, destination: R.Operand, source: R.Operand): Option<u32> {
    var (_, offset) :- R.ReadSource(cpu, source);
    R.Pointer(cpu, destination, offset)
  }

  /** The memory address an instruction is about to write; None if it writes none. */
  function WriteAddress(cpu: R.State, instruction: R.Instruction): Option<u32> {
    match instruction
    case One(_, _, condition, source) =>
      if R.CheckCondition(cpu, condition) then R.Pointer(cpu, source, 2) else None
    case Two(op, _, condition, destination, source) =>
      if R.CheckCondition(cpu, condition) && R.Stores(op) then BehindSource(cpu, destination, source) else None
    case Mov(_, condition, destination, source) =>
      if R.CheckCondition(cpu, condition) then BehindSource(cpu, destination, source) else None
    case In(condition, destination, source) =>
      if R.CheckCondition(cpu, condition) then BehindSource(cpu, destination, source) else None
    case Jump(op, condition, _) =>
      if R.CheckCondition(cpu, condition) && (op.Call? || op.Rcall?) then Some(Sub32(cpu.stackPointer, 4)) else None
    case Push(size, condition, _) =>
      if R.CheckCondition(cpu, condition) then Some(Sub32(cpu.stackPointer, Bytes(size))) else None
    case Pop(_, condition, source) =>
      if R.CheckCondition(cpu, condition) then R.Pointer(cpu, source, 2) else None
    case _ => None
  }

  predicate InRomSpace(address: Option<u32>) {
    address.Some? && address.value >= ROM_START
  }

  predicate WritesRom(cpu: R.State, instruction: R.Instruction) {
    InRomSpace(WriteAddress(cpu, instruction))
  }

  /** Jumps, port access, RTA, RET, RETI, ISE and ICL, which the C interpreter knows as
      words only. */
  predicate WordOnly(instruction: R.Instruction) {
    || instruction.Jump? || instruction.In? || instruction.Out? || instruction.Rta?
    || (instruction.Plain? && !instruction.plain.Halt? && !instruction.plain.Brk?)
  }

  /** Where the Rust side completes, the C side does exactly if no ROM is written. */
  ghost predicate Completes(
    o: C.Outcome<()>, r: Option<(R.State, u32)>, cpu: R.State, instruction: R.Instruction)
  {
    r.Some? ==> (o.Done? <==> !WritesRom(cpu, instruction))
  }

  // ----- memory and operands

  lemma WriteCompletes(vm: C.Vm, size: Size, address: u32, value: u32)
    ensures
      C.Write(vm, size, address, value).Done?
      <==> R.Find(address, size).Some? && address < ROM_START
    ensures R.Write(OfVm(vm), size, address, value).Some? <==> R.Find(address, size).Some?
  {
    hide Store;
  }

  lemma PushCompletes(vm: C.Vm, size: Size, value: u32)
    requires R.PushStack(OfVm(vm), size, value).Some?
    ensures C.Push(vm, size, value).Done? <==> Sub32(vm.pointerStack, Bytes(size)) < ROM_START
  {
    hide C.Write, R.Write;
    var sp := Sub32(vm.pointerStack, Bytes(size));
    WriteCompletes(vm.(pointerStack := sp), size, sp, value);
  }

  lemma PopCompletes(vm: C.Vm, size: Size)
    requires R.PopStack(OfVm(vm), size).Some?
    ensures C.Pop(vm, size).Done?
  {
    ReadAgrees(vm, size, vm.pointerStack);
  }

  /** A source operand the Rust side can read, the C side can. */
  lemma SourceCompletes(vm: C.Vm, size: Size, prtype: u8, operand: R.Operand)
    requires Corresponds(prtype, size, operand) && CursorAt(vm, 2)
    requires R.ReadSource(OfVm(vm), operand).Some?
    ensures C.Source(vm, size, prtype, false).Done?
  {
    hide C.Read, R.Read, Trunc;
    var cpu := OfVm(vm);
    var moved := C.Advance(vm, C.OperandBytes(size, prtype));
    match operand
    case Register => ReadAgrees(moved, Byte, vm.pointerInstrMut);
    case RegisterPtr =>
      ReadAgrees(moved, Byte, vm.pointerInstrMut);
      var register := R.Read(cpu, Byte, vm.pointerInstrMut).value;
      var pointer := R.ReadRegister(cpu, register).value;
      NarrowRead(cpu, size, pointer);
      ReadAgrees(moved, size, pointer);
    case ImmediatePtr(_) =>
      ReadAgrees(moved, Word, vm.pointerInstrMut);
      ReadAgrees(moved, size, R.Read(cpu, Word, vm.pointerInstrMut).value);
    case _ => ReadAgrees(moved, size, vm.pointerInstrMut);
  }

  /** A destination operand the Rust side can read, the C side can. */
  lemma DestinationCompletes(vm: C.Vm, size: Size, prtype: u8, operand: R.Operand, offset: u32, stay: bool)
    requires Corresponds(prtype, size, operand) && IsPlace(operand) && CursorAt(vm, offset)
    requires Destination(OfVm(vm), size, operand, offset).Some?
    ensures C.Source(vm, size, prtype, stay).Done?
  {
    hide C.Read, R.Read, Trunc;
    var cpu := OfVm(vm);
    var moved := if stay then vm else C.Advance(vm, C.OperandBytes(size, prtype));
    match operand
    case Register => ReadAgrees(moved, Byte, vm.pointerInstrMut);
    case RegisterPtr =>
      ReadAgrees(moved, Byte, vm.pointerInstrMut);
      ReadAgrees(moved, size, R.Pointer(cpu, operand, offset).value);
    case ImmediatePtr(_) =>
      ReadAgrees(moved, Word, vm.pointerInstrMut);
      ReadAgrees(moved, size, R.Pointer(cpu, operand, offset).value);
  }

  /** A place the Rust side can write. */
  predicate Assignable(cpu: R.State, size: Size, operand: R.Operand, offset: u32) {
    if operand.Register? then
      var register := R.Read(cpu, Byte, R.At(cpu, offset));
      register.Some? && register.value <= 32
    else
      var pointer := R.Pointer(cpu, operand, offset);
      pointer.Some? && R.Find(pointer.value, size).Some?
  }

  lemma AssignCompletes(cpu: R.State, size: Size, operand: R.Operand, offset: u32, value: u32, zero: bool)
    requires value < Modulus(size)
    ensures Assign(cpu, size, operand, offset, value, zero).Some? <==> Assignable(cpu, size, operand, offset)
  {
    hide R.Read, R.Pointer, R.Find, Store, Merge;
  }

  /** Writing a destination depends on neither flags nor the transfer log. */
  lemma AssignableAlike(cpu: R.State, other: R.State, size: Size, operand: R.Operand, offset: u32)
    requires other == cpu.(flag := other.flag, io := other.io)
    ensures Assignable(other, size, operand, offset) == Assignable(cpu, size, operand, offset)
    ensures R.Pointer(other, operand, offset) == R.Pointer(cpu, operand, offset)
  {
    hide R.Find, Fetch;
    assert R.Read(other, Byte, R.At(cpu, offset)) == R.Read(cpu, Byte, R.At(cpu, offset));
    assert R.Read(other, Word, R.At(cpu, offset)) == R.Read(cpu, Word, R.At(cpu, offset));
  }

  /** Writing through a pointer. */
  lemma PointerCompletes(vm: C.Vm, size: Size, operand: R.Operand, offset: u32, pointer: u32, value: u32)
    requires R.Pointer(OfVm(vm), operand, offset) == Some(pointer) && !operand.Register?
    ensures
      C.Write(vm, size, pointer, value).Done?
      <==> Assignable(OfVm(vm), size, operand, offset) && !InRomSpace(R.Pointer(OfVm(vm), operand, offset))
  {
    hide C.Write, R.Write, R.Find, R.Pointer;
    WriteCompletes(vm, size, pointer, value);
  }

  /** The C side writes a destination exactly when the Rust side does and it is not in
      ROM. */
  lemma TargetCompletes(
    vm: C.Vm, size: Size, prtype: u8, operand: R.Operand, offset: u32, value: u32, zero: bool)
    requires Corresponds(prtype, size, operand) && IsPlace(operand) && CursorAt(vm, offset) && value < Modulus(size)
    ensures
      C.Target(vm, size, prtype, value, zero).Done?
      <==> Assignable(OfVm(vm), size, operand, offset) && !InRomSpace(R.Pointer(OfVm(vm), operand, offset))
  {
    hide C.Read, R.Read, C.Write, R.Find, Merge, Assignable;
    match operand
    case Register => RegisterTargetCompletes(vm, size, offset, value, zero);
    case RegisterPtr => RegisterPtrTargetCompletes(vm, size, offset, value, zero);
    case ImmediatePtr(_) => ImmediatePtrTargetCompletes(vm, size, offset, value, zero);
  }

  lemma RegisterTargetCompletes(vm: C.Vm, size: Size, offset: u32, value: u32, zero: bool)
    requires CursorAt(vm, offset) && value < Modulus(size)
    ensures C.Target(vm, size, C.TY_REG, value, zero).Done? <==> Assignable(OfVm(vm), size, R.Register, offset)
  {
    hide C.Read, R.Read, Merge;
    ReadAgrees(C.Advance(vm, 1), Byte, vm.pointerInstrMut);
  }

  lemma RegisterPtrTargetCompletes(vm: C.Vm, size: Size, offset: u32, value: u32, zero: bool)
    requires CursorAt(vm, offset) && value < Modulus(size)
    ensures
      C.Target(vm, size, C.TY_REGPTR, value, zero).Done?
      <==> Assignable(OfVm(vm), size, R.RegisterPtr, offset) && !InRomSpace(R.Pointer(OfVm(vm), R.RegisterPtr, offset))
  {
    hide C.Read, R.Read, C.Write, R.Find;
    var cpu, moved := OfVm(vm), C.Advance(vm, 1);
    ReadAgrees(moved, Byte, vm.pointerInstrMut);
    if R.Pointer(cpu, R.RegisterPtr, offset).Some? {
      PointerCompletes(moved, size, R.RegisterPtr, offset, R.Pointer(cpu, R.RegisterPtr, offset).value, value);
    }
  }

  lemma ImmediatePtrTargetCompletes(vm: C.Vm, size: Size, offset: u32, value: u32, zero: bool)
    requires CursorAt(vm, offset) && value < Modulus(size)
    ensures
      var operand := R.ImmediatePtr(size);
      C.Target(vm, size, C.TY_IMMPTR, value, zero).Done?
      <==> Assignable(OfVm(vm), size, operand, offset) && !InRomSpace(R.Pointer(OfVm(vm), operand, offset))
  {
    hide C.Read, R.Read, C.Write, R.Find;
    var cpu, moved, operand := OfVm(vm), C.Advance(vm, 4), R.ImmediatePtr(size);
    ReadAgrees(moved, Word, vm.pointerInstrMut);
    if R.Pointer(cpu, operand, offset).Some? {
      PointerCompletes(moved, size, operand, offset, R.Pointer(cpu, operand, offset).value, value);
    }
  }

  // ----- two operands

  lemma ReadFinds(cpu: R.State, size: Size, address: u32)
    ensures R.Read(cpu, size, address).Some? <==> R.Find(address, size).Some?
  {
    hide Fetch;
  }

  /** What an executed two-operand instruction has read, and can write. */
  lemma TwoParts(
    cpu: R.State, op: R.TwoOp, size: Size, condition: R.Condition, destination: R.Operand, source: R.Operand)
    requires R.CheckCondition(cpu, condition) && IsPlace(destination)
    requires R.ExecuteTwo(cpu, op, size, condition, destination, source).Some?
    ensures R.ReadSource(cpu, source).Some?
    ensures
      var (sourceValue, offset) := R.ReadSource(cpu, source).value;
      && offset == 2 + R.OperandWidth(source)
      && var left := Destination(cpu, size, destination, offset);
      && left.Some? && left.value < Modulus(size)
      && R.Compute(op, size, left.value, sourceValue).Some?
      && (R.Stores(op) ==> Assignable(cpu, size, destination, offset))
      && WriteAddress(cpu, R.Two(op, size, condition, destination, source))
         == if R.Stores(op) then R.Pointer(cpu, destination, offset) else None
  {
    hide R.CheckCondition, R.ReadSource, R.Compute, R.Read, R.Find, R.Write, R.MergeRegister, R.SetFlags, Trunc;
    ReadSourceWidth(cpu, source);
    var pointer := R.Pointer(cpu, destination, 2 + R.OperandWidth(source));
    if pointer.Some? {
      ReadFinds(cpu, size, pointer.value);
    }
  }

  /** Both operands, read by the C side: the source moving on, the destination in place. */
  lemma OperandsComplete(
    vm: C.Vm, i: C.Instr, size: Size, condition: R.Condition, destination: R.Operand, source: R.Operand)
    returns (vm1: C.Vm, a: u32, b: u32)
    requires Decoded(i, size, condition, destination, source) && CursorAt(vm, 2)
    requires R.ReadSource(OfVm(vm), source).Some?
    requires Destination(OfVm(vm), size, destination, 2 + R.OperandWidth(source)).Some?
    ensures C.Source(vm, size, i.source, false) == C.Done(vm1, a)
    ensures C.Source(vm1, size, i.target, true) == C.Done(vm1, b)
    ensures OfVm(vm1) == OfVm(vm) && CursorAt(vm1, 2 + R.OperandWidth(source))
    ensures a == Trunc(size, R.ReadSource(OfVm(vm), source).value.0) && a < Modulus(size) && b < Modulus(size)
    ensures Destination(OfVm(vm), size, destination, 2 + R.OperandWidth(source)) == Some(b)
  {
    hide C.Source, R.ReadSource, Destination, Trunc;
    vm1, a := SourceDone(vm, i, size, condition, destination, source);
    DestinationCompletes(vm1, size, i.target, destination, 2 + R.OperandWidth(source), true);
    DestinationAgrees(vm1, size, i.target, destination, 2 + R.OperandWidth(source), true);
    b := C.Source(vm1, size, i.target, true).value;
  }

  lemma SourceDone(
    vm: C.Vm, i: C.Instr, size: Size, condition: R.Condition, destination: R.Operand, source: R.Operand)
    returns (vm1: C.Vm, a: u32)
    requires Decoded(i, size, condition, destination, source) && CursorAt(vm, 2)
    requires R.ReadSource(OfVm(vm), source).Some?
    ensures C.Source(vm, size, i.source, false) == C.Done(vm1, a)
    ensures vm1 == vm.(pointerInstrMut := vm1.pointerInstrMut)
    ensures OfVm(vm1) == OfVm(vm) && CursorAt(vm1, 2 + R.OperandWidth(source))
    ensures a == Trunc(size, R.ReadSource(OfVm(vm), source).value.0) && a < Modulus(size)
  {
    hide C.Source, R.ReadSource, Trunc;
    SourceCompletes(vm, size, i.source, source);
    SourceAgrees(vm, size, i.source, source);
    var s := C.Source(vm, size, i.source, false);
    vm1, a := s.vm, s.value;
  }

  /** Writing back after the flags have been set. */
  lemma WriteBackCompletes(
    vm: C.Vm, size: Size, prtype: u8, operand: R.Operand, offset: u32, x: u32, carry: bool, zero: bool)
    requires Corresponds(prtype, size, operand) && IsPlace(operand) && CursorAt(vm, offset) && x < Modulus(size)
    requires Assignable(OfVm(vm), size, operand, offset)
    ensures
      C.Target(vm.(flagCarry := carry, flagZero := zero), size, prtype, x, false).Done?
      <==> !InRomSpace(R.Pointer(OfVm(vm), operand, offset))
  {
    hide C.Target, Assignable, R.Pointer;
    var flagged := vm.(flagCarry := carry, flagZero := zero);
    TargetCompletes(flagged, size, prtype, operand, offset, x, false);
    AssignableAlike(OfVm(vm), OfVm(flagged), size, operand, offset);
  }

  lemma AddForm(vm: C.Vm, i: C.Instr, size: Size, op: C.CarryOp, vm1: C.Vm, a: u32, b: u32)
    requires i.source < 4 && i.target < 4 && a < Modulus(size) && b < Modulus(size)
    requires C.ShouldSkip(vm, i.condition) == C.Done(vm, false)
    requires C.Source(vm, size, i.source, false) == C.Done(vm1, a)
    requires C.Source(vm1, size, i.target, true) == C.Done(vm1, b)
    ensures
      var x := C.Checked(op, size, b, a);
      C.Add(vm, i, size, op) == C.Target(vm1.(flagCarry := x.1, flagZero := x.0 == 0), size, i.target, x.0, false)
  {
    hide C.Source, C.Target, C.ShouldSkip, C.Checked;
  }

  lemma AddCompletes(
    vm: C.Vm, i: C.Instr, size: Size, op: C.CarryOp, two: R.TwoOp,
    condition: R.Condition, destination: R.Operand, source: R.Operand)
    requires Decoded(i, size, condition, destination, source) && CursorAt(vm, 2) && SameCarryOp(op, two)
    ensures
      Completes(
        C.Add(vm, i, size, op), R.ExecuteTwo(OfVm(vm), two, size, condition, destination, source),
        OfVm(vm), R.Two(two, size, condition, destination, source))
  {
    hide C.Source, C.Target, C.Checked, R.ReadSource, R.CheckCondition, C.ShouldSkip, C.SkipParams, R.ExecuteTwo;
    hide R.Compute;
    hide Assignable, Destination, R.Pointer;
    SkipAgrees(vm, i.condition, condition);
    var cpu := OfVm(vm);
    if R.CheckCondition(cpu, condition) && R.ExecuteTwo(cpu, two, size, condition, destination, source).Some? {
      TwoParts(cpu, two, size, condition, destination, source);
      var vm1, a, b := OperandsComplete(vm, i, size, condition, destination, source);
      AddForm(vm, i, size, op, vm1, a, b);
      var x := C.Checked(op, size, b, a);
      WriteBackCompletes(vm1, size, i.target, destination, 2 + R.OperandWidth(source), x.0, x.1, x.0 == 0);
    }
  }

  lemma AndForm(vm: C.Vm, i: C.Instr, size: Size, op: C.ZeroOp, vm1: C.Vm, a: u32, b: u32)
    requires i.source < 4 && i.target < 4 && a < Modulus(size) && b < Modulus(size)
    requires C.ShouldSkip(vm, i.condition) == C.Done(vm, false)
    requires C.Source(vm, size, i.source, false) == C.Done(vm1, a)
    requires C.Source(vm1, size, i.target, true) == C.Done(vm1, b)
    requires C.Unchecked(op, size, b, a).Some?
    ensures
      var x := C.Unchecked(op, size, b, a).value;
      && x < Modulus(size)
      && C.And(vm, i, size, op)
         == C.Target(vm1.(flagCarry := vm1.flagCarry, flagZero := x == 0), size, i.target, x, false)
  {
    hide C.Source, C.Target, C.ShouldSkip, C.Unchecked;
  }

  lemma ExecutedAndCompletes(
    vm: C.Vm, i: C.Instr, size: Size, op: C.ZeroOp, two: R.TwoOp,
    condition: R.Condition, destination: R.Operand, source: R.Operand)
    requires Decoded(i, size, condition, destination, source) && CursorAt(vm, 2) && SameZeroOp(op, two)
    requires R.CheckCondition(OfVm(vm), condition)
    requires R.ExecuteTwo(OfVm(vm), two, size, condition, destination, source).Some?
    ensures
      C.And(vm, i, size, op).Done? <==> !WritesRom(OfVm(vm), R.Two(two, size, condition, destination, source))
  {
    hide C.Source, C.Target, C.And, C.Unchecked, R.ReadSource, R.CheckCondition, C.ShouldSkip, R.ExecuteTwo, R.Compute;
    hide Assignable, Destination, R.Pointer, WriteAddress, Trunc;
    SkipAgrees(vm, i.condition, condition);
    var cpu := OfVm(vm);
    TwoParts(cpu, two, size, condition, destination, source);
    var vm1, a, b := OperandsComplete(vm, i, size, condition, destination, source);
    UncheckedAgrees(op, two, size, b, R.ReadSource(cpu, source).value.0);
    AndForm(vm, i, size, op, vm1, a, b);
    var x := C.Unchecked(op, size, b, a).value;
    WriteBackCompletes(vm1, size, i.target, destination, 2 + R.OperandWidth(source), x, vm1.flagCarry, x == 0);
  }

  lemma AndCompletes(
    vm: C.Vm, i: C.Instr, size: Size, op: C.ZeroOp, two: R.TwoOp,
    condition: R.Condition, destination: R.Operand, source: R.Operand)
    requires Decoded(i, size, condition, destination, source) && CursorAt(vm, 2) && SameZeroOp(op, two)
    ensures
      Completes(
        C.And(vm, i, size, op), R.ExecuteTwo(OfVm(vm), two, size, condition, destination, source),
        OfVm(vm), R.Two(two, size, condition, destination, source))
  {
    hide C.Source, C.Target, C.Unchecked, R.CheckCondition, C.ShouldSkip, C.SkipParams, R.ExecuteTwo, BehindSource;
    SkipAgrees(vm, i.condition, condition);
    var cpu := OfVm(vm);
    if R.CheckCondition(cpu, condition) && R.ExecuteTwo(cpu, two, size, condition, destination, source).Some? {
      ExecutedAndCompletes(vm, i, size, op, two, condition, destination, source);
    }
  }

  /** CMP and BTS, once executed, write nothing. */
  lemma TestsComplete(
    vm: C.Vm, i: C.Instr, size: Size, two: R.TwoOp,
    condition: R.Condition, destination: R.Operand, source: R.Operand)
    requires Decoded(i, size, condition, destination, source) && CursorAt(vm, 2)
    requires two.Cmp? || two.Bts?
    requires R.CheckCondition(OfVm(vm), condition)
    requires two.Bts? && R.ReadSource(OfVm(vm), source).Some? ==> R.ReadSource(OfVm(vm), source).value.0 < Width(size)
    ensures
      Completes(
        if two.Cmp? then C.Cmp(vm, i, size) else C.Bts(vm, i, size),
        R.ExecuteTwo(OfVm(vm), two, size, condition, destination, source),
        OfVm(vm), R.Two(two, size, condition, destination, source))
  {
    hide C.Source, C.Checked, R.ReadSource, R.CheckCondition, R.ExecuteTwo, R.Compute, Destination, Bit, BitAnd;
    var cpu := OfVm(vm);
    if R.ExecuteTwo(cpu, two, size, condition, destination, source).Some? {
      TwoParts(cpu, two, size, condition, destination, source);
      var vm1, a := SourceDone(vm, i, size, condition, destination, source);
      DestinationCompletes(vm1, size, i.target, destination, 2 + R.OperandWidth(source), false);
    }
  }

  // ----- one operand

  /** What an executed one-operand instruction has read, and can write. */
  lemma OneParts(cpu: R.State, op: R.OneOp, size: Size, condition: R.Condition, operand: R.Operand)
    requires R.CheckCondition(cpu, condition) && R.ExecuteOne(cpu, op, size, condition, operand).Some?
    ensures IsPlace(operand) && Destination(cpu, size, operand, 2).Some? && Assignable(cpu, size, operand, 2)
  {
    hide R.CheckCondition, R.ComputeOne, R.Read, R.Find, Store, Merge;
  }

  /** INC, DEC and NOT read in place and write back. */
  lemma InPlaceCompletes(
    vm: C.Vm, size: Size, prtype: u8, operand: R.Operand, x: u32, carry: bool)
    requires Corresponds(prtype, size, operand) && IsPlace(operand) && CursorAt(vm, 2) && x < Modulus(size)
    requires Destination(OfVm(vm), size, operand, 2).Some? && Assignable(OfVm(vm), size, operand, 2)
    ensures
      var v := C.Source(vm, size, prtype, true);
      && v.Done? && v == C.Done(vm, v.value)
    ensures
      C.Target(vm.(flagCarry := carry, flagZero := x == 0), size, prtype, x, false).Done?
      <==> !InRomSpace(R.Pointer(OfVm(vm), operand, 2))
  {
    hide C.Source, C.Target, Destination, Assignable, R.Pointer;
    DestinationCompletes(vm, size, prtype, operand, 2, true);
    ReadInPlace(vm, size, prtype);
    WriteBackCompletes(vm, size, prtype, operand, 2, x, carry, x == 0);
  }

  lemma IncCompletes(
    vm: C.Vm, i: C.Instr, size: Size, op: C.CarryOp, one: R.OneOp,
    condition: R.Condition, destination: R.Operand, source: R.Operand)
    requires Decoded(i, size, condition, destination, source) && CursorAt(vm, 2) && SameOneOp(op, one)
    ensures
      Completes(
        C.Inc(vm, i, size, op), R.ExecuteOne(OfVm(vm), one, size, condition, source),
        OfVm(vm), R.One(one, size, condition, source))
  {
    hide C.Source, C.Target, C.Checked, R.ExecuteOne, R.CheckCondition, C.ShouldSkip, C.SkipParam, Destination;
    hide Assignable, R.Pointer;
    SkipAgrees(vm, i.condition, condition);
    var cpu := OfVm(vm);
    if R.CheckCondition(cpu, condition) && R.ExecuteOne(cpu, one, size, condition, source).Some? {
      OneParts(cpu, one, size, condition, source);
      InPlaceCompletes(vm, size, i.source, source, 0, false);
      var x := C.Checked(op, size, C.Source(vm, size, i.source, true).value, 1);
      InPlaceCompletes(vm, size, i.source, source, x.0, x.1);
    }
  }

  lemma NotCompletes(
    vm: C.Vm, i: C.Instr, size: Size, condition: R.Condition, destination: R.Operand, source: R.Operand)
    requires Decoded(i, size, condition, destination, source) && CursorAt(vm, 2)
    ensures
      Completes(
        C.Not(vm, i, size), R.ExecuteOne(OfVm(vm), R.Not, size, condition, source),
        OfVm(vm), R.One(R.Not, size, condition, source))
  {
    hide C.Source, C.Target, BitNot, R.ExecuteOne, R.CheckCondition, C.ShouldSkip, C.SkipParam, Destination;
    hide Assignable, R.Pointer;
    SkipAgrees(vm, i.condition, condition);
    var cpu := OfVm(vm);
    if R.CheckCondition(cpu, condition) && R.ExecuteOne(cpu, R.Not, size, condition, source).Some? {
      OneParts(cpu, R.Not, size, condition, source);
      InPlaceCompletes(vm, size, i.source, source, 0, false);
      var x := BitNot(size, C.Source(vm, size, i.source, true).value);
      InPlaceCompletes(vm, size, i.source, source, x, vm.flagCarry);
    }
  }

  // ----- moves

  lemma MovParts(
    cpu: R.State, size: Size, condition: R.Condition, destination: R.Operand, source: R.Operand, zero: bool)
    requires R.CheckCondition(cpu, condition) && IsPlace(destination)
    requires
      if zero then R.ExecuteMovz(cpu, size, condition, destination, source).Some?
      else R.ExecuteMov(cpu, size, condition, destination, source).Some?
    ensures R.ReadSource(cpu, source).Some?
    ensures
      var offset := R.ReadSource(cpu, source).value.1;
      && offset == 2 + R.OperandWidth(source)
      && Assignable(cpu, size, destination, offset)
      && BehindSource(cpu, destination, source) == R.Pointer(cpu, destination, offset)
      && (zero ==> destination.Register?)
  {
    hide R.CheckCondition, R.ReadSource, R.Read, R.Find, Store, Merge, Trunc;
    ReadSourceWidth(cpu, source);
  }

  lemma MovForm(vm: C.Vm, i: C.Instr, size: Size, zero: bool, vm1: C.Vm, a: u32)
    requires i.source < 4 && i.target < 4 && a < Modulus(size)
    requires C.ShouldSkip(vm, i.condition) == C.Done(vm, false)
    requires C.Source(vm, size, i.source, false) == C.Done(vm1, a)
    ensures C.Mov(vm, i, size, zero) == C.Target(vm1, size, i.target, a, zero)
  {
    hide C.Source, C.Target, C.ShouldSkip;
  }

  lemma ExecutedMovCompletes(
    vm: C.Vm, i: C.Instr, size: Size, condition: R.Condition, destination: R.Operand, source: R.Operand, zero: bool)
    requires Decoded(i, size, condition, destination, source) && CursorAt(vm, 2)
    requires R.CheckCondition(OfVm(vm), condition)
    requires
      if zero then R.ExecuteMovz(OfVm(vm), size, condition, destination, source).Some?
      else R.ExecuteMov(OfVm(vm), size, condition, destination, source).Some?
    ensures
      var address := BehindSource(OfVm(vm), destination, source);
      && (C.Mov(vm, i, size, zero).Done? <==> !InRomSpace(address))
      && (zero ==> address.None?)
  {
    hide C.Source, C.Target, C.Mov, R.ReadSource, R.CheckCondition, C.ShouldSkip, R.ExecuteMov, R.ExecuteMovz, Trunc;
    hide Assignable, BehindSource;
    SkipAgrees(vm, i.condition, condition);
    MovParts(OfVm(vm), size, condition, destination, source, zero);
    var vm1, a := SourceDone(vm, i, size, condition, destination, source);
    MovForm(vm, i, size, zero, vm1, a);
    TargetCompletes(vm1, size, i.target, destination, 2 + R.OperandWidth(source), a, zero);
  }

  lemma MovCompletes(
    vm: C.Vm, i: C.Instr, size: Size, condition: R.Condition, destination: R.Operand, source: R.Operand)
    requires Decoded(i, size, condition, destination, source) && CursorAt(vm, 2)
    ensures
      Completes(
        C.Mov(vm, i, size, false), R.ExecuteMov(OfVm(vm), size, condition, destination, source),
        OfVm(vm), R.Mov(size, condition, destination, source))
    ensures
      Completes(
        C.Mov(vm, i, size, true), R.ExecuteMovz(OfVm(vm), size, condition, destination, source),
        OfVm(vm), R.Movz(size, condition, destination, source))
  {
    hide C.Mov, R.CheckCondition, R.ExecuteMov, R.ExecuteMovz, BehindSource;
    SkippedMovCompletes(vm, i, size, condition, false);
    SkippedMovCompletes(vm, i, size, condition, true);
    if R.CheckCondition(OfVm(vm), condition) {
      if R.ExecuteMov(OfVm(vm), size, condition, destination, source).Some? {
        ExecutedMovCompletes(vm, i, size, condition, destination, source, false);
      }
      if R.ExecuteMovz(OfVm(vm), size, condition, destination, source).Some? {
        ExecutedMovCompletes(vm, i, size, condition, destination, source, true);
      }
    }
  }

  lemma SkippedMovCompletes(vm: C.Vm, i: C.Instr, size: Size, condition: R.Condition, zero: bool)
    requires R.ConditionFrom(i.condition) == Some(condition) && i.source < 4 && i.target < 4
    ensures !R.CheckCondition(OfVm(vm), condition) ==> C.Mov(vm, i, size, zero).Done?
  {
    hide C.Source, C.Target, R.CheckCondition, C.ShouldSkip;
    SkipAgrees(vm, i.condition, condition);
  }

  lemma RtaParts(cpu: R.State, condition: R.Condition, destination: R.Operand, source: R.Operand)
    requires destination.Register? && R.CheckCondition(cpu, condition)
    requires R.ExecuteRta(cpu, condition, destination, source).Some?
    ensures R.ReadSource(cpu, source).Some?
    ensures Assignable(cpu, Word, destination, 2 + R.OperandWidth(source))
  {
    hide R.CheckCondition, R.ReadSource, R.Read;
    ReadSourceWidth(cpu, source);
  }

  lemma RtaCompletes(
    vm: C.Vm, i: C.Instr, condition: R.Condition, destination: R.Operand, source: R.Operand)
    requires Decoded(i, Word, condition, destination, source) && CursorAt(vm, 2) && destination.Register?
    ensures
      Completes(
        C.Rta(vm, i, vm.pointerInstr), R.ExecuteRta(OfVm(vm), condition, destination, source),
        OfVm(vm), R.Rta(condition, destination, source))
  {
    hide C.Source, C.Target, C.Rta, R.ReadSource, R.CheckCondition, C.ShouldSkip, C.SkipParams, R.ExecuteRta;
    hide Assignable;
    SkipAgrees(vm, i.condition, condition);
    RtaForm(vm, i, vm.pointerInstr);
    var cpu := OfVm(vm);
    if R.CheckCondition(cpu, condition) && R.ExecuteRta(cpu, condition, destination, source).Some? {
      RtaParts(cpu, condition, destination, source);
      var vm1, a := SourceDone(vm, i, Word, condition, destination, source);
      TargetCompletes(
        vm1, Word, i.target, destination, 2 + R.OperandWidth(source), Add32(vm.pointerInstr, a), false);
    }
  }

  // ----- control transfer

  lemma JmpCompletes(
    vm: C.Vm, i: C.Instr, base: u32, op: R.JumpOp, condition: R.Condition, destination: R.Operand, source: R.Operand)
    requires Decoded(i, Word, condition, destination, source) && CursorAt(vm, 2)
    requires op.Jmp? || op.Rjmp?
    ensures
      Completes(
        C.Jmp(vm, i, base), R.ExecuteJump(OfVm(vm), op, condition, source),
        OfVm(vm), R.Jump(op, condition, source))
  {
    hide C.Source, R.ReadSource, R.CheckCondition, C.ShouldSkip, C.SkipParam;
    SkipAgrees(vm, i.condition, condition);
    if R.ReadSource(OfVm(vm), source).Some? {
      var vm1, a := SourceDone(vm, i, Word, condition, destination, source);
    }
  }

  lemma CallCompletes(
    vm: C.Vm, i: C.Instr, base: u32, op: R.JumpOp, condition: R.Condition, destination: R.Operand, source: R.Operand)
    requires Decoded(i, Word, condition, destination, source) && CursorAt(vm, 2)
    requires op.Call? || op.Rcall?
    ensures
      Completes(
        C.Call(vm, i, base), R.ExecuteJump(OfVm(vm), op, condition, source),
        OfVm(vm), R.Jump(op, condition, source))
  {
    hide C.Source, R.ReadSource, R.CheckCondition, C.ShouldSkip, C.SkipParam, C.Push, R.PushStack, R.OperandWidth;
    SkipAgrees(vm, i.condition, condition);
    var cpu := OfVm(vm);
    if R.ReadSource(cpu, source).Some? && R.CheckCondition(cpu, condition) {
      ReadSourceWidth(cpu, source);
      var vm1, a := SourceDone(vm, i, Word, condition, destination, source);
      if R.PushStack(cpu, Word, R.At(cpu, R.ReadSource(cpu, source).value.1)).Some? {
        PushCompletes(vm1, Word, vm1.pointerInstrMut);
      }
    }
  }

  lemma LoopCompletes(
    vm: C.Vm, i: C.Instr, base: u32, op: R.JumpOp, condition: R.Condition, destination: R.Operand, source: R.Operand)
    requires Decoded(i, Word, condition, destination, source) && CursorAt(vm, 2)
    requires op.Loop? || op.Rloop?
    requires R.CheckCondition(OfVm(vm), condition) && !Names(OfVm(vm), source, 31)
    ensures
      Completes(
        C.Loop(vm, i, base), R.ExecuteJump(OfVm(vm), op, condition, source),
        OfVm(vm), R.Jump(op, condition, source))
  {
    hide C.Source, R.ReadSource, R.CheckCondition, C.ShouldSkip, C.SkipParam, Names, C.Loop, R.ExecuteJump;
    SkipAgrees(vm, i.condition, condition);
    LoopForm(vm, i, base);
    var cpu := OfVm(vm);
    CpuLoopForm(cpu, op, condition, source);
    if R.ReadSource(cpu, source).Some? {
      var counter := Sub32(vm.registers[31], 1);
      var counted := vm.(registers := vm.registers[31 := counter]);
      SourceIgnoresCounter(cpu, source, counter);
      assert OfVm(counted) == cpu.(register := cpu.register[31 := counter]);
      var vm1, a := SourceDone(counted, i, Word, condition, destination, source);
    }
  }

  // ----- stack

  lemma PushFromCompletes(
    vm: C.Vm, i: C.Instr, size: Size, condition: R.Condition, destination: R.Operand, source: R.Operand)
    requires Decoded(i, size, condition, destination, source) && CursorAt(vm, 2)
    ensures
      Completes(
        C.PushFrom(vm, i, size), R.ExecutePush(OfVm(vm), size, condition, source),
        OfVm(vm), R.Push(size, condition, source))
  {
    hide C.Source, R.ReadSource, R.CheckCondition, C.ShouldSkip, C.SkipParam, C.Push, R.PushStack, Trunc;
    SkipAgrees(vm, i.condition, condition);
    var cpu := OfVm(vm);
    if R.ReadSource(cpu, source).Some? && R.CheckCondition(cpu, condition) {
      var vm1, a := SourceDone(vm, i, size, condition, destination, source);
      if R.PushStack(cpu, size, a).Some? {
        PushCompletes(vm1, size, a);
      }
    }
  }

  lemma PopParts(cpu: R.State, size: Size, condition: R.Condition, operand: R.Operand)
    requires R.CheckCondition(cpu, condition) && R.ExecutePop(cpu, size, condition, operand).Some?
    requires operand.RegisterPtr? ==> !Names(cpu, operand, 32)
    ensures IsPlace(operand) && R.PopStack(cpu, size).Some?
    ensures
      var popped := R.PopStack(cpu, size).value.0;
      Assignable(popped, size, operand, 2) && R.Pointer(popped, operand, 2) == R.Pointer(cpu, operand, 2)
  {
    hide R.CheckCondition, R.Find, Fetch, Store, Merge;
    var popped := cpu.(stackPointer := Add32(cpu.stackPointer, Bytes(size)));
    assert R.Read(popped, Byte, R.At(cpu, 2)) == R.Read(cpu, Byte, R.At(cpu, 2));
    assert R.Read(popped, Word, R.At(cpu, 2)) == R.Read(cpu, Word, R.At(cpu, 2));
  }

  lemma PopToCompletes(
    vm: C.Vm, i: C.Instr, size: Size, condition: R.Condition, destination: R.Operand, source: R.Operand)
    requires Decoded(i, size, condition, destination, source) && CursorAt(vm, 2)
    requires source.RegisterPtr? ==> !Names(OfVm(vm), source, 32)
    ensures
      Completes(
        C.PopTo(vm, i, size), R.ExecutePop(OfVm(vm), size, condition, source),
        OfVm(vm), R.Pop(size, condition, source))
  {
    hide C.Target, R.CheckCondition, C.ShouldSkip, C.SkipParam, C.Pop, R.PopStack, R.ExecutePop, Names, Assignable;
    hide R.Pointer;
    SkipAgrees(vm, i.condition, condition);
    var cpu := OfVm(vm);
    if R.CheckCondition(cpu, condition) && R.ExecutePop(cpu, size, condition, source).Some? {
      PopParts(cpu, size, condition, source);
      PopCompletes(vm, size);
      PopAgrees(vm, size);
      var (vm1, value) := C.Pop(vm, size).Extract();
      TargetCompletes(vm1, size, i.source, source, 2, value, false);
    }
  }

  lemma RetCompletes(vm: C.Vm, i: C.Instr, condition: R.Condition)
    requires R.ConditionFrom(i.condition) == Some(condition)
    ensures Completes(C.Ret(vm, i), R.ExecutePlain(OfVm(vm), R.Ret, condition), OfVm(vm), R.Plain(R.Ret, condition))
  {
    hide C.Pop, R.PopStack;
    SkipAgrees(vm, i.condition, condition);
    if R.PopStack(OfVm(vm), Word).Some? {
      PopCompletes(vm, Word);
    }
  }

  lemma RetiCompletes(vm: C.Vm, i: C.Instr, condition: R.Condition)
    requires R.ConditionFrom(i.condition) == Some(condition)
    ensures Completes(C.Reti(vm, i), R.ExecutePlain(OfVm(vm), R.Reti, condition), OfVm(vm), R.Plain(R.Reti, condition))
  {
    hide C.Pop, R.PopStack, C.FlagsSet, R.FlagFromByte, R.CheckCondition, C.ShouldSkip;
    SkipAgrees(vm, i.condition, condition);
    if R.PopStack(OfVm(vm), Byte).Some? {
      PopCompletes(vm, Byte);
      PopAgrees(vm, Byte);
      var (vm1, flags) := C.Pop(vm, Byte).Extract();
      FlagsAgree(vm1, flags);
      var vm2 := C.FlagsSet(vm1, flags);
      if R.PopStack(OfVm(vm2), Word).Some? {
        PopCompletes(vm2, Word);
      }
    }
  }

  lemma SwitchCompletes(vm: C.Vm, i: C.Instr, condition: R.Condition)
    requires R.ConditionFrom(i.condition) == Some(condition)
    ensures C.Halt(vm, i).Done? && C.SetInterrupt(vm, i, true).Done? && C.SetInterrupt(vm, i, false).Done?
  {
    SkipAgrees(vm, i.condition, condition);
  }

  // ----- ports

  lemma InParts(cpu: R.State, condition: R.Condition, destination: R.Operand, source: R.Operand, bus: Bus)
    requires R.CheckCondition(cpu, condition) && IsPlace(destination)
    requires R.ExecuteIn(cpu, condition, destination, source, bus).Some?
    ensures R.ReadSource(cpu, source).Some?
    ensures
      var (port, offset) := R.ReadSource(cpu, source).value;
      && offset == 2 + R.OperandWidth(source)
      && bus.read(cpu.io, port).Some?
      && Assignable(cpu, Word, destination, offset)
      && WriteAddress(cpu, R.In(condition, destination, source)) == R.Pointer(cpu, destination, offset)
  {
    hide R.CheckCondition, R.ReadSource, R.Read, R.Find, Store, Merge;
    ReadSourceWidth(cpu, source);
  }

  lemma InForm(vm: C.Vm, i: C.Instr, bus: Bus, vm1: C.Vm, port: u32)
    requires i.source < 4 && i.target < 4 && C.ShouldSkip(vm, i.condition) == C.Done(vm, false)
    requires C.Source(vm, Word, i.source, false) == C.Done(vm1, port) && bus.read(vm1.io, port).Some?
    ensures
      var value := bus.read(vm1.io, port).value;
      C.In(vm, i, bus)
      == C.Target(vm1.(io := vm1.io + [PortRead(port, value)]), Word, i.target, value, false)
  {
    hide C.Source, C.Target, C.ShouldSkip;
  }

  lemma InCompletes(
    vm: C.Vm, i: C.Instr, condition: R.Condition, destination: R.Operand, source: R.Operand, bus: Bus)
    requires Decoded(i, Word, condition, destination, source) && CursorAt(vm, 2)
    requires R.CheckCondition(OfVm(vm), condition)
    ensures
      Completes(
        C.In(vm, i, bus), R.ExecuteIn(OfVm(vm), condition, destination, source, bus),
        OfVm(vm), R.In(condition, destination, source))
  {
    hide C.Source, C.Target, C.In, R.ReadSource, R.CheckCondition, C.ShouldSkip, R.ExecuteIn, Assignable, R.Pointer;
    hide WriteAddress, R.OperandWidth;
    SkipAgrees(vm, i.condition, condition);
    var cpu := OfVm(vm);
    if R.ExecuteIn(cpu, condition, destination, source, bus).Some? {
      InParts(cpu, condition, destination, source, bus);
      var vm1, port := SourceDone(vm, i, Word, condition, destination, source);
      InForm(vm, i, bus, vm1, port);
      var value := bus.read(vm1.io, port).value;
      var logged := vm1.(io := vm1.io + [PortRead(port, value)]);
      TargetCompletes(logged, Word, i.target, destination, 2 + R.OperandWidth(source), value, false);
      AssignableAlike(cpu, OfVm(logged), Word, destination, 2 + R.OperandWidth(source));
    }
  }

  lemma OutParts(cpu: R.State, condition: R.Condition, destination: R.Operand, source: R.Operand, bus: Bus)
    requires R.CheckCondition(cpu, condition) && IsPlace(destination)
    requires R.ExecuteOut(cpu, condition, destination, source, bus).Some?
    ensures R.ReadSource(cpu, source).Some?
    ensures
      var (value, offset) := R.ReadSource(cpu, source).value;
      && offset == 2 + R.OperandWidth(source)
      && var port := Destination(cpu, Word, destination, offset);
      port.Some? && bus.write(cpu.io, port.value, value)
  {
    hide R.CheckCondition, R.ReadSource, R.Read;
    ReadSourceWidth(cpu, source);
  }

  lemma OutCompletes(
    vm: C.Vm, i: C.Instr, condition: R.Condition, destination: R.Operand, source: R.Operand, bus: Bus)
    requires Decoded(i, Word, condition, destination, source) && CursorAt(vm, 2)
    ensures
      Completes(
        C.Out(vm, i, bus), R.ExecuteOut(OfVm(vm), condition, destination, source, bus),
        OfVm(vm), R.Out(condition, destination, source))
  {
    hide C.Source, R.ReadSource, R.CheckCondition, C.ShouldSkip, C.SkipParams, Destination, R.ExecuteOut;
    SkipAgrees(vm, i.condition, condition);
    var cpu := OfVm(vm);
    if R.CheckCondition(cpu, condition) && R.ExecuteOut(cpu, condition, destination, source, bus).Some? {
      OutParts(cpu, condition, destination, source, bus);
      var vm1, value := SourceDone(vm, i, Word, condition, destination, source);
      DestinationCompletes(vm1, Word, i.target, destination, 2 + R.OperandWidth(source), false);
      DestinationAgrees(vm1, Word, i.target, destination, 2 + R.OperandWidth(source), false);
    }
  }

  // ----- whole instructions

  /** The same for a dispatched instruction, whose size may be one C does not know. */
  ghost predicate DispatchCompletes(
    o: C.Outcome<()>, r: Option<(R.State, u32)>, cpu: R.State, instruction: R.Instruction, size: Size)
  {
    r.Some? ==> (o.Done? <==> (WordOnly(instruction) ==> size.Word?) && !WritesRom(cpu, instruction))
  }

  /** ADD, SUB and MUL, as dispatched. */
  lemma CarryOpsComplete(
    vm: C.Vm, i: C.Instr, size: Size, condition: R.Condition, destination: R.Operand, source: R.Operand,
    instruction: R.Instruction, bus: Bus)
    requires Decoded(i, size, condition, destination, source) && CursorAt(vm, 2)
    requires R.InstructionFrom(i.opcode % 64, size, condition, destination, source) == Some(instruction)
    requires i.opcode % 64 in {0x01, 0x21, 0x02}
    ensures !WordOnly(instruction)
    ensures
      Completes(
        C.DispatchSized(vm, i, size), R.ExecuteInstruction(OfVm(vm), instruction, bus), OfVm(vm), instruction)
  {
    hide Decoded, C.Halt, C.Brk, C.PopTo, C.PushFrom, C.Mov, C.Not, C.Inc, C.Add, C.And, C.Cmp, C.Bts, OfVm, CursorAt;
    hide R.ExecutePlain, R.ExecuteOne, R.ExecuteTwo, R.ExecuteMov, R.ExecuteMovz, R.ExecutePush, R.ExecutePop;
    hide R.ExecuteIn, R.ExecuteOut, R.ExecuteJump, R.ExecuteRta, WriteAddress;
    var op := i.opcode % 64;
    if op == 0x01 {
      AddCompletes(vm, i, size, C.AddOp, R.Add, condition, destination, source);
    } else if op == 0x21 {
      AddCompletes(vm, i, size, C.SubOp, R.Sub, condition, destination, source);
    } else {
      AddCompletes(vm, i, size, C.MulOp, R.Mul, condition, destination, source);
    }
  }

  /** DIV, REM, AND, OR and XOR, as dispatched. */
  lemma ZeroOpsComplete(
    vm: C.Vm, i: C.Instr, size: Size, condition: R.Condition, destination: R.Operand, source: R.Operand,
    instruction: R.Instruction, bus: Bus)
    requires Decoded(i, size, condition, destination, source) && CursorAt(vm, 2)
    requires R.InstructionFrom(i.opcode % 64, size, condition, destination, source) == Some(instruction)
    requires i.opcode % 64 in {0x22, 0x32, 0x03, 0x23, 0x13}
    ensures !WordOnly(instruction)
    ensures
      Completes(
        C.DispatchSized(vm, i, size), R.ExecuteInstruction(OfVm(vm), instruction, bus), OfVm(vm), instruction)
  {
    hide Decoded, C.Halt, C.Brk, C.PopTo, C.PushFrom, C.Mov, C.Not, C.Inc, C.Add, C.And, C.Cmp, C.Bts, OfVm, CursorAt;
    hide R.ExecutePlain, R.ExecuteOne, R.ExecuteTwo, R.ExecuteMov, R.ExecuteMovz, R.ExecutePush, R.ExecutePop;
    hide R.ExecuteIn, R.ExecuteOut, R.ExecuteJump, R.ExecuteRta, WriteAddress;
    var op := i.opcode % 64;
    if op == 0x22 {
      AndCompletes(vm, i, size, C.DivOp, R.Div, condition, destination, source);
    } else if op == 0x32 {
      AndCompletes(vm, i, size, C.RemOp, R.Rem, condition, destination, source);
    } else if op == 0x03 {
      AndCompletes(vm, i, size, C.AndOp, R.And, condition, destination, source);
    } else if op == 0x23 {
      AndCompletes(vm, i, size, C.XorOp, R.Xor, condition, destination, source);
    } else {
      AndCompletes(vm, i, size, C.OrOp, R.Or, condition, destination, source);
    }
  }

  /** CMP, BTS, NOT, INC and DEC, as dispatched. */
  lemma TestsDispatched(
    vm: C.Vm, i: C.Instr, size: Size, condition: R.Condition, destination: R.Operand, source: R.Operand,
    instruction: R.Instruction, bus: Bus)
    requires Decoded(i, size, condition, destination, source) && CursorAt(vm, 2)
    requires R.InstructionFrom(i.opcode % 64, size, condition, destination, source) == Some(instruction)
    requires Covered(OfVm(vm), instruction)
    requires i.opcode % 64 in {0x07, 0x26, 0x33, 0x11, 0x31}
    ensures !WordOnly(instruction)
    ensures
      Completes(
        C.DispatchSized(vm, i, size), R.ExecuteInstruction(OfVm(vm), instruction, bus), OfVm(vm), instruction)
  {
    hide Decoded, C.Halt, C.Brk, C.PopTo, C.PushFrom, C.Mov, C.Not, C.Inc, C.Add, C.And, C.Cmp, C.Bts, OfVm, CursorAt;
    hide R.ExecutePlain, R.ExecuteOne, R.ExecuteTwo, R.ExecuteMov, R.ExecuteMovz, R.ExecutePush, R.ExecutePop;
    hide R.ExecuteIn, R.ExecuteOut, R.ExecuteJump, R.ExecuteRta, R.CheckCondition, R.ReadSource, Names, WriteAddress;
    var op := i.opcode % 64;
    if op == 0x07 {
      TestsComplete(vm, i, size, R.Cmp, condition, destination, source);
    } else if op == 0x26 {
      TestsComplete(vm, i, size, R.Bts, condition, destination, source);
    } else if op == 0x33 {
      NotCompletes(vm, i, size, condition, destination, source);
    } else if op == 0x11 {
      IncCompletes(vm, i, size, C.AddOp, R.Inc, condition, destination, source);
    } else {
      IncCompletes(vm, i, size, C.SubOp, R.Dec, condition, destination, source);
    }
  }

  lemma NoWrite(cpu: R.State, condition: R.Condition)
    ensures !WritesRom(cpu, R.Nop) && forall op :: !WritesRom(cpu, R.Plain(op, condition))
  {
  }

  /** NOP, HALT, PUSH, POP, MOV and MOVZ, as dispatched. */
  lemma MovesComplete(
    vm: C.Vm, i: C.Instr, size: Size, condition: R.Condition, destination: R.Operand, source: R.Operand,
    instruction: R.Instruction, bus: Bus)
    requires Decoded(i, size, condition, destination, source) && CursorAt(vm, 2)
    requires R.InstructionFrom(i.opcode % 64, size, condition, destination, source) == Some(instruction)
    requires Covered(OfVm(vm), instruction)
    requires i.opcode % 64 in {0x00, 0x10, 0x1A, 0x0A, 0x17, 0x27}
    ensures !WordOnly(instruction)
    ensures
      Completes(
        C.DispatchSized(vm, i, size), R.ExecuteInstruction(OfVm(vm), instruction, bus), OfVm(vm), instruction)
  {
    hide Decoded, C.Halt, C.Brk, C.PopTo, C.PushFrom, C.Mov, C.Not, C.Inc, C.Add, C.And, C.Cmp, C.Bts, OfVm, CursorAt;
    hide R.ExecutePlain, R.ExecuteOne, R.ExecuteTwo, R.ExecuteMov, R.ExecuteMovz, R.ExecutePush, R.ExecutePop;
    hide R.ExecuteIn, R.ExecuteOut, R.ExecuteJump, R.ExecuteRta, R.CheckCondition, R.ReadSource, Names, WriteAddress;
    var op := i.opcode % 64;
    NoWrite(OfVm(vm), condition);
    if op == 0x10 {
      DecodedCondition(i, size, condition, destination, source);
      SwitchCompletes(vm, i, condition);
    } else if op == 0x1A {
      PopToCompletes(vm, i, size, condition, destination, source);
    } else if op == 0x0A {
      PushFromCompletes(vm, i, size, condition, destination, source);
    } else if op != 0x00 {
      MovCompletes(vm, i, size, condition, destination, source);
    }
  }

  /** IN, OUT, RTA, RET, RETI, ISE and ICL, as dispatched. */
  lemma PortsComplete(
    vm: C.Vm, i: C.Instr, condition: R.Condition, destination: R.Operand, source: R.Operand,
    instruction: R.Instruction, bus: Bus)
    requires Decoded(i, Word, condition, destination, source) && CursorAt(vm, 2) && C.SizeOf(i.size) == Some(Word)
    requires R.InstructionFrom(i.opcode % 64, Word, condition, destination, source) == Some(instruction)
    requires Covered(OfVm(vm), instruction)
    requires i.opcode % 64 in {0x0B, 0x1B, 0x39, 0x2A, 0x3A, 0x0C, 0x1C}
    ensures
      Completes(
        C.Dispatch(vm, i, vm.pointerInstr, bus), R.ExecuteInstruction(OfVm(vm), instruction, bus),
        OfVm(vm), instruction)
  {
    hide Decoded, OfVm, CursorAt, C.In, C.Out, C.Rta, C.Ret, C.Reti, C.SetInterrupt, C.Jmp, C.Call, C.Loop;
    hide C.DispatchSized;
    hide R.ExecutePlain, R.ExecuteIn, R.ExecuteOut, R.ExecuteJump, R.ExecuteRta, R.CheckCondition, R.ReadSource, Names;
    hide WriteAddress;
    DecodedCondition(i, Word, condition, destination, source);
    NoWrite(OfVm(vm), condition);
    var op := i.opcode % 64;
    if op == 0x0B {
      InCompletes(vm, i, condition, destination, source, bus);
    } else if op == 0x1B {
      OutCompletes(vm, i, condition, destination, source, bus);
    } else if op == 0x39 {
      RtaCompletes(vm, i, condition, destination, source);
    } else if op == 0x2A {
      RetCompletes(vm, i, condition);
    } else if op == 0x3A {
      RetiCompletes(vm, i, condition);
    } else {
      SwitchCompletes(vm, i, condition);
    }
  }

  /** JMP, CALL, LOOP and their relative forms, as dispatched. */
  lemma JumpsComplete(
    vm: C.Vm, i: C.Instr, condition: R.Condition, destination: R.Operand, source: R.Operand,
    instruction: R.Instruction, bus: Bus)
    requires Decoded(i, Word, condition, destination, source) && CursorAt(vm, 2) && C.SizeOf(i.size) == Some(Word)
    requires R.InstructionFrom(i.opcode % 64, Word, condition, destination, source) == Some(instruction)
    requires Covered(OfVm(vm), instruction)
    requires i.opcode % 64 in {0x08, 0x18, 0x28, 0x09, 0x19, 0x29}
    ensures
      Completes(
        C.Dispatch(vm, i, vm.pointerInstr, bus), R.ExecuteInstruction(OfVm(vm), instruction, bus),
        OfVm(vm), instruction)
  {
    hide Decoded, OfVm, CursorAt, C.In, C.Out, C.Rta, C.Ret, C.Reti, C.SetInterrupt, C.Jmp, C.Call, C.Loop;
    hide C.DispatchSized;
    hide R.ExecutePlain, R.ExecuteIn, R.ExecuteOut, R.ExecuteJump, R.ExecuteRta, R.CheckCondition, R.ReadSource, Names;
    hide WriteAddress;
    var op := i.opcode % 64;
    var base := vm.pointerInstr;
    if op == 0x08 {
      JmpCompletes(vm, i, 0, R.Jmp, condition, destination, source);
    } else if op == 0x18 {
      CallCompletes(vm, i, 0, R.Call, condition, destination, source);
    } else if op == 0x28 {
      LoopCompletes(vm, i, 0, R.Loop, condition, destination, source);
    } else if op == 0x09 {
      JmpCompletes(vm, i, base, R.Rjmp, condition, destination, source);
    } else if op == 0x19 {
      CallCompletes(vm, i, base, R.Rcall, condition, destination, source);
    } else {
      LoopCompletes(vm, i, base, R.Rloop, condition, destination, source);
    }
  }

  /** Instructions with one behaviour per size; the others C does not know. */
  lemma SizedCompletes(
    vm: C.Vm, i: C.Instr, size: Size, condition: R.Condition, destination: R.Operand, source: R.Operand,
    instruction: R.Instruction, bus: Bus)
    requires Decoded(i, size, condition, destination, source) && CursorAt(vm, 2)
    requires R.InstructionFrom(i.opcode % 64, size, condition, destination, source) == Some(instruction)
    requires Covered(OfVm(vm), instruction)
    ensures
      WordOnly(instruction)
      <==>
      || i.opcode % 64 in {0x0B, 0x1B, 0x39, 0x2A, 0x3A, 0x0C, 0x1C}
      || i.opcode % 64 in {0x08, 0x18, 0x28, 0x09, 0x19, 0x29}
    ensures WordOnly(instruction) ==> !C.DispatchSized(vm, i, size).Done?
    ensures !WordOnly(instruction) ==>
      Completes(C.DispatchSized(vm, i, size), R.ExecuteInstruction(OfVm(vm), instruction, bus), OfVm(vm), instruction)
  {
    hide Decoded, OfVm, CursorAt, Covered, C.DispatchSized, R.ExecuteInstruction, R.InstructionFrom, Completes;
    var op := i.opcode % 64;
    if op in {0x01, 0x21, 0x02} {
      CarryOpsComplete(vm, i, size, condition, destination, source, instruction, bus);
    } else if op in {0x22, 0x32, 0x03, 0x23, 0x13} {
      ZeroOpsComplete(vm, i, size, condition, destination, source, instruction, bus);
    } else if op in {0x07, 0x26, 0x33, 0x11, 0x31} {
      TestsDispatched(vm, i, size, condition, destination, source, instruction, bus);
    } else if op in {0x00, 0x10, 0x1A, 0x0A, 0x17, 0x27} {
      MovesComplete(vm, i, size, condition, destination, source, instruction, bus);
    } else if op in {0x04, 0x24, 0x05, 0x15, 0x25, 0x06, 0x16, 0x20} {
      UncoveredOpcode(op, OfVm(vm), size, condition, destination, source);
    } else {
      if op !in {0x0B, 0x1B, 0x39, 0x2A, 0x3A, 0x0C, 0x1C} && op !in {0x08, 0x18, 0x28, 0x09, 0x19, 0x29} {
        OtherOpcode(op, size, condition, destination, source);
      }
      DecodedFields(i, size, condition, destination, source);
      WordOpcodePanics(vm, i, size);
      WordOpcode(op, size, condition, destination, source);
    }
  }

  lemma WordOpcode(op: nat, size: Size, condition: R.Condition, destination: R.Operand, source: R.Operand)
    requires op in {0x0B, 0x1B, 0x39, 0x2A, 0x3A, 0x0C, 0x1C} || op in {0x08, 0x18, 0x28, 0x09, 0x19, 0x29}
    ensures
      var instruction := R.InstructionFrom(op, size, condition, destination, source);
      instruction.Some? && WordOnly(instruction.value)
  {
  }

  lemma DispatchFollows(
    vm: C.Vm, i: C.Instr, size: Size, condition: R.Condition, destination: R.Operand, source: R.Operand,
    instruction: R.Instruction, bus: Bus)
    requires Decoded(i, size, condition, destination, source) && CursorAt(vm, 2) && C.SizeOf(i.size) == Some(size)
    requires R.InstructionFrom(i.opcode % 64, size, condition, destination, source) == Some(instruction)
    requires Covered(OfVm(vm), instruction)
    ensures i.source < 4 && i.target < 4
    ensures
      DispatchCompletes(
        C.Dispatch(vm, i, vm.pointerInstr, bus), R.ExecuteInstruction(OfVm(vm), instruction, bus),
        OfVm(vm), instruction, size)
  {
    hide Decoded, OfVm, CursorAt, Covered, C.DispatchSized, R.ExecuteInstruction, R.InstructionFrom, C.Dispatch;
    hide WritesRom, WordOnly;
    DecodedFields(i, size, condition, destination, source);
    SizedCompletes(vm, i, size, condition, destination, source, instruction, bus);
    DispatchSizes(vm, i, size, bus);
    var op := i.opcode % 64;
    if size.Word? && op in {0x0B, 0x1B, 0x39, 0x2A, 0x3A, 0x0C, 0x1C} {
      PortsComplete(vm, i, condition, destination, source, instruction, bus);
    } else if size.Word? && op in {0x08, 0x18, 0x28, 0x09, 0x19, 0x29} {
      JumpsComplete(vm, i, condition, destination, source, instruction, bus);
    }
  }

  lemma DispatchSizes(vm: C.Vm, i: C.Instr, size: Size, bus: Bus)
    requires i.source < 4 && i.target < 4 && C.SizeOf(i.size) == Some(size)
    ensures
      var op := i.opcode % 64;
      || !size.Word?
      || (op !in {0x0B, 0x1B, 0x39, 0x2A, 0x3A, 0x0C, 0x1C} && op !in {0x08, 0x18, 0x28, 0x09, 0x19, 0x29})
      ==>
        C.Dispatch(vm, i, vm.pointerInstr, bus) == C.DispatchSized(vm, i, size)
  {
    hide C.DispatchSized, C.In, C.Out, C.Rta, C.Ret, C.Reti, C.SetInterrupt, C.Jmp, C.Call, C.Loop;
  }

  // ----- steps and runs

  /** The size the next instruction is encoded with. */
  function NextSize(cpu: R.State): Option<Size> {
    var half :- R.Read(cpu, Half, cpu.instructionPointer);
    R.SizeFrom(half / 0x4000 % 4)
  }

  /** The C interpreter knows the next instruction in its size, and it writes no ROM. */
  predicate CoreFollows(cpu: R.State) {
    && Next(cpu).Some?
    && (WordOnly(Next(cpu).value) ==> NextSize(cpu) == Some(Word))
    && !WritesRom(cpu, Next(cpu).value)
  }

  /** A covered step the Rust interpreter completes is completed by the C interpreter if
      and only if it writes no ROM and its size is one the C interpreter knows. */
  lemma StepCompletes(vm: C.Vm, bus: Bus)
    requires R.ExecuteMemoryInstruction(OfVm(vm), bus).Some?
    requires Covered(OfVm(vm), Next(OfVm(vm)).value)
    ensures C.Execute(vm, bus).Done? <==> CoreFollows(OfVm(vm))
  {
    hide R.ExecuteMemoryInstruction, C.Dispatch, R.ExecuteInstruction, Covered, R.FromHalf, C.InstrFrom;
    hide R.InstructionFrom;
    hide Decoded, WritesRom, WordOnly, C.Read, R.Read, C.SizeOf, Load;
    CpuStepForm(OfVm(vm), bus);
    ReadAgrees(vm, Half, vm.pointerInstr);
    var half := R.Read(OfVm(vm), Half, vm.pointerInstr).value;
    var started := vm.(pointerInstrMut := Add32(vm.pointerInstr, 2));
    var size, condition, destination, source := DecodingAgrees(half);
    SizeIs(half, size);
    DispatchFollows(started, C.InstrFrom(half), size, condition, destination, source, R.FromHalf(half).value, bus);
    FetchIs(vm, half);
  }

  lemma FetchIs(vm: C.Vm, half: u16)
    requires C.Read(vm, Half, vm.pointerInstr).Done? && C.Read(vm, Half, vm.pointerInstr).value == half
    ensures C.Read(vm, Half, vm.pointerInstr) == C.Done(vm, half)
  {
  }

  lemma SizeIs(half: u16, size: Size)
    requires C.SizeOf(C.InstrFrom(half).size) == Some(size)
    ensures R.SizeFrom(half / 0x4000 % 4) == Some(size)
  {
    assert half / 0x4000 == half / 0x4000 % 4;
  }

  /** Every step of the run is one the C interpreter follows. */
  predicate FollowedRun(cpu: R.State, n: nat, bus: Bus)
    decreases n
  {
    n == 0 || cpu.halted ||
    (CoreFollows(cpu) &&
     var cpu' := R.ExecuteMemoryInstruction(cpu, bus);
     cpu'.Some? ==> FollowedRun(cpu'.value, n - 1, bus))
  }

  /** A covered run the Rust interpreter completes is completed by the C interpreter, with
      the same end state, if and only if no step of it writes ROM or is encoded in a size
      the C interpreter does not know. */
  lemma {:induction false} RunsFollow(vm: C.Vm, n: nat, bus: Bus)
    requires CpuRun(OfVm(vm), n, bus).Some? && CoveredRun(OfVm(vm), n, bus)
    ensures CoreRun(vm, n, bus).Some? <==> FollowedRun(OfVm(vm), n, bus)
    ensures FollowedRun(OfVm(vm), n, bus) ==> CpuRun(OfVm(vm), n, bus) == Some(OfVm(CoreRun(vm, n, bus).value))
    decreases n
  {
    hide C.Execute, R.ExecuteMemoryInstruction, Covered, Next, CoreFollows;
    if n != 0 && !vm.halted {
      StepCompletes(vm, bus);
      if C.Execute(vm, bus).Done? {
        StepAgrees(vm, bus);
        RunsFollow(C.Execute(vm, bus).vm, n - 1, bus);
      }
    }
  }

  // ----- a step only one side completes

  /** A machine about to push r0 with its stack pointer one word into ROM. */
  function PushAtRom(vm: C.Vm): C.Vm {
    vm.(pointerInstr := 0, pointerStack := ROM_START + 4, ram := vm.ram[0 := 0][1 := 0x8A][2 := 0])
  }

  lemma PushAtRomReads(vm: C.Vm)
    ensures
      var cpu := OfVm(PushAtRom(vm));
      && R.Read(cpu, Half, 0) == Some(0x8A00)
      && R.Read(cpu, Byte, R.At(cpu, 2)) == Some(0)
  {
  }

  lemma PushDecodes()
    ensures R.FromHalf(0x8A00) == Some(R.Push(Word, R.Always, R.Register))
  {
    assert 0x8A00 / 0x4000 % 4 == 2 && 0x8A00 / 4 % 4 == 0 && 0x8A00 / 0x10 % 0x10 == 0;
    assert 0x8A00 / 0x100 % 0x40 == 0x0A;
  }

  /** The Rust interpreter completes that step, and the C interpreter does not. */
  lemma OnlyRustPushesIntoRom(vm: C.Vm, bus: Bus)
    ensures
      var at := PushAtRom(vm);
      && R.ExecuteMemoryInstruction(OfVm(at), bus).Some?
      && !C.Execute(at, bus).Done?
  {
    hide R.Read, R.FromHalf, C.Execute, Store;
    var at := PushAtRom(vm);
    PushAtRomReads(vm);
    PushDecodes();
    PushStackIntoRom(OfVm(at), vm.registers[0]);
    StepCompletes(at, bus);
  }

  lemma PushStackIntoRom(cpu: R.State, value: u32)
    requires cpu.stackPointer == ROM_START + 4
    ensures R.PushStack(cpu, Word, value).Some?
  {
  }
}
