/** The C and the Rust interpreter stay in lock step.

    Both are selectable as the machine's runtime.  A C state and a Rust state are
    the same when they agree on everything the program can see; the C scratch
    cursor pointer_instr_mut has no Rust counterpart. */
module Lockstep {
  import opened Words
  import opened Arithmetic
  import opened Memory
  import C = Core
  import R = Cpu

  function OfVm(vm: C.Vm): R.State {
    R.State(
      vm.pointerInstr, vm.pointerStack, vm.registers,
      R.Flag(vm.flagInterrupt, vm.flagCarry, vm.flagZero),
      vm.halted, vm.ram, vm.rom, vm.io)
  }

  /** The cursor stands `offset` bytes into the current instruction. */
  predicate CursorAt(vm: C.Vm, offset: u32) {
    vm.pointerInstrMut == Add32(vm.pointerInstr, offset)
  }

  // ----- memory

  lemma PlacesAgree(address: u32, size: Size)
    ensures C.FindMemory(address, size, false) == R.Find(address, size)
    ensures C.FindMemory(address, size, true).Some? ==> C.FindMemory(address, size, true) == R.Find(address, size)
  {
  }

  lemma ReadAgrees(vm: C.Vm, size: Size, address: u32)
    ensures C.Read(vm, size, address).Done? <==> R.Read(OfVm(vm), size, address).Some?
    ensures C.Read(vm, size, address).Done? ==> C.Read(vm, size, address).value == R.Read(OfVm(vm), size, address).value
  {
    hide Load;
    PlacesAgree(address, size);
  }

  lemma WriteAgrees(vm: C.Vm, size: Size, address: u32, value: u32)
    requires C.Write(vm, size, address, value).Done?
    ensures R.Write(OfVm(vm), size, address, value) == Some(OfVm(C.Write(vm, size, address, value).vm))
    ensures C.Write(vm, size, address, value).vm.pointerInstrMut == vm.pointerInstrMut
  {
    hide Store;
    PlacesAgree(address, size);
  }

  /** A narrow read gives the low part of a word read at the same address. */
  lemma NarrowRead(cpu: R.State, size: Size, address: u32)
    requires R.Read(cpu, Word, address).Some?
    ensures R.Read(cpu, size, address) == Some(Trunc(size, R.Read(cpu, Word, address).value))
  {
    hide Load, Trunc;
    var place := R.Find(address, Word).value;
    assert R.Find(address, size) == Some(place);
    match place
    case InRam(offset) => NarrowLoad(size, cpu.ram, offset);
    case InRom(offset) => NarrowLoad(size, cpu.rom, offset);
  }

  lemma NarrowLoad(size: Size, bytes: seq<u8>, at: nat)
    requires at + 4 <= |bytes|
    ensures Load(size, bytes, at) == Trunc(size, Load(Word, bytes, at))
  {
    JoinBytes(bytes[at], bytes[at + 1], bytes[at + 2], bytes[at + 3]);
    var w := Load(Word, bytes, at);
    assert w % 0x1_0000 == w % 0x100 + 0x100 * (w / 0x100 % 0x100);
  }

  lemma PushAgrees(vm: C.Vm, size: Size, value: u32)
    requires C.Push(vm, size, value).Done?
    ensures R.PushStack(OfVm(vm), size, value) == Some(OfVm(C.Push(vm, size, value).vm))
    ensures C.Push(vm, size, value).vm.pointerInstrMut == vm.pointerInstrMut
  {
    hide C.Write, R.Write;
    var sp := Sub32(vm.pointerStack, Bytes(size));
    WriteAgrees(vm.(pointerStack := sp), size, sp, value);
  }

  lemma PopAgrees(vm: C.Vm, size: Size)
    requires C.Pop(vm, size).Done?
    ensures R.PopStack(OfVm(vm), size) == Some((OfVm(C.Pop(vm, size).vm), C.Pop(vm, size).value))
    ensures C.Pop(vm, size).vm == vm.(pointerStack := Add32(vm.pointerStack, Bytes(size)))
  {
    ReadAgrees(vm, size, vm.pointerStack);
  }

  // ----- operands

  /** A C operand type and the Rust operand it is decoded to. */
  predicate Corresponds(prtype: u8, size: Size, operand: R.Operand) {
    prtype < 4 && R.SourceFrom(prtype, size) == Some(operand)
  }

  ghost predicate SourceMatches(vm: C.Vm, size: Size, prtype: u8, operand: R.Operand)
    requires prtype < 4
  {
    var o, s := C.Source(vm, size, prtype, false), R.ReadSource(OfVm(vm), operand);
    o.Done? && s.Some? ==>
      && o.value == Trunc(size, s.value.0)
      && s.value.1 == 2 + R.OperandWidth(operand)
      && o.vm == vm.(pointerInstrMut := Add32(vm.pointerInstrMut, R.OperandWidth(operand)))
  }

  lemma RegisterSourceAgrees(vm: C.Vm, size: Size)
    requires CursorAt(vm, 2)
    ensures SourceMatches(vm, size, C.TY_REG, R.Register)
  {
    hide C.Read, R.Read;
    ReadAgrees(C.Advance(vm, 1), Byte, vm.pointerInstrMut);
  }

  lemma RegisterPtrSourceAgrees(vm: C.Vm, size: Size)
    requires CursorAt(vm, 2)
    ensures SourceMatches(vm, size, C.TY_REGPTR, R.RegisterPtr)
  {
    hide C.Read, R.Read;
    var cpu := OfVm(vm);
    ReadAgrees(C.Advance(vm, 1), Byte, vm.pointerInstrMut);
    if R.ReadSource(cpu, R.RegisterPtr).Some? {
      var register := R.Read(cpu, Byte, vm.pointerInstrMut).value;
      var pointer := R.ReadRegister(cpu, register).value;
      NarrowRead(cpu, size, pointer);
      ReadAgrees(C.Advance(vm, 1), size, pointer);
    }
  }

  lemma ImmediateSourceAgrees(vm: C.Vm, size: Size)
    requires CursorAt(vm, 2)
    ensures SourceMatches(vm, size, C.TY_IMM, R.Immediate(size))
  {
    hide C.Read, R.Read;
    ReadAgrees(C.Advance(vm, Bytes(size)), size, vm.pointerInstrMut);
  }

  lemma ImmediatePtrSourceAgrees(vm: C.Vm, size: Size)
    requires CursorAt(vm, 2)
    ensures SourceMatches(vm, size, C.TY_IMMPTR, R.ImmediatePtr(size))
  {
    hide C.Read, R.Read;
    var moved := C.Advance(vm, 4);
    ReadAgrees(moved, Word, vm.pointerInstrMut);
    var pointer := C.Read(moved, Word, vm.pointerInstrMut);
    if pointer.Done? {
      ReadAgrees(moved, size, pointer.value);
    }
  }

  /** A source operand has the same value in both, cut to the operand size. */
  lemma SourceAgrees(vm: C.Vm, size: Size, prtype: u8, operand: R.Operand)
    requires Corresponds(prtype, size, operand) && CursorAt(vm, 2)
    ensures SourceMatches(vm, size, prtype, operand)
  {
    hide C.Source, R.ReadSource;
    match operand
    case Register => RegisterSourceAgrees(vm, size);
    case RegisterPtr => RegisterPtrSourceAgrees(vm, size);
    case ImmediatePtr(_) => ImmediatePtrSourceAgrees(vm, size);
    case _ => ImmediateSourceAgrees(vm, size);
  }

  /** What the Rust interpreter reads from a destination before changing it. */
  function Destination(cpu: R.State, size: Size, operand: R.Operand, offset: u32): Option<u32> {
    if operand.Register? then
      var register :- R.Read(cpu, Byte, R.At(cpu, offset));
      var whole :- R.ReadRegister(cpu, register);
      Some(Trunc(size, whole))
    else
      var pointer :- R.Pointer(cpu, operand, offset);
      R.Read(cpu, size, pointer)
  }

  predicate IsPlace(operand: R.Operand) {
    operand.Register? || operand.RegisterPtr? || operand.ImmediatePtr?
  }

  ghost predicate DestinationMatches(
    vm: C.Vm, size: Size, prtype: u8, operand: R.Operand, offset: u32, stay: bool)
    requires prtype < 4
  {
    var o := C.Source(vm, size, prtype, stay);
    o.Done? ==>
      && Destination(OfVm(vm), size, operand, offset) == Some(o.value)
      && o.vm == if stay then vm else C.Advance(vm, R.OperandWidth(operand))
  }

  lemma RegisterDestinationAgrees(vm: C.Vm, size: Size, offset: u32, stay: bool)
    requires CursorAt(vm, offset)
    ensures DestinationMatches(vm, size, C.TY_REG, R.Register, offset, stay)
  {
    hide C.Read, R.Read;
    ReadAgrees(if stay then vm else C.Advance(vm, 1), Byte, vm.pointerInstrMut);
  }

  lemma RegisterPtrDestinationAgrees(vm: C.Vm, size: Size, offset: u32, stay: bool)
    requires CursorAt(vm, offset)
    ensures DestinationMatches(vm, size, C.TY_REGPTR, R.RegisterPtr, offset, stay)
  {
    hide C.Read, R.Read;
    var moved := if stay then vm else C.Advance(vm, 1);
    ReadAgrees(moved, Byte, vm.pointerInstrMut);
    var local := C.Read(moved, Byte, vm.pointerInstrMut);
    if local.Done? && local.value <= 32 {
      ReadAgrees(moved, size, R.ReadRegister(OfVm(vm), local.value).value);
    }
  }

  lemma ImmediatePtrDestinationAgrees(vm: C.Vm, size: Size, offset: u32, stay: bool)
    requires CursorAt(vm, offset)
    ensures DestinationMatches(vm, size, C.TY_IMMPTR, R.ImmediatePtr(size), offset, stay)
  {
    hide C.Read, R.Read;
    var moved := if stay then vm else C.Advance(vm, 4);
    ReadAgrees(moved, Word, vm.pointerInstrMut);
    var pointer := C.Read(moved, Word, vm.pointerInstrMut);
    if pointer.Done? {
      ReadAgrees(moved, size, pointer.value);
    }
  }

  /** Both read the same value from a destination operand. */
  lemma DestinationAgrees(vm: C.Vm, size: Size, prtype: u8, operand: R.Operand, offset: u32, stay: bool)
    requires Corresponds(prtype, size, operand) && IsPlace(operand) && CursorAt(vm, offset)
    ensures DestinationMatches(vm, size, prtype, operand, offset, stay)
  {
    hide C.Source, Destination;
    match operand
    case Register => RegisterDestinationAgrees(vm, size, offset, stay);
    case RegisterPtr => RegisterPtrDestinationAgrees(vm, size, offset, stay);
    case ImmediatePtr(_) => ImmediatePtrDestinationAgrees(vm, size, offset, stay);
  }

  /** The Rust way of writing a destination. */
  function Assign(cpu: R.State, size: Size, operand: R.Operand, offset: u32, value: u32, zero: bool): Option<R.State>
    requires value < Modulus(size)
  {
    if operand.Register? then
      var register :- R.Read(cpu, Byte, R.At(cpu, offset));
      if zero then R.WriteRegister(cpu, register, value) else R.MergeRegister(cpu, size, register, value)
    else
      var pointer :- R.Pointer(cpu, operand, offset);
      R.Write(cpu, size, pointer, value)
  }

  ghost predicate TargetMatches(
    vm: C.Vm, size: Size, prtype: u8, operand: R.Operand, offset: u32, value: u32, zero: bool)
    requires prtype < 4 && value < Modulus(size)
  {
    var o := C.Target(vm, size, prtype, value, zero);
    o.Done? ==>
      && Assign(OfVm(vm), size, operand, offset, value, zero) == Some(OfVm(o.vm))
      && o.vm.pointerInstrMut == Add32(vm.pointerInstrMut, R.OperandWidth(operand))
  }

  lemma SetLocalAgrees(vm: C.Vm, local: u8, value: u32)
    requires local <= 32
    ensures R.WriteRegister(OfVm(vm), local, value) == Some(OfVm(C.SetLocal(vm, local, value)))
  {
  }

  lemma MergeAgrees(vm: C.Vm, size: Size, local: u8, value: u32)
    requires local <= 32 && value < Modulus(size)
    ensures
      R.MergeRegister(OfVm(vm), size, local, value)
      == Some(OfVm(C.SetLocal(vm, local, Merge(size, C.GetLocal(vm, local).value, value))))
  {
    SetLocalAgrees(vm, local, Merge(size, C.GetLocal(vm, local).value, value));
  }

  lemma RegisterTargetAgrees(vm: C.Vm, size: Size, offset: u32, value: u32, zero: bool)
    requires CursorAt(vm, offset) && value < Modulus(size)
    ensures TargetMatches(vm, size, C.TY_REG, R.Register, offset, value, zero)
  {
    hide C.Read, R.Read, C.Write, R.Write;
    var moved := C.Advance(vm, 1);
    ReadAgrees(moved, Byte, vm.pointerInstrMut);
    if C.Target(vm, size, C.TY_REG, value, zero).Done? {
      var local := C.Read(moved, Byte, vm.pointerInstrMut).value;
      if zero {
        SetLocalAgrees(moved, local, value);
      } else {
        MergeAgrees(moved, size, local, value);
      }
    }
  }

  lemma RegisterPtrTargetAgrees(vm: C.Vm, size: Size, offset: u32, value: u32, zero: bool)
    requires CursorAt(vm, offset) && value < Modulus(size)
    ensures TargetMatches(vm, size, C.TY_REGPTR, R.RegisterPtr, offset, value, zero)
  {
    hide C.Read, R.Read, C.Write, R.Write;
    var moved := C.Advance(vm, 1);
    ReadAgrees(moved, Byte, vm.pointerInstrMut);
    if C.Target(vm, size, C.TY_REGPTR, value, zero).Done? {
      var local := C.Read(moved, Byte, vm.pointerInstrMut).value;
      WriteAgrees(moved, size, C.GetLocal(moved, local).value, value);
    }
  }

  lemma ImmediatePtrTargetAgrees(vm: C.Vm, size: Size, offset: u32, value: u32, zero: bool)
    requires CursorAt(vm, offset) && value < Modulus(size)
    ensures TargetMatches(vm, size, C.TY_IMMPTR, R.ImmediatePtr(size), offset, value, zero)
  {
    hide C.Read, R.Read, C.Write, R.Write;
    var moved := C.Advance(vm, 4);
    ReadAgrees(moved, Word, vm.pointerInstrMut);
    if C.Target(vm, size, C.TY_IMMPTR, value, zero).Done? {
      WriteAgrees(moved, size, C.Read(moved, Word, vm.pointerInstrMut).value, value);
    }
  }

  /** Both write a destination operand alike. */
  lemma TargetAgrees(vm: C.Vm, size: Size, prtype: u8, operand: R.Operand, offset: u32, value: u32, zero: bool)
    requires Corresponds(prtype, size, operand) && CursorAt(vm, offset) && value < Modulus(size)
    ensures TargetMatches(vm, size, prtype, operand, offset, value, zero)
  {
    hide C.Write, C.Read, Assign;
    match operand
    case Register => RegisterTargetAgrees(vm, size, offset, value, zero);
    case RegisterPtr => RegisterPtrTargetAgrees(vm, size, offset, value, zero);
    case ImmediatePtr(_) => ImmediatePtrTargetAgrees(vm, size, offset, value, zero);
    case _ => assert C.Target(vm, size, prtype, value, zero).Panic?;
  }

  // ----- instructions

  /** When both complete, they leave the same state and the same next address. */
  ghost predicate Agree(o: C.Outcome<()>, r: Option<(R.State, u32)>) {
    o.Done? && r.Some? ==> OfVm(o.vm) == r.value.0 && o.vm.pointerInstrMut == r.value.1
  }

  /** The C fields of an instruction and the Rust operands decoded from them. */
  predicate Decoded(i: C.Instr, size: Size, condition: R.Condition, destination: R.Operand, source: R.Operand) {
    && Corresponds(i.source, size, source)
    && Corresponds(i.target, size, destination)
    && IsPlace(destination)
    && R.ConditionFrom(i.condition) == Some(condition)
  }

  lemma SkipAgrees(vm: C.Vm, bits: u8, condition: R.Condition)
    requires R.ConditionFrom(bits) == Some(condition)
    ensures C.ShouldSkip(vm, bits) == C.Done(vm, !R.CheckCondition(OfVm(vm), condition))
  {
  }

  lemma WidthAgrees(size: Size, prtype: u8, operand: R.Operand)
    requires Corresponds(prtype, size, operand)
    ensures C.OperandBytes(size, prtype) == R.OperandWidth(operand) <= 4
  {
  }

  lemma ReadSourceWidth(cpu: R.State, source: R.Operand)
    requires R.ReadSource(cpu, source).Some?
    ensures R.ReadSource(cpu, source).value.1 == 2 + R.OperandWidth(source)
  {
  }

  /** The operand count of a two-operand instruction that is not executed. */
  lemma SkipParamsAgrees(
    vm: C.Vm, i: C.Instr, size: Size, condition: R.Condition, destination: R.Operand, source: R.Operand)
    requires Decoded(i, size, condition, destination, source) && CursorAt(vm, 2)
    ensures OfVm(C.SkipParams(vm, size, i)) == OfVm(vm)
    ensures CursorAt(C.SkipParams(vm, size, i), 2 + R.OperandWidth(source) + R.OperandWidth(destination))
  {
    WidthAgrees(size, i.source, source);
    WidthAgrees(size, i.target, destination);
  }

  predicate SameCarryOp(op: C.CarryOp, two: R.TwoOp) {
    match op
    case AddOp => two.Add?
    case SubOp => two.Sub?
    case MulOp => two.Mul?
    case IMulOp => false
  }

  predicate SameZeroOp(op: C.ZeroOp, two: R.TwoOp) {
    match op
    case DivOp => two.Div?
    case RemOp => two.Rem?
    case AndOp => two.And?
    case XorOp => two.Xor?
    case OrOp => two.Or?
    case _ => false
  }

  lemma CheckedAgrees(op: C.CarryOp, two: R.TwoOp, size: Size, b: u32, source: u32)
    requires SameCarryOp(op, two) && b < Modulus(size)
    ensures
      var x := C.Checked(op, size, b, Trunc(size, source));
      R.Compute(two, size, b, source) == Some(R.WithCarry(x.0, x.1))
  {
  }

  lemma UncheckedAgrees(op: C.ZeroOp, two: R.TwoOp, size: Size, b: u32, source: u32)
    requires SameZeroOp(op, two) && b < Modulus(size)
    ensures
      var x := C.Unchecked(op, size, b, Trunc(size, source));
      R.Compute(two, size, b, source) == if x.None? then None else Some(R.WithZero(x.value))
  {
  }

  /** An executed two-operand instruction in terms of its destination operand. */
  lemma ExecutedTwo(
    cpu: R.State, op: R.TwoOp, size: Size, condition: R.Condition, destination: R.Operand, source: R.Operand,
    left: u32, sourceValue: u32, offset: u32)
    requires left < Modulus(size) && IsPlace(destination) && R.CheckCondition(cpu, condition)
    requires R.Compute(op, size, left, sourceValue).Some?
    requires R.ReadSource(cpu, source) == Some((sourceValue, offset)) && offset <= 6
    requires Destination(cpu, size, destination, offset) == Some(left)
    ensures
      var r := R.ExecuteTwo(cpu, op, size, condition, destination, source);
      var alu := R.Compute(op, size, left, sourceValue).value;
      var written := if R.Stores(op) then Assign(cpu, size, destination, offset, alu.result, false) else Some(cpu);
      r == if written.None? then None
           else Some((R.SetFlags(written.value, alu), R.At(cpu, offset + R.OperandWidth(destination))))
  {
    ReadSourceWidth(cpu, source);
  }

  lemma SkippedTwo(
    cpu: R.State, op: R.TwoOp, size: Size, condition: R.Condition, destination: R.Operand, source: R.Operand)
    requires !R.CheckCondition(cpu, condition)
    ensures
      var r := R.ExecuteTwo(cpu, op, size, condition, destination, source);
      r.Some? ==> r.value == (cpu, R.At(cpu, 2 + R.OperandWidth(source) + R.OperandWidth(destination)))
  {
    if R.ReadSource(cpu, source).Some? {
      ReadSourceWidth(cpu, source);
    }
  }

  /** Setting the flags and writing a destination commute. */
  lemma AssignKeepsFlags(cpu: R.State, flag: R.Flag, size: Size, operand: R.Operand, offset: u32, value: u32)
    requires value < Modulus(size) && IsPlace(operand)
    ensures
      var plain := Assign(cpu, size, operand, offset, value, false);
      Assign(cpu.(flag := flag), size, operand, offset, value, false)
      == if plain.None? then None else Some(plain.value.(flag := flag))
    ensures
      var plain := Assign(cpu, size, operand, offset, value, false);
      plain.Some? ==> plain.value.flag == cpu.flag
  {
    var flagged := cpu.(flag := flag);
    var at := R.At(cpu, offset);
    match operand
    case Register =>
      assert R.Read(flagged, Byte, at) == R.Read(cpu, Byte, at);
    case RegisterPtr =>
      assert R.Read(flagged, Byte, at) == R.Read(cpu, Byte, at);
      assert R.Pointer(flagged, operand, offset) == R.Pointer(cpu, operand, offset);
    case ImmediatePtr(_) =>
      assert R.Read(flagged, Word, at) == R.Read(cpu, Word, at);
      assert R.Pointer(flagged, operand, offset) == R.Pointer(cpu, operand, offset);
  }

  /** C sets the flags and then writes; Rust writes and then sets the flags. */
  lemma StoreAgrees(
    vm: C.Vm, size: Size, prtype: u8, destination: R.Operand, offset: u32, x: u32, alu: R.Alu, carry: bool, zero: bool)
    requires Corresponds(prtype, size, destination) && IsPlace(destination) && CursorAt(vm, offset)
    requires x < Modulus(size)
    requires R.NewFlags(OfVm(vm).flag, alu) == R.Flag(vm.flagInterrupt, carry, zero)
    ensures
      var o := C.Target(vm.(flagCarry := carry, flagZero := zero), size, prtype, x, false);
      o.Done? ==>
        && Assign(OfVm(vm), size, destination, offset, x, false).Some?
        && R.SetFlags(Assign(OfVm(vm), size, destination, offset, x, false).value, alu) == OfVm(o.vm)
        && o.vm.pointerInstrMut == Add32(vm.pointerInstrMut, R.OperandWidth(destination))
  {
    var flagged := vm.(flagCarry := carry, flagZero := zero);
    var o := C.Target(flagged, size, prtype, x, false);
    if o.Done? {
      TargetAgrees(flagged, size, prtype, destination, offset, x, false);
      AssignKeepsFlags(OfVm(vm), R.Flag(vm.flagInterrupt, carry, zero), size, destination, offset, x);
      assert OfVm(flagged) == OfVm(vm).(flag := R.Flag(vm.flagInterrupt, carry, zero));
    }
  }

  /** The operands of an executed two-operand instruction, read by both sides. */
  lemma OperandsAgree(
    vm: C.Vm, i: C.Instr, size: Size, condition: R.Condition, destination: R.Operand, source: R.Operand,
    vm1: C.Vm, a: u32, b: u32)
    requires Decoded(i, size, condition, destination, source) && CursorAt(vm, 2)
    requires C.Source(vm, size, i.source, false) == C.Done(vm1, a)
    requires C.Source(vm1, size, i.target, true) == C.Done(vm1, b)
    requires R.ReadSource(OfVm(vm), source).Some?
    ensures
      var (sourceValue, offset) := R.ReadSource(OfVm(vm), source).value;
      && a == Trunc(size, sourceValue)
      && offset == 2 + R.OperandWidth(source)
      && CursorAt(vm1, offset)
      && OfVm(vm1) == OfVm(vm)
      && Destination(OfVm(vm), size, destination, offset) == Some(b)
  {
    hide C.Source, R.ReadSource, Destination;
    SourceAgrees(vm, size, i.source, source);
    DestinationAgrees(vm1, size, i.target, destination, 2 + R.OperandWidth(source), true);
  }

  /** ADD, SUB and MUL once executed. */
  lemma ExecutedAddAgrees(
    vm: C.Vm, i: C.Instr, size: Size, op: C.CarryOp, two: R.TwoOp,
    condition: R.Condition, destination: R.Operand, source: R.Operand)
    requires Decoded(i, size, condition, destination, source) && CursorAt(vm, 2) && SameCarryOp(op, two)
    requires R.CheckCondition(OfVm(vm), condition)
    requires C.Add(vm, i, size, op).Done? && R.ReadSource(OfVm(vm), source).Some?
    ensures Agree(C.Add(vm, i, size, op), R.ExecuteTwo(OfVm(vm), two, size, condition, destination, source))
  {
    hide C.Source, C.Target, C.Checked, R.ReadSource, R.ExecuteTwo, R.Compute, Assign, Destination;
    hide R.CheckCondition, C.ShouldSkip;
    SkipAgrees(vm, i.condition, condition);
    var (vm1, a) := C.Source(vm, size, i.source, false).Extract();
    var b := C.Source(vm1, size, i.target, true).value;
    assert C.Source(vm1, size, i.target, true) == C.Done(vm1, b) by { C.StayIsPure(vm1, size, i.target); }
    OperandsAgree(vm, i, size, condition, destination, source, vm1, a, b);
    var (sourceValue, offset) := R.ReadSource(OfVm(vm), source).value;
    var (x, overflow) := C.Checked(op, size, b, a);
    CheckedAgrees(op, two, size, b, sourceValue);
    ExecutedTwo(OfVm(vm), two, size, condition, destination, source, b, sourceValue, offset);
    StoreAgrees(vm1, size, i.target, destination, offset, x, R.WithCarry(x, overflow), overflow, x == 0);
  }

  lemma AddAgrees(
    vm: C.Vm, i: C.Instr, size: Size, op: C.CarryOp, two: R.TwoOp,
    condition: R.Condition, destination: R.Operand, source: R.Operand)
    requires Decoded(i, size, condition, destination, source) && CursorAt(vm, 2) && SameCarryOp(op, two)
    ensures Agree(C.Add(vm, i, size, op), R.ExecuteTwo(OfVm(vm), two, size, condition, destination, source))
  {
    hide C.Source, C.Target, C.Checked, R.ReadSource, R.CheckCondition, C.ShouldSkip, C.SkipParams;
    SkipAgrees(vm, i.condition, condition);
    if !R.CheckCondition(OfVm(vm), condition) {
      SkippedTwo(OfVm(vm), two, size, condition, destination, source);
      SkipParamsAgrees(vm, i, size, condition, destination, source);
    } else if C.Add(vm, i, size, op).Done? && R.ReadSource(OfVm(vm), source).Some? {
      ExecutedAddAgrees(vm, i, size, op, two, condition, destination, source);
    }
  }

  /** DIV, REM, AND, OR and XOR once executed. */
  lemma ExecutedAndAgrees(
    vm: C.Vm, i: C.Instr, size: Size, op: C.ZeroOp, two: R.TwoOp,
    condition: R.Condition, destination: R.Operand, source: R.Operand)
    requires Decoded(i, size, condition, destination, source) && CursorAt(vm, 2) && SameZeroOp(op, two)
    requires R.CheckCondition(OfVm(vm), condition)
    requires C.And(vm, i, size, op).Done? && R.ReadSource(OfVm(vm), source).Some?
    ensures Agree(C.And(vm, i, size, op), R.ExecuteTwo(OfVm(vm), two, size, condition, destination, source))
  {
    hide C.Source, C.Target, C.Unchecked, R.ReadSource, R.ExecuteTwo, R.Compute, Assign, Destination;
    hide R.CheckCondition, C.ShouldSkip;
    SkipAgrees(vm, i.condition, condition);
    var (vm1, a) := C.Source(vm, size, i.source, false).Extract();
    var b := C.Source(vm1, size, i.target, true).value;
    assert C.Source(vm1, size, i.target, true) == C.Done(vm1, b) by { C.StayIsPure(vm1, size, i.target); }
    OperandsAgree(vm, i, size, condition, destination, source, vm1, a, b);
    var (sourceValue, offset) := R.ReadSource(OfVm(vm), source).value;
    var x := C.Unchecked(op, size, b, a).value;
    UncheckedAgrees(op, two, size, b, sourceValue);
    ExecutedTwo(OfVm(vm), two, size, condition, destination, source, b, sourceValue, offset);
    StoreAgrees(vm1, size, i.target, destination, offset, x, R.WithZero(x), vm1.flagCarry, x == 0);
  }

  lemma AndAgrees(
    vm: C.Vm, i: C.Instr, size: Size, op: C.ZeroOp, two: R.TwoOp,
    condition: R.Condition, destination: R.Operand, source: R.Operand)
    requires Decoded(i, size, condition, destination, source) && CursorAt(vm, 2) && SameZeroOp(op, two)
    ensures Agree(C.And(vm, i, size, op), R.ExecuteTwo(OfVm(vm), two, size, condition, destination, source))
  {
    hide C.Source, C.Target, C.Unchecked, R.ReadSource, R.CheckCondition, C.ShouldSkip, C.SkipParams;
    SkipAgrees(vm, i.condition, condition);
    if !R.CheckCondition(OfVm(vm), condition) {
      SkippedTwo(OfVm(vm), two, size, condition, destination, source);
      SkipParamsAgrees(vm, i, size, condition, destination, source);
    } else if C.And(vm, i, size, op).Done? && R.ReadSource(OfVm(vm), source).Some? {
      ExecutedAndAgrees(vm, i, size, op, two, condition, destination, source);
    }
  }

  /** CMP and BTS read both operands, moving past each. */
  lemma ReadBothAgrees(
    vm: C.Vm, i: C.Instr, size: Size, condition: R.Condition, destination: R.Operand, source: R.Operand,
    vm1: C.Vm, a: u32, vm2: C.Vm, b: u32)
    requires Decoded(i, size, condition, destination, source) && CursorAt(vm, 2)
    requires C.Source(vm, size, i.source, false) == C.Done(vm1, a)
    requires C.Source(vm1, size, i.target, false) == C.Done(vm2, b)
    requires R.ReadSource(OfVm(vm), source).Some?
    ensures
      var (sourceValue, offset) := R.ReadSource(OfVm(vm), source).value;
      && a == Trunc(size, sourceValue)
      && offset == 2 + R.OperandWidth(source)
      && CursorAt(vm2, offset + R.OperandWidth(destination))
      && OfVm(vm2) == OfVm(vm)
      && Destination(OfVm(vm), size, destination, offset) == Some(b)
  {
    hide C.Source, R.ReadSource, Destination;
    SourceAgrees(vm, size, i.source, source);
    DestinationAgrees(vm1, size, i.target, destination, 2 + R.OperandWidth(source), false);
  }

  /** CMP and BTS, once executed, only set flags. */
  lemma ExecutedTest(
    cpu: R.State, op: R.TwoOp, size: Size, condition: R.Condition, destination: R.Operand, source: R.Operand,
    left: u32, sourceValue: u32, offset: u32, alu: R.Alu)
    requires left < Modulus(size) && IsPlace(destination) && R.CheckCondition(cpu, condition) && !R.Stores(op)
    requires R.ReadSource(cpu, source) == Some((sourceValue, offset)) && offset <= 6
    requires Destination(cpu, size, destination, offset) == Some(left)
    requires R.Compute(op, size, left, sourceValue) == Some(alu)
    ensures
      R.ExecuteTwo(cpu, op, size, condition, destination, source)
      == Some((R.SetFlags(cpu, alu), R.At(cpu, offset + R.OperandWidth(destination))))
  {
    hide R.ReadSource, R.CheckCondition, R.ExecuteTwo, Destination, Assign, R.Compute;
    ExecutedTwo(cpu, op, size, condition, destination, source, left, sourceValue, offset);
  }

  lemma CmpComputes(size: Size, b: u32, source: u32)
    requires b < Modulus(size)
    ensures
      var x := C.Checked(C.SubOp, size, b, Trunc(size, source));
      R.Compute(R.Cmp, size, b, source) == Some(R.WithCarry(x.0, x.1))
  {
  }

  lemma CmpAgrees(
    vm: C.Vm, i: C.Instr, size: Size, condition: R.Condition, destination: R.Operand, source: R.Operand)
    requires Decoded(i, size, condition, destination, source) && CursorAt(vm, 2)
    requires R.CheckCondition(OfVm(vm), condition)
    ensures Agree(C.Cmp(vm, i, size), R.ExecuteTwo(OfVm(vm), R.Cmp, size, condition, destination, source))
  {
    hide C.Source, C.Cmp, R.ReadSource, R.CheckCondition, R.ExecuteTwo, Destination, Assign, C.Checked, R.Compute;
    hide Trunc, Decoded;
    NeedsSource(OfVm(vm), R.Cmp, size, condition, destination, source);
    DecodedFields(i, size, condition, destination, source);
    if C.Cmp(vm, i, size).Done? && R.ReadSource(OfVm(vm), source).Some? {
      var vm1, a, vm2, b := CmpForm(vm, i, size);
      ReadBothAgrees(vm, i, size, condition, destination, source, vm1, a, vm2, b);
      var (sourceValue, offset) := R.ReadSource(OfVm(vm), source).value;
      var x := C.Checked(C.SubOp, size, b, a);
      CmpComputes(size, b, sourceValue);
      ExecutedTest(
        OfVm(vm), R.Cmp, size, condition, destination, source, b, sourceValue, offset, R.WithCarry(x.0, x.1));
    }
  }

  lemma CmpForm(vm: C.Vm, i: C.Instr, size: Size) returns (vm1: C.Vm, a: u32, vm2: C.Vm, b: u32)
    requires i.source < 4 && i.target < 4 && C.Cmp(vm, i, size).Done?
    ensures a < Modulus(size) && b < Modulus(size)
    ensures C.Source(vm, size, i.source, false) == C.Done(vm1, a)
    ensures C.Source(vm1, size, i.target, false) == C.Done(vm2, b)
    ensures
      var x := C.Checked(C.SubOp, size, b, a);
      C.Cmp(vm, i, size) == C.Done(vm2.(flagCarry := x.1, flagZero := x.0 == 0), ())
  {
    hide C.Source, C.Checked;
    var s := C.Source(vm, size, i.source, false);
    vm1, a := s.vm, s.value;
    var t := C.Source(vm1, size, i.target, false);
    vm2, b := t.vm, t.value;
  }

  lemma NeedsSource(
    cpu: R.State, two: R.TwoOp, size: Size, condition: R.Condition, destination: R.Operand, source: R.Operand)
    ensures R.ExecuteTwo(cpu, two, size, condition, destination, source).Some? ==> R.ReadSource(cpu, source).Some?
  {
  }

  lemma BtsComputes(size: Size, b: u32, source: u32)
    requires b < Modulus(size) && source < Width(size)
    ensures
      var bit := BitAnd(size, b, Bit(size, source));
      R.Compute(R.Bts, size, b, source) == Some(R.Alu(bit, Some(bit == 0), None))
  {
    hide Bit, BitAnd;
  }

  lemma BtsAgrees(
    vm: C.Vm, i: C.Instr, size: Size, condition: R.Condition, destination: R.Operand, source: R.Operand)
    requires Decoded(i, size, condition, destination, source) && CursorAt(vm, 2)
    requires R.CheckCondition(OfVm(vm), condition)
    requires R.ReadSource(OfVm(vm), source).Some? ==> R.ReadSource(OfVm(vm), source).value.0 < Width(size)
    ensures Agree(C.Bts(vm, i, size), R.ExecuteTwo(OfVm(vm), R.Bts, size, condition, destination, source))
  {
    hide C.Source, R.ReadSource, R.CheckCondition, R.ExecuteTwo, Destination, Assign, R.Compute, Bit, BitAnd, Trunc;
    NeedsSource(OfVm(vm), R.Bts, size, condition, destination, source);
    if C.Bts(vm, i, size).Done? && R.ReadSource(OfVm(vm), source).Some? {
      var (vm1, a) := C.Source(vm, size, i.source, false).Extract();
      var (vm2, b) := C.Source(vm1, size, i.target, false).Extract();
      ReadBothAgrees(vm, i, size, condition, destination, source, vm1, a, vm2, b);
      var (sourceValue, offset) := R.ReadSource(OfVm(vm), source).value;
      assert a == sourceValue;
      var bit := BitAnd(size, b, Bit(size, a));
      assert C.Bts(vm, i, size) == C.Done(vm2.(flagZero := bit == 0), ());
      hide C.Bts;
      BtsComputes(size, b, sourceValue);
      ExecutedTest(
        OfVm(vm), R.Bts, size, condition, destination, source, b, sourceValue, offset,
        R.Alu(bit, Some(bit == 0), None));
    }
  }

  // ----- one operand

  lemma ExecutedOne(
    cpu: R.State, op: R.OneOp, size: Size, condition: R.Condition, operand: R.Operand, left: u32)
    requires IsPlace(operand) && R.CheckCondition(cpu, condition) && left < Modulus(size)
    requires Destination(cpu, size, operand, 2) == Some(left)
    ensures
      var alu := R.ComputeOne(op, size, left);
      var written := Assign(cpu, size, operand, 2, alu.result, false);
      R.ExecuteOne(cpu, op, size, condition, operand)
      == if written.None? then None
         else Some((R.SetFlags(written.value, alu), R.At(cpu, 2 + R.OperandWidth(operand))))
  {
    hide R.ComputeOne, R.Read, R.CheckCondition;
  }

  lemma SkippedOne(cpu: R.State, op: R.OneOp, size: Size, condition: R.Condition, operand: R.Operand)
    requires !R.CheckCondition(cpu, condition)
    ensures
      var r := R.ExecuteOne(cpu, op, size, condition, operand);
      r.Some? ==> r.value == (cpu, R.At(cpu, 2 + R.OperandWidth(operand)))
  {
    hide R.ComputeOne, R.Read;
  }

  /** INC, DEC and NOT share one shape: read in place, write back, set flags. */
  lemma InPlaceAgrees(
    vm: C.Vm, size: Size, prtype: u8, condition: R.Condition, operand: R.Operand, op: R.OneOp,
    v: u32, x: u32, carry: bool, o: C.Outcome<()>)
    requires Corresponds(prtype, size, operand) && CursorAt(vm, 2)
    requires R.CheckCondition(OfVm(vm), condition)
    requires C.Source(vm, size, prtype, true) == C.Done(vm, v) && v < Modulus(size) && x < Modulus(size)
    requires R.ComputeOne(op, size, v).result == x
    requires R.NewFlags(OfVm(vm).flag, R.ComputeOne(op, size, v)) == R.Flag(vm.flagInterrupt, carry, x == 0)
    requires o == C.Target(vm.(flagCarry := carry, flagZero := x == 0), size, prtype, x, false)
    ensures Agree(o, R.ExecuteOne(OfVm(vm), op, size, condition, operand))
  {
    hide C.Source, R.ExecuteOne, R.ComputeOne, Destination, Assign, R.CheckCondition;
    if o.Done? {
      assert IsPlace(operand);
      hide C.Target;
      DestinationAgrees(vm, size, prtype, operand, 2, true);
      ExecutedOne(OfVm(vm), op, size, condition, operand, v);
      StoreAgrees(vm, size, prtype, operand, 2, x, R.ComputeOne(op, size, v), carry, x == 0);
    }
  }

  predicate SameOneOp(op: C.CarryOp, one: R.OneOp) {
    (op.AddOp? && one.Inc?) || (op.SubOp? && one.Dec?)
  }

  lemma ReadInPlace(vm: C.Vm, size: Size, prtype: u8)
    requires prtype < 4 && C.Source(vm, size, prtype, true).Done?
    ensures
      var v := C.Source(vm, size, prtype, true).value;
      C.Source(vm, size, prtype, true) == C.Done(vm, v) && v < Modulus(size)
  {
    hide C.Source;
    C.StayIsPure(vm, size, prtype);
  }

  lemma SkipParamAgrees(vm: C.Vm, size: Size, prtype: u8, operand: R.Operand)
    requires Corresponds(prtype, size, operand) && CursorAt(vm, 2)
    ensures OfVm(C.SkipParam(vm, size, prtype)) == OfVm(vm)
    ensures CursorAt(C.SkipParam(vm, size, prtype), 2 + R.OperandWidth(operand))
  {
    WidthAgrees(size, prtype, operand);
  }

  lemma IncAgrees(
    vm: C.Vm, i: C.Instr, size: Size, op: C.CarryOp, one: R.OneOp,
    condition: R.Condition, destination: R.Operand, source: R.Operand)
    requires Decoded(i, size, condition, destination, source) && CursorAt(vm, 2) && SameOneOp(op, one)
    ensures Agree(C.Inc(vm, i, size, op), R.ExecuteOne(OfVm(vm), one, size, condition, source))
  {
    hide C.Source, C.Target, R.ExecuteOne, R.CheckCondition, C.ShouldSkip, C.SkipParam;
    SkipAgrees(vm, i.condition, condition);
    if !R.CheckCondition(OfVm(vm), condition) {
      SkippedOne(OfVm(vm), one, size, condition, source);
      SkipParamAgrees(vm, size, i.source, source);
    } else if C.Inc(vm, i, size, op).Done? {
      ReadInPlace(vm, size, i.source);
      var v := C.Source(vm, size, i.source, true).value;
      var (x, overflow) := C.Checked(op, size, v, 1);
      InPlaceAgrees(vm, size, i.source, condition, source, one, v, x, overflow, C.Inc(vm, i, size, op));
    }
  }

  lemma NotAgrees(
    vm: C.Vm, i: C.Instr, size: Size, condition: R.Condition, destination: R.Operand, source: R.Operand)
    requires Decoded(i, size, condition, destination, source) && CursorAt(vm, 2)
    ensures Agree(C.Not(vm, i, size), R.ExecuteOne(OfVm(vm), R.Not, size, condition, source))
  {
    hide C.Source, C.Target, R.ExecuteOne, R.CheckCondition, C.ShouldSkip, C.SkipParam;
    SkipAgrees(vm, i.condition, condition);
    if !R.CheckCondition(OfVm(vm), condition) {
      SkippedOne(OfVm(vm), R.Not, size, condition, source);
      SkipParamAgrees(vm, size, i.source, source);
    } else if C.Not(vm, i, size).Done? {
      ReadInPlace(vm, size, i.source);
      var v := C.Source(vm, size, i.source, true).value;
      var x := BitNot(size, v);
      InPlaceAgrees(vm, size, i.source, condition, source, R.Not, v, x, vm.flagCarry, C.Not(vm, i, size));
    }
  }

  // ----- moves

  /** A move once executed, with or without zero extension. */
  lemma ExecutedMov(
    cpu: R.State, size: Size, condition: R.Condition, destination: R.Operand, source: R.Operand,
    sourceValue: u32, offset: u32, zero: bool)
    requires IsPlace(destination) && R.CheckCondition(cpu, condition) && (zero ==> destination.Register?)
    requires R.ReadSource(cpu, source) == Some((sourceValue, offset)) && offset <= 6
    ensures
      var written := Assign(cpu, size, destination, offset, Trunc(size, sourceValue), zero);
      (if zero then R.ExecuteMovz(cpu, size, condition, destination, source)
       else R.ExecuteMov(cpu, size, condition, destination, source))
      == if written.None? then None else Some((written.value, R.At(cpu, offset + R.OperandWidth(destination))))
  {
    hide R.ReadSource, R.Read, R.CheckCondition, R.Write;
  }

  lemma SkippedMov(
    cpu: R.State, size: Size, condition: R.Condition, destination: R.Operand, source: R.Operand)
    requires !R.CheckCondition(cpu, condition)
    ensures
      var r := R.ExecuteMov(cpu, size, condition, destination, source);
      r.Some? ==> r.value == (cpu, R.At(cpu, 2 + R.OperandWidth(source) + R.OperandWidth(destination)))
  {
    hide R.Read, R.ReadSource, R.Pointer, R.CheckCondition;
    if R.ReadSource(cpu, source).Some? {
      ReadSourceWidth(cpu, source);
    }
  }

  lemma SkippedMovz(
    cpu: R.State, size: Size, condition: R.Condition, destination: R.Operand, source: R.Operand)
    requires !R.CheckCondition(cpu, condition)
    ensures
      var r := R.ExecuteMovz(cpu, size, condition, destination, source);
      r.Some? ==> r.value == (cpu, R.At(cpu, 2 + R.OperandWidth(source) + R.OperandWidth(destination)))
  {
    hide R.Read, R.ReadSource, R.CheckCondition;
    if R.ReadSource(cpu, source).Some? {
      ReadSourceWidth(cpu, source);
    }
  }

  lemma MovNeedsSource(
    cpu: R.State, size: Size, condition: R.Condition, destination: R.Operand, source: R.Operand, zero: bool)
    requires R.ReadSource(cpu, source).None?
    ensures
      (if zero then R.ExecuteMovz(cpu, size, condition, destination, source)
       else R.ExecuteMov(cpu, size, condition, destination, source)).None?
  {
  }

  lemma ExecutedMovAgrees(
    vm: C.Vm, i: C.Instr, size: Size, condition: R.Condition, destination: R.Operand, source: R.Operand, zero: bool)
    requires Decoded(i, size, condition, destination, source) && CursorAt(vm, 2) && (zero ==> destination.Register?)
    requires R.CheckCondition(OfVm(vm), condition) && C.Mov(vm, i, size, zero).Done?
    requires R.ReadSource(OfVm(vm), source).Some?
    ensures
      var (sourceValue, offset) := R.ReadSource(OfVm(vm), source).value;
      var written := Assign(OfVm(vm), size, destination, offset, Trunc(size, sourceValue), zero);
      && offset == 2 + R.OperandWidth(source)
      && written == Some(OfVm(C.Mov(vm, i, size, zero).vm))
      && C.Mov(vm, i, size, zero).vm.pointerInstrMut
         == R.At(OfVm(vm), offset + R.OperandWidth(destination))
  {
    hide C.Source, C.Target, R.ReadSource, R.CheckCondition, C.ShouldSkip, Assign, Trunc;
    SkipAgrees(vm, i.condition, condition);
    SourceAgrees(vm, size, i.source, source);
    var (vm1, a) := C.Source(vm, size, i.source, false).Extract();
    TargetAgrees(vm1, size, i.target, destination, 2 + R.OperandWidth(source), a, zero);
  }

  lemma MovAgrees(
    vm: C.Vm, i: C.Instr, size: Size, condition: R.Condition, destination: R.Operand, source: R.Operand, zero: bool)
    requires Decoded(i, size, condition, destination, source) && CursorAt(vm, 2) && (zero ==> destination.Register?)
    ensures Agree(C.Mov(vm, i, size, zero),
      if zero then R.ExecuteMovz(OfVm(vm), size, condition, destination, source)
      else R.ExecuteMov(OfVm(vm), size, condition, destination, source))
  {
    hide C.Source, C.Target, R.ReadSource, R.CheckCondition, C.ShouldSkip, C.SkipParams, R.ExecuteMov;
    hide R.ExecuteMovz, Assign, Trunc;
    SkipAgrees(vm, i.condition, condition);
    var cpu := OfVm(vm);
    if !R.CheckCondition(cpu, condition) {
      SkippedMov(cpu, size, condition, destination, source);
      SkippedMovz(cpu, size, condition, destination, source);
      SkipParamsAgrees(vm, i, size, condition, destination, source);
    } else if R.ReadSource(cpu, source).None? {
      MovNeedsSource(cpu, size, condition, destination, source, zero);
    } else if C.Mov(vm, i, size, zero).Done? {
      hide C.Mov;
      ExecutedMovAgrees(vm, i, size, condition, destination, source, zero);
      var (sourceValue, offset) := R.ReadSource(cpu, source).value;
      ExecutedMov(cpu, size, condition, destination, source, sourceValue, offset, zero);
    }
  }

  lemma WordAssign(cpu: R.State, operand: R.Operand, offset: u32, value: u32)
    requires operand.Register?
    ensures Assign(cpu, Word, operand, offset, value, false) == Assign(cpu, Word, operand, offset, value, true)
  {
    hide R.Read;
  }

  /** A word-sized source operand, with the cursor where Rust has its offset. */
  lemma WordSource(vm: C.Vm, prtype: u8, source: R.Operand)
    requires Corresponds(prtype, Word, source) && CursorAt(vm, 2)
    requires R.ReadSource(OfVm(vm), source).Some?
    ensures
      var o, r := C.Source(vm, Word, prtype, false), R.ReadSource(OfVm(vm), source).value;
      && r.1 == 2 + R.OperandWidth(source)
      && (o.Done? ==>
           && o.value == r.0
           && o.vm == vm.(pointerInstrMut := R.At(OfVm(vm), r.1))
           && OfVm(o.vm) == OfVm(vm))
  {
    hide C.Source, R.ReadSource;
    ReadSourceWidth(OfVm(vm), source);
    SourceAgrees(vm, Word, prtype, source);
  }

  /** RTA into a register, once executed. */
  lemma ExecutedRta(
    cpu: R.State, condition: R.Condition, destination: R.Operand, source: R.Operand, sourceValue: u32, offset: u32)
    requires destination.Register? && R.CheckCondition(cpu, condition) && offset <= 6
    requires R.ReadSource(cpu, source) == Some((sourceValue, offset))
    ensures
      var written := Assign(cpu, Word, destination, offset, R.At(cpu, sourceValue), true);
      R.ExecuteRta(cpu, condition, destination, source)
      == if written.None? then None else Some((written.value, R.At(cpu, offset + 1)))
  {
    hide R.ReadSource, R.CheckCondition, R.Read;
  }

  lemma RtaAgrees(
    vm: C.Vm, i: C.Instr, condition: R.Condition, destination: R.Operand, source: R.Operand)
    requires Decoded(i, Word, condition, destination, source) && CursorAt(vm, 2) && destination.Register?
    ensures Agree(C.Rta(vm, i, vm.pointerInstr), R.ExecuteRta(OfVm(vm), condition, destination, source))
  {
    hide C.Source, C.Target, C.Rta, R.ReadSource, R.CheckCondition, C.ShouldSkip, C.SkipParams, Assign;
    hide R.ExecuteRta, Decoded;
    DecodedFields(i, Word, condition, destination, source);
    DecodedCondition(i, Word, condition, destination, source);
    SkipAgrees(vm, i.condition, condition);
    var cpu := OfVm(vm);
    RtaNeedsSource(cpu, condition, destination, source);
    if R.ReadSource(cpu, source).Some? {
      var (sourceValue, offset) := R.ReadSource(cpu, source).value;
      RtaForm(vm, i, vm.pointerInstr);
      if !R.CheckCondition(cpu, condition) {
        SkippedRta(cpu, condition, destination, source);
        SkipParamsAgrees(vm, i, Word, condition, destination, source);
      } else if C.Rta(vm, i, vm.pointerInstr).Done? {
        ExecutedRtaAgrees(vm, i, condition, destination, source);
      }
    }
  }

  lemma RtaForm(vm: C.Vm, i: C.Instr, base: u32)
    requires i.source < 4 && i.target < 4
    ensures
      var skip := C.ShouldSkip(vm, i.condition);
      skip.Done? ==>
        C.Rta(vm, i, base) ==
        if skip.value then C.Done(C.SkipParams(vm, Word, i), ())
        else
          var (vm1, x) :- C.Source(vm, Word, i.source, false);
          C.Target(vm1, Word, i.target, Add32(base, x), false)
  {
    hide C.Source, C.Target, C.ShouldSkip, C.SkipParams;
  }

  lemma RtaNeedsSource(cpu: R.State, condition: R.Condition, destination: R.Operand, source: R.Operand)
    ensures R.ExecuteRta(cpu, condition, destination, source).Some? ==> R.ReadSource(cpu, source).Some?
  {
    hide R.ReadSource;
  }

  lemma SkippedRta(cpu: R.State, condition: R.Condition, destination: R.Operand, source: R.Operand)
    requires destination.Register? && !R.CheckCondition(cpu, condition) && R.ReadSource(cpu, source).Some?
    ensures R.ExecuteRta(cpu, condition, destination, source).Some? ==>
      R.ExecuteRta(cpu, condition, destination, source)
      == Some((cpu, R.At(cpu, 2 + R.OperandWidth(source) + 1)))
  {
    hide R.CheckCondition, R.Read, R.ReadSource, R.At;
    ReadSourceWidth(cpu, source);
  }

  lemma ExecutedRtaAgrees(
    vm: C.Vm, i: C.Instr, condition: R.Condition, destination: R.Operand, source: R.Operand)
    requires Decoded(i, Word, condition, destination, source) && CursorAt(vm, 2) && destination.Register?
    requires i.source < 4 && i.target < 4
    requires R.CheckCondition(OfVm(vm), condition) && R.ReadSource(OfVm(vm), source).Some?
    requires C.Rta(vm, i, vm.pointerInstr).Done?
    ensures Agree(C.Rta(vm, i, vm.pointerInstr), R.ExecuteRta(OfVm(vm), condition, destination, source))
  {
    hide C.Source, C.Target, C.Rta, R.ReadSource, R.CheckCondition, C.ShouldSkip, C.SkipParams, Assign, R.ExecuteRta;
    var cpu := OfVm(vm);
    SkipAgrees(vm, i.condition, condition);
    RtaForm(vm, i, vm.pointerInstr);
    var (sourceValue, offset) := R.ReadSource(cpu, source).value;
    WordSource(vm, i.source, source);
    ExecutedRta(cpu, condition, destination, source, sourceValue, offset);
    var (vm1, a) := C.Source(vm, Word, i.source, false).Extract();
    var value := Add32(vm.pointerInstr, a);
    TargetAgrees(vm1, Word, i.target, destination, offset, value, false);
    WordAssign(cpu, destination, offset, value);
  }

  // ----- control transfer

  lemma JmpAgrees(
    vm: C.Vm, i: C.Instr, base: u32, op: R.JumpOp, condition: R.Condition, destination: R.Operand, source: R.Operand)
    requires Decoded(i, Word, condition, destination, source) && CursorAt(vm, 2)
    requires (op.Jmp? && base == 0) || (op.Rjmp? && base == vm.pointerInstr)
    ensures Agree(C.Jmp(vm, i, base), R.ExecuteJump(OfVm(vm), op, condition, source))
  {
    hide C.Source, R.ReadSource, R.CheckCondition, C.ShouldSkip, C.SkipParam;
    SkipAgrees(vm, i.condition, condition);
    SkipParamAgrees(vm, Word, i.source, source);
    if R.ReadSource(OfVm(vm), source).Some? {
      WordSource(vm, i.source, source);
    }
  }

  lemma CallAgrees(
    vm: C.Vm, i: C.Instr, base: u32, op: R.JumpOp, condition: R.Condition, destination: R.Operand, source: R.Operand)
    requires Decoded(i, Word, condition, destination, source) && CursorAt(vm, 2)
    requires (op.Call? && base == 0) || (op.Rcall? && base == vm.pointerInstr)
    ensures Agree(C.Call(vm, i, base), R.ExecuteJump(OfVm(vm), op, condition, source))
  {
    hide C.Source, R.ReadSource, R.CheckCondition, C.ShouldSkip, C.SkipParam, C.Push, R.PushStack;
    SkipAgrees(vm, i.condition, condition);
    SkipParamAgrees(vm, Word, i.source, source);
    if R.ReadSource(OfVm(vm), source).Some? {
      WordSource(vm, i.source, source);
      if R.CheckCondition(OfVm(vm), condition) && C.Call(vm, i, base).Done? {
        var (vm1, _) := C.Source(vm, Word, i.source, false).Extract();
        PushAgrees(vm1, Word, vm1.pointerInstrMut);
      }
    }
  }

  /** The operand names this register, directly or as a pointer. */
  predicate Names(cpu: R.State, operand: R.Operand, register: u8) {
    (operand.Register? || operand.RegisterPtr?) && R.Read(cpu, Byte, R.At(cpu, 2)) == Some(register)
  }

  lemma SourceIgnoresCounter(cpu: R.State, source: R.Operand, counter: u32)
    requires !Names(cpu, source, 31)
    ensures R.ReadSource(cpu.(register := cpu.register[31 := counter]), source) == R.ReadSource(cpu, source)
  {
    hide Load;
  }

  lemma LoopForm(vm: C.Vm, i: C.Instr, base: u32)
    requires i.source < 4 && i.target < 4 && C.ShouldSkip(vm, i.condition) == C.Done(vm, false)
    ensures
      var counted := vm.(registers := vm.registers[31 := Sub32(vm.registers[31], 1)]);
      C.Loop(vm, i, base) ==
      if Sub32(vm.registers[31], 1) == 0 then C.Done(C.SkipParam(counted, Word, i.source), ())
      else
        var (vm1, x) :- C.Source(counted, Word, i.source, false);
        C.Done(vm1.(pointerInstrMut := Add32(base, x)), ())
  {
    hide C.Source, C.ShouldSkip, C.SkipParam;
  }

  lemma CpuLoopForm(cpu: R.State, op: R.JumpOp, condition: R.Condition, source: R.Operand)
    requires (op.Loop? || op.Rloop?) && R.CheckCondition(cpu, condition)
    ensures
      R.ExecuteJump(cpu, op, condition, source) ==
      if R.ReadSource(cpu, source).None? then None
      else
        var (sourceValue, offset) := R.ReadSource(cpu, source).value;
        var counter := Sub32(cpu.register[31], 1);
        Some((
          cpu.(register := cpu.register[31 := counter]),
          if counter == 0 then R.At(cpu, offset)
          else if op.Rloop? then R.At(cpu, sourceValue) else sourceValue))
  {
    hide R.ReadSource, R.CheckCondition, R.At;
  }

  lemma LoopAgrees(
    vm: C.Vm, i: C.Instr, base: u32, op: R.JumpOp, condition: R.Condition, destination: R.Operand, source: R.Operand)
    requires Decoded(i, Word, condition, destination, source) && CursorAt(vm, 2)
    requires (op.Loop? && base == 0) || (op.Rloop? && base == vm.pointerInstr)
    requires R.CheckCondition(OfVm(vm), condition) && !Names(OfVm(vm), source, 31)
    ensures Agree(C.Loop(vm, i, base), R.ExecuteJump(OfVm(vm), op, condition, source))
  {
    hide C.Source, R.ReadSource, R.CheckCondition, C.ShouldSkip, C.SkipParam, Names, SourceMatches, C.Loop;
    hide R.ExecuteJump;
    SkipAgrees(vm, i.condition, condition);
    LoopForm(vm, i, base);
    CpuLoopForm(OfVm(vm), op, condition, source);
    if R.ReadSource(OfVm(vm), source).Some? {
      var counter := Sub32(vm.registers[31], 1);
      var counted := vm.(registers := vm.registers[31 := counter]);
      ReadSourceWidth(OfVm(vm), source);
      if counter == 0 {
        SkipParamAgrees(counted, Word, i.source, source);
      } else {
        SourceIgnoresCounter(OfVm(vm), source, counter);
        assert OfVm(counted) == OfVm(vm).(register := OfVm(vm).register[31 := counter]);
        WordSource(counted, i.source, source);
      }
    }
  }

  // ----- stack

  lemma PushFromAgrees(
    vm: C.Vm, i: C.Instr, size: Size, condition: R.Condition, destination: R.Operand, source: R.Operand)
    requires Decoded(i, size, condition, destination, source) && CursorAt(vm, 2)
    ensures Agree(C.PushFrom(vm, i, size), R.ExecutePush(OfVm(vm), size, condition, source))
  {
    hide C.Source, R.ReadSource, R.CheckCondition, C.ShouldSkip, C.SkipParam, C.Push, R.PushStack, Trunc;
    SkipAgrees(vm, i.condition, condition);
    SkipParamAgrees(vm, size, i.source, source);
    SourceAgrees(vm, size, i.source, source);
    if R.ReadSource(OfVm(vm), source).Some? {
      ReadSourceWidth(OfVm(vm), source);
      if R.CheckCondition(OfVm(vm), condition) && C.PushFrom(vm, i, size).Done? {
        var (vm1, a) := C.Source(vm, size, i.source, false).Extract();
        PushAgrees(vm1, size, a);
      }
    }
  }

  /** Popping does not change which place the operand denotes. */
  lemma PoppedAssign(cpu: R.State, popped: R.State, size: Size, operand: R.Operand, value: u32)
    requires popped == cpu.(stackPointer := popped.stackPointer) && IsPlace(operand) && value < Modulus(size)
    requires operand.RegisterPtr? ==> !Names(cpu, operand, 32)
    ensures
      var pointer := R.Pointer(cpu, operand, 2);
      var register := R.Read(cpu, Byte, R.At(cpu, 2));
      Assign(popped, size, operand, 2, value, false)
      == if operand.Register? then
           if register.None? then None else R.MergeRegister(popped, size, register.value, value)
         else if pointer.None? then None else R.Write(popped, size, pointer.value, value)
  {
    hide Load;
    assert R.At(popped, 2) == R.At(cpu, 2);
    assert R.Read(popped, Byte, R.At(cpu, 2)) == R.Read(cpu, Byte, R.At(cpu, 2));
    assert R.Read(popped, Word, R.At(cpu, 2)) == R.Read(cpu, Word, R.At(cpu, 2));
  }

  lemma PopToAgrees(
    vm: C.Vm, i: C.Instr, size: Size, condition: R.Condition, destination: R.Operand, source: R.Operand)
    requires Decoded(i, size, condition, destination, source) && CursorAt(vm, 2)
    requires source.RegisterPtr? ==> !Names(OfVm(vm), source, 32)
    ensures Agree(C.PopTo(vm, i, size), R.ExecutePop(OfVm(vm), size, condition, source))
  {
    hide C.Target, R.CheckCondition, C.ShouldSkip, C.SkipParam, C.Pop, R.PopStack, R.Read, Names, Assign;
    hide R.MergeRegister, R.Write;
    SkipAgrees(vm, i.condition, condition);
    SkipParamAgrees(vm, size, i.source, source);
    if R.CheckCondition(OfVm(vm), condition) && C.PopTo(vm, i, size).Done? {
      PopAgrees(vm, size);
      var (vm1, value) := C.Pop(vm, size).Extract();
      TargetAgrees(vm1, size, i.source, source, 2, value, false);
      if IsPlace(source) {
        PoppedAssign(OfVm(vm), OfVm(vm1), size, source, value);
      }
    }
  }

  lemma RetAgrees(vm: C.Vm, i: C.Instr, condition: R.Condition)
    requires R.ConditionFrom(i.condition) == Some(condition) && CursorAt(vm, 2)
    ensures Agree(C.Ret(vm, i), R.ExecutePlain(OfVm(vm), R.Ret, condition))
  {
    hide C.Pop, R.PopStack;
    SkipAgrees(vm, i.condition, condition);
    if C.Pop(vm, Word).Done? {
      PopAgrees(vm, Word);
    }
  }

  /** The two flag encodings are one. */
  lemma FlagsAgree(vm: C.Vm, byte: u8)
    ensures C.FlagsGet(vm) == R.FlagToByte(OfVm(vm).flag)
    ensures OfVm(C.FlagsSet(vm, byte)) == OfVm(vm).(flag := R.FlagFromByte(byte))
  {
  }

  lemma RetiAgrees(vm: C.Vm, i: C.Instr, condition: R.Condition)
    requires R.ConditionFrom(i.condition) == Some(condition) && CursorAt(vm, 2)
    ensures Agree(C.Reti(vm, i), R.ExecutePlain(OfVm(vm), R.Reti, condition))
  {
    hide C.Pop, R.PopStack, C.FlagsSet, R.FlagFromByte, R.CheckCondition, C.ShouldSkip;
    SkipAgrees(vm, i.condition, condition);
    if C.Pop(vm, Byte).Done? {
      PopAgrees(vm, Byte);
      var (vm1, flags) := C.Pop(vm, Byte).Extract();
      FlagsAgree(vm1, flags);
      var vm2 := C.FlagsSet(vm1, flags);
      if C.Pop(vm2, Word).Done? {
        PopAgrees(vm2, Word);
      }
    }
  }

  lemma SwitchAgrees(vm: C.Vm, i: C.Instr, condition: R.Condition)
    requires R.ConditionFrom(i.condition) == Some(condition) && CursorAt(vm, 2)
    ensures Agree(C.Halt(vm, i), R.ExecutePlain(OfVm(vm), R.Halt, condition))
    ensures Agree(C.SetInterrupt(vm, i, true), R.ExecutePlain(OfVm(vm), R.Ise, condition))
    ensures Agree(C.SetInterrupt(vm, i, false), R.ExecutePlain(OfVm(vm), R.Icl, condition))
  {
    SkipAgrees(vm, i.condition, condition);
  }

  // ----- ports

  /** A port read only extends the transfer log. */
  lemma AssignKeepsIo(cpu: R.State, io: seq<IoEvent>, operand: R.Operand, offset: u32, value: u32)
    requires IsPlace(operand)
    ensures
      var logged := cpu.(io := io);
      Assign(logged, Word, operand, offset, value, false)
      == if operand.Register? then
           var register := R.Read(cpu, Byte, R.At(cpu, offset));
           if register.None? then None else R.WriteRegister(logged, register.value, value)
         else
           var pointer := R.Pointer(cpu, operand, offset);
           if pointer.None? then None else R.Write(logged, Word, pointer.value, value)
  {
    hide Load, Store;
  }

  /** Port input once executed, in terms of the destination operand. */
  lemma ExecutedIn(
    cpu: R.State, condition: R.Condition, destination: R.Operand, source: R.Operand, bus: Bus,
    port: u32, offset: u32, value: u32)
    requires IsPlace(destination) && R.CheckCondition(cpu, condition) && offset <= 6
    requires R.ReadSource(cpu, source) == Some((port, offset))
    requires bus.read(cpu.io, port) == Some(value)
    ensures
      var written := Assign(cpu.(io := cpu.io + [PortRead(port, value)]), Word, destination, offset, value, false);
      R.ExecuteIn(cpu, condition, destination, source, bus)
      == if written.None? then None else Some((written.value, R.At(cpu, offset + R.OperandWidth(destination))))
  {
    hide R.ReadSource, R.CheckCondition, R.Read, R.Pointer, R.Write, Assign;
    AssignKeepsIo(cpu, cpu.io + [PortRead(port, value)], destination, offset, value);
  }

  lemma InAgrees(
    vm: C.Vm, i: C.Instr, condition: R.Condition, destination: R.Operand, source: R.Operand, bus: Bus)
    requires Decoded(i, Word, condition, destination, source) && CursorAt(vm, 2)
    requires R.CheckCondition(OfVm(vm), condition)
    ensures Agree(C.In(vm, i, bus), R.ExecuteIn(OfVm(vm), condition, destination, source, bus))
  {
    hide C.Source, C.Target, R.ReadSource, R.CheckCondition, C.ShouldSkip, Assign;
    SkipAgrees(vm, i.condition, condition);
    var cpu := OfVm(vm);
    if R.ReadSource(cpu, source).Some? && C.In(vm, i, bus).Done? {
      hide R.ExecuteIn;
      var (port, offset) := R.ReadSource(cpu, source).value;
      WordSource(vm, i.source, source);
      var (vm1, _) := C.Source(vm, Word, i.source, false).Extract();
      var value := bus.read(vm1.io, port).value;
      var io := vm1.io + [PortRead(port, value)];
      TargetAgrees(vm1.(io := io), Word, i.target, destination, offset, value, false);
      ExecutedIn(cpu, condition, destination, source, bus, port, offset, value);
    }
  }

  /** Port output, in terms of the destination operand. */
  lemma OutForm(
    cpu: R.State, condition: R.Condition, destination: R.Operand, source: R.Operand, bus: Bus, value: u32, offset: u32)
    requires IsPlace(destination) && offset <= 6
    requires R.ReadSource(cpu, source) == Some((value, offset))
    ensures
      var r := R.ExecuteOut(cpu, condition, destination, source, bus);
      var next := R.At(cpu, offset + R.OperandWidth(destination));
      && (r.Some? && !R.CheckCondition(cpu, condition) ==> r.value == (cpu, next))
      && (R.CheckCondition(cpu, condition) && Destination(cpu, Word, destination, offset).Some? ==>
           var written := R.WriteIo(cpu, Destination(cpu, Word, destination, offset).value, value, bus);
           r == if written.None? then None else Some((written.value, next)))
  {
    hide R.ReadSource, R.CheckCondition, R.Read, R.WriteIo;
  }

  lemma OutAgrees(
    vm: C.Vm, i: C.Instr, condition: R.Condition, destination: R.Operand, source: R.Operand, bus: Bus)
    requires Decoded(i, Word, condition, destination, source) && CursorAt(vm, 2)
    ensures Agree(C.Out(vm, i, bus), R.ExecuteOut(OfVm(vm), condition, destination, source, bus))
  {
    hide C.Source, R.ReadSource, R.CheckCondition, C.ShouldSkip, C.SkipParams, Destination;
    SkipAgrees(vm, i.condition, condition);
    var cpu := OfVm(vm);
    if R.ReadSource(cpu, source).Some? {
      hide R.ExecuteOut;
      ReadSourceWidth(cpu, source);
      var (value, offset) := R.ReadSource(cpu, source).value;
      OutForm(cpu, condition, destination, source, bus, value, offset);
      if !R.CheckCondition(cpu, condition) {
        SkipParamsAgrees(vm, i, Word, condition, destination, source);
      } else if C.Out(vm, i, bus).Done? {
        var (vm1, a) := C.Source(vm, Word, i.source, false).Extract();
        var (vm2, b) := C.Source(vm1, Word, i.target, false).Extract();
        ReadBothAgrees(vm, i, Word, condition, destination, source, vm1, a, vm2, b);
      }
    }
  }

  // ----- whole instructions

  /** The instructions on which the two interpreters agree when both complete,
      with the state conditions under which they do. */
  predicate Covered(cpu: R.State, instruction: R.Instruction) {
    match instruction
    case Nop => true
    case Plain(op, _) => !op.Brk?
    case One(_, _, _, _) => true
    case Two(op, size, condition, _, source) =>
      if op.Cmp? then R.CheckCondition(cpu, condition)
      else if op.Bts? then
        && R.CheckCondition(cpu, condition)
        && (R.ReadSource(cpu, source).Some? ==> R.ReadSource(cpu, source).value.0 < Width(size))
      else op.Add? || op.Sub? || op.Mul? || op.Div? || op.Rem? || op.And? || op.Or? || op.Xor?
    case Mov(_, _, _, _) => true
    case Movz(_, _, destination, _) => destination.Register?
    case Jump(op, condition, source) =>
      if op.Loop? || op.Rloop? then R.CheckCondition(cpu, condition) && !Names(cpu, source, 31) else true
    case Rta(_, destination, _) => destination.Register?
    case Push(_, _, _) => true
    case Pop(_, _, source) => source.RegisterPtr? ==> !Names(cpu, source, 32)
    case In(condition, _, _) => R.CheckCondition(cpu, condition)
    case Out(_, _, _) => true
  }

  /** What the Rust decoder accepts, the C decoder splits into the same fields. */
  lemma DecodingAgrees(half: u16)
    returns (size: Size, condition: R.Condition, destination: R.Operand, source: R.Operand)
    requires R.FromHalf(half).Some?
    ensures
      var i := C.InstrFrom(half);
      && C.SizeOf(i.size) == Some(size)
      && Decoded(i, size, condition, destination, source)
      && R.InstructionFrom(i.opcode % 64, size, condition, destination, source) == R.FromHalf(half)
  {
    hide R.InstructionFrom;
    var i := C.InstrFrom(half);
    size := R.SizeFrom(half / 0x4000 % 4).value;
    source := R.SourceFrom(half % 4, size).value;
    destination := R.DestinationFrom(half / 4 % 4, size).value;
    condition := R.ConditionFrom(half / 0x10 % 0x10).value;
    assert half / 0x10 % 8 == half / 0x10 % 0x10 by { assert half / 0x10 % 0x10 < 7; }
    assert half / 0x4000 == half / 0x4000 % 4;
    assert i.opcode % 64 == half / 0x100 % 0x40;
  }

  /** ADD, SUB and MUL, as dispatched. */
  lemma CarryOpsAgree(
    vm: C.Vm, i: C.Instr, size: Size, condition: R.Condition, destination: R.Operand, source: R.Operand,
    instruction: R.Instruction, bus: Bus)
    requires Decoded(i, size, condition, destination, source) && CursorAt(vm, 2)
    requires R.InstructionFrom(i.opcode % 64, size, condition, destination, source) == Some(instruction)
    requires Covered(OfVm(vm), instruction)
    requires i.opcode % 64 in {0x01, 0x21, 0x02}
    ensures Agree(C.DispatchSized(vm, i, size), R.ExecuteInstruction(OfVm(vm), instruction, bus))
  {
    hide Decoded, C.Halt, C.Brk, C.PopTo, C.PushFrom, C.Mov, C.Not, C.Inc, C.Add, C.And, C.Cmp, C.Bts, OfVm, CursorAt;
    hide R.ExecutePlain, R.ExecuteOne, R.ExecuteTwo, R.ExecuteMov, R.ExecuteMovz, R.ExecutePush, R.ExecutePop;
    hide R.ExecuteIn, R.ExecuteOut, R.ExecuteJump, R.ExecuteRta, R.CheckCondition, R.ReadSource, Names;
    var op := i.opcode % 64;
    if op == 0x01 {
      AddAgrees(vm, i, size, C.AddOp, R.Add, condition, destination, source);
    } else if op == 0x21 {
      AddAgrees(vm, i, size, C.SubOp, R.Sub, condition, destination, source);
    } else {
      AddAgrees(vm, i, size, C.MulOp, R.Mul, condition, destination, source);
    }
  }

  /** DIV, REM, AND, OR and XOR, as dispatched. */
  lemma ZeroOpsAgree(
    vm: C.Vm, i: C.Instr, size: Size, condition: R.Condition, destination: R.Operand, source: R.Operand,
    instruction: R.Instruction, bus: Bus)
    requires Decoded(i, size, condition, destination, source) && CursorAt(vm, 2)
    requires R.InstructionFrom(i.opcode % 64, size, condition, destination, source) == Some(instruction)
    requires Covered(OfVm(vm), instruction)
    requires i.opcode % 64 in {0x22, 0x32, 0x03, 0x23, 0x13}
    ensures Agree(C.DispatchSized(vm, i, size), R.ExecuteInstruction(OfVm(vm), instruction, bus))
  {
    hide Decoded, C.Halt, C.Brk, C.PopTo, C.PushFrom, C.Mov, C.Not, C.Inc, C.Add, C.And, C.Cmp, C.Bts, OfVm, CursorAt;
    hide R.ExecutePlain, R.ExecuteOne, R.ExecuteTwo, R.ExecuteMov, R.ExecuteMovz, R.ExecutePush, R.ExecutePop;
    hide R.ExecuteIn, R.ExecuteOut, R.ExecuteJump, R.ExecuteRta, R.CheckCondition, R.ReadSource, Names;
    var op := i.opcode % 64;
    if op == 0x22 {
      AndAgrees(vm, i, size, C.DivOp, R.Div, condition, destination, source);
    } else if op == 0x32 {
      AndAgrees(vm, i, size, C.RemOp, R.Rem, condition, destination, source);
    } else if op == 0x03 {
      AndAgrees(vm, i, size, C.AndOp, R.And, condition, destination, source);
    } else if op == 0x23 {
      AndAgrees(vm, i, size, C.XorOp, R.Xor, condition, destination, source);
    } else {
      AndAgrees(vm, i, size, C.OrOp, R.Or, condition, destination, source);
    }
  }

  /** CMP, BTS, NOT, INC and DEC, as dispatched. */
  lemma TestsAgree(
    vm: C.Vm, i: C.Instr, size: Size, condition: R.Condition, destination: R.Operand, source: R.Operand,
    instruction: R.Instruction, bus: Bus)
    requires Decoded(i, size, condition, destination, source) && CursorAt(vm, 2)
    requires R.InstructionFrom(i.opcode % 64, size, condition, destination, source) == Some(instruction)
    requires Covered(OfVm(vm), instruction)
    requires i.opcode % 64 in {0x07, 0x26, 0x33, 0x11, 0x31}
    ensures Agree(C.DispatchSized(vm, i, size), R.ExecuteInstruction(OfVm(vm), instruction, bus))
  {
    hide Decoded, C.Halt, C.Brk, C.PopTo, C.PushFrom, C.Mov, C.Not, C.Inc, C.Add, C.And, C.Cmp, C.Bts, OfVm, CursorAt;
    hide R.ExecutePlain, R.ExecuteOne, R.ExecuteTwo, R.ExecuteMov, R.ExecuteMovz, R.ExecutePush, R.ExecutePop;
    hide R.ExecuteIn, R.ExecuteOut, R.ExecuteJump, R.ExecuteRta, R.CheckCondition, R.ReadSource, Names;
    var op := i.opcode % 64;
    if op == 0x07 {
      CmpAgrees(vm, i, size, condition, destination, source);
    } else if op == 0x26 {
      BtsAgrees(vm, i, size, condition, destination, source);
    } else if op == 0x33 {
      NotAgrees(vm, i, size, condition, destination, source);
    } else if op == 0x11 {
      IncAgrees(vm, i, size, C.AddOp, R.Inc, condition, destination, source);
    } else {
      IncAgrees(vm, i, size, C.SubOp, R.Dec, condition, destination, source);
    }
  }

  /** NOP, HALT, PUSH, POP, MOV and MOVZ, as dispatched. */
  lemma MovesAgree(
    vm: C.Vm, i: C.Instr, size: Size, condition: R.Condition, destination: R.Operand, source: R.Operand,
    instruction: R.Instruction, bus: Bus)
    requires Decoded(i, size, condition, destination, source) && CursorAt(vm, 2)
    requires R.InstructionFrom(i.opcode % 64, size, condition, destination, source) == Some(instruction)
    requires Covered(OfVm(vm), instruction)
    requires i.opcode % 64 in {0x00, 0x10, 0x1A, 0x0A, 0x17, 0x27}
    ensures Agree(C.DispatchSized(vm, i, size), R.ExecuteInstruction(OfVm(vm), instruction, bus))
  {
    hide Decoded, C.Halt, C.Brk, C.PopTo, C.PushFrom, C.Mov, C.Not, C.Inc, C.Add, C.And, C.Cmp, C.Bts, OfVm, CursorAt;
    hide R.ExecutePlain, R.ExecuteOne, R.ExecuteTwo, R.ExecuteMov, R.ExecuteMovz, R.ExecutePush, R.ExecutePop;
    hide R.ExecuteIn, R.ExecuteOut, R.ExecuteJump, R.ExecuteRta, R.CheckCondition, R.ReadSource, Names;
    var op := i.opcode % 64;
    if op == 0x00 {
      NopAgrees(vm, bus);
    } else if op == 0x10 {
      DecodedCondition(i, size, condition, destination, source);
      SwitchAgrees(vm, i, condition);
    } else if op == 0x1A {
      PopToAgrees(vm, i, size, condition, destination, source);
    } else if op == 0x0A {
      PushFromAgrees(vm, i, size, condition, destination, source);
    } else if op == 0x17 {
      MovAgrees(vm, i, size, condition, destination, source, false);
    } else {
      MovAgrees(vm, i, size, condition, destination, source, true);
    }
  }

  /** Shifts, rotations, bit changes and BRK are not covered. */
  lemma UncoveredOpcode(
    op: nat, cpu: R.State, size: Size, condition: R.Condition, destination: R.Operand, source: R.Operand)
    requires op in {0x04, 0x24, 0x05, 0x15, 0x25, 0x06, 0x16, 0x20}
    ensures R.InstructionFrom(op, size, condition, destination, source).Some?
    ensures !Covered(cpu, R.InstructionFrom(op, size, condition, destination, source).value)
  {
    hide R.CheckCondition, R.ReadSource, Names;
  }

  /** Every other opcode is a word instruction, or unknown. */
  lemma OtherOpcode(op: nat, size: Size, condition: R.Condition, destination: R.Operand, source: R.Operand)
    requires op !in {0x01, 0x21, 0x02} && op !in {0x22, 0x32, 0x03, 0x23, 0x13}
    requires op !in {0x07, 0x26, 0x33, 0x11, 0x31} && op !in {0x00, 0x10, 0x1A, 0x0A, 0x17, 0x27}
    requires op !in {0x0B, 0x1B, 0x39, 0x2A, 0x3A, 0x0C, 0x1C} && op !in {0x08, 0x18, 0x28, 0x09, 0x19, 0x29}
    requires op !in {0x04, 0x24, 0x05, 0x15, 0x25, 0x06, 0x16, 0x20}
    ensures R.InstructionFrom(op, size, condition, destination, source).None?
  {
  }

  lemma WordOpcodePanics(vm: C.Vm, i: C.Instr, size: Size)
    requires i.source < 4 && i.target < 4
    requires
      || i.opcode % 64 in {0x0B, 0x1B, 0x39, 0x2A, 0x3A, 0x0C, 0x1C}
      || i.opcode % 64 in {0x08, 0x18, 0x28, 0x09, 0x19, 0x29}
    ensures C.DispatchSized(vm, i, size).Panic?
  {
    hide C.Halt, C.Brk, C.PopTo, C.PushFrom, C.Mov, C.Not, C.Inc, C.Add, C.And, C.Cmp, C.Bts;
  }

  /** Instructions with one behaviour per size. */
  lemma SizedAgrees(
    vm: C.Vm, i: C.Instr, size: Size, condition: R.Condition, destination: R.Operand, source: R.Operand,
    instruction: R.Instruction, bus: Bus)
    requires Decoded(i, size, condition, destination, source) && CursorAt(vm, 2)
    requires R.InstructionFrom(i.opcode % 64, size, condition, destination, source) == Some(instruction)
    requires Covered(OfVm(vm), instruction)
    ensures Agree(C.DispatchSized(vm, i, size), R.ExecuteInstruction(OfVm(vm), instruction, bus))
  {
    hide Decoded, OfVm, CursorAt, Covered, C.DispatchSized, R.ExecuteInstruction, R.InstructionFrom;
    var op := i.opcode % 64;
    if op in {0x01, 0x21, 0x02} {
      CarryOpsAgree(vm, i, size, condition, destination, source, instruction, bus);
    } else if op in {0x22, 0x32, 0x03, 0x23, 0x13} {
      ZeroOpsAgree(vm, i, size, condition, destination, source, instruction, bus);
    } else if op in {0x07, 0x26, 0x33, 0x11, 0x31} {
      TestsAgree(vm, i, size, condition, destination, source, instruction, bus);
    } else if op in {0x00, 0x10, 0x1A, 0x0A, 0x17, 0x27} {
      MovesAgree(vm, i, size, condition, destination, source, instruction, bus);
    } else {
      if op in {0x04, 0x24, 0x05, 0x15, 0x25, 0x06, 0x16, 0x20} {
        UncoveredOpcode(op, OfVm(vm), size, condition, destination, source);
      } else if op !in {0x0B, 0x1B, 0x39, 0x2A, 0x3A, 0x0C, 0x1C} && op !in {0x08, 0x18, 0x28, 0x09, 0x19, 0x29} {
        OtherOpcode(op, size, condition, destination, source);
      }
      DecodedFields(i, size, condition, destination, source);
      WordOpcodePanics(vm, i, size);
    }
  }

  lemma NopAgrees(vm: C.Vm, bus: Bus)
    requires CursorAt(vm, 2)
    ensures Agree(C.Done(vm, ()), R.ExecuteInstruction(OfVm(vm), R.Nop, bus))
  {
  }

  lemma DecodedFields(
    i: C.Instr, size: Size, condition: R.Condition, destination: R.Operand, source: R.Operand)
    requires Decoded(i, size, condition, destination, source)
    ensures i.source < 4 && i.target < 4 && IsPlace(destination)
  {
  }

  lemma DecodedCondition(
    i: C.Instr, size: Size, condition: R.Condition, destination: R.Operand, source: R.Operand)
    requires Decoded(i, size, condition, destination, source)
    ensures R.ConditionFrom(i.condition) == Some(condition)
  {
  }

  /** IN, OUT and RTA, as dispatched. */
  lemma PortsAgree(
    vm: C.Vm, i: C.Instr, condition: R.Condition, destination: R.Operand, source: R.Operand,
    instruction: R.Instruction, bus: Bus)
    requires Decoded(i, Word, condition, destination, source) && CursorAt(vm, 2) && C.SizeOf(i.size) == Some(Word)
    requires R.InstructionFrom(i.opcode % 64, Word, condition, destination, source) == Some(instruction)
    requires Covered(OfVm(vm), instruction)
    requires i.opcode % 64 in {0x0B, 0x1B, 0x39}
    ensures Agree(C.Dispatch(vm, i, vm.pointerInstr, bus), R.ExecuteInstruction(OfVm(vm), instruction, bus))
  {
    hide Decoded, OfVm, CursorAt, Agree;
    hide C.In, C.Out, C.Rta, C.Ret, C.Reti, C.SetInterrupt, C.Jmp, C.Call, C.Loop, C.DispatchSized;
    hide R.ExecutePlain, R.ExecuteIn, R.ExecuteOut, R.ExecuteJump, R.ExecuteRta, R.CheckCondition, R.ReadSource, Names;
    if i.opcode % 64 == 0x0B {
      InAgrees(vm, i, condition, destination, source, bus);
    } else if i.opcode % 64 == 0x1B {
      OutAgrees(vm, i, condition, destination, source, bus);
    } else {
      RtaAgrees(vm, i, condition, destination, source);
    }
  }

  /** RET, RETI, ISE and ICL, as dispatched. */
  lemma ReturnsAgree(
    vm: C.Vm, i: C.Instr, condition: R.Condition, destination: R.Operand, source: R.Operand,
    instruction: R.Instruction, bus: Bus)
    requires Decoded(i, Word, condition, destination, source) && CursorAt(vm, 2) && C.SizeOf(i.size) == Some(Word)
    requires R.InstructionFrom(i.opcode % 64, Word, condition, destination, source) == Some(instruction)
    requires Covered(OfVm(vm), instruction)
    requires i.opcode % 64 in {0x2A, 0x3A, 0x0C, 0x1C}
    ensures Agree(C.Dispatch(vm, i, vm.pointerInstr, bus), R.ExecuteInstruction(OfVm(vm), instruction, bus))
  {
    hide Decoded, OfVm, CursorAt, Agree;
    hide C.In, C.Out, C.Rta, C.Ret, C.Reti, C.SetInterrupt, C.Jmp, C.Call, C.Loop, C.DispatchSized;
    hide R.ExecutePlain, R.ExecuteIn, R.ExecuteOut, R.ExecuteJump, R.ExecuteRta, R.CheckCondition, R.ReadSource, Names;
    DecodedCondition(i, Word, condition, destination, source);
    if i.opcode % 64 == 0x2A {
      RetAgrees(vm, i, condition);
    } else if i.opcode % 64 == 0x3A {
      RetiAgrees(vm, i, condition);
    } else {
      SwitchAgrees(vm, i, condition);
    }
  }

  /** JMP, CALL, LOOP and their relative forms, as dispatched. */
  lemma JumpsAgree(
    vm: C.Vm, i: C.Instr, condition: R.Condition, destination: R.Operand, source: R.Operand,
    instruction: R.Instruction, bus: Bus)
    requires Decoded(i, Word, condition, destination, source) && CursorAt(vm, 2) && C.SizeOf(i.size) == Some(Word)
    requires R.InstructionFrom(i.opcode % 64, Word, condition, destination, source) == Some(instruction)
    requires Covered(OfVm(vm), instruction)
    requires i.opcode % 64 in {0x08, 0x18, 0x28, 0x09, 0x19, 0x29}
    ensures Agree(C.Dispatch(vm, i, vm.pointerInstr, bus), R.ExecuteInstruction(OfVm(vm), instruction, bus))
  {
    hide Decoded, OfVm, CursorAt, C.In, C.Out, C.Rta, C.Ret, C.Reti, C.SetInterrupt, C.Jmp, C.Call, C.Loop;
    hide C.DispatchSized;
    hide R.ExecutePlain, R.ExecuteIn, R.ExecuteOut, R.ExecuteJump, R.ExecuteRta, R.CheckCondition, R.ReadSource, Names;
    var op := i.opcode % 64;
    var base := vm.pointerInstr;
    if op == 0x08 {
      JmpAgrees(vm, i, 0, R.Jmp, condition, destination, source);
    } else if op == 0x18 {
      CallAgrees(vm, i, 0, R.Call, condition, destination, source);
    } else if op == 0x28 {
      LoopAgrees(vm, i, 0, R.Loop, condition, destination, source);
    } else if op == 0x09 {
      JmpAgrees(vm, i, base, R.Rjmp, condition, destination, source);
    } else if op == 0x19 {
      CallAgrees(vm, i, base, R.Rcall, condition, destination, source);
    } else {
      LoopAgrees(vm, i, base, R.Rloop, condition, destination, source);
    }
  }

  lemma WordAgrees(
    vm: C.Vm, i: C.Instr, condition: R.Condition, destination: R.Operand, source: R.Operand,
    instruction: R.Instruction, bus: Bus)
    requires Decoded(i, Word, condition, destination, source) && CursorAt(vm, 2) && C.SizeOf(i.size) == Some(Word)
    requires R.InstructionFrom(i.opcode % 64, Word, condition, destination, source) == Some(instruction)
    requires Covered(OfVm(vm), instruction)
    ensures Agree(C.Dispatch(vm, i, vm.pointerInstr, bus), R.ExecuteInstruction(OfVm(vm), instruction, bus))
  {
    hide Decoded, OfVm, CursorAt, Covered, C.DispatchSized, R.ExecuteInstruction, R.InstructionFrom;
    var op := i.opcode % 64;
    if op in {0x0B, 0x1B, 0x39} {
      PortsAgree(vm, i, condition, destination, source, instruction, bus);
    } else if op in {0x2A, 0x3A, 0x0C, 0x1C} {
      ReturnsAgree(vm, i, condition, destination, source, instruction, bus);
    } else if op in {0x08, 0x18, 0x28, 0x09, 0x19, 0x29} {
      JumpsAgree(vm, i, condition, destination, source, instruction, bus);
    } else {
      SizedAgrees(vm, i, Word, condition, destination, source, instruction, bus);
    }
  }

  /** Word-only instructions do not exist in C at other sizes. */
  lemma NarrowAgrees(
    vm: C.Vm, i: C.Instr, size: Size, condition: R.Condition, destination: R.Operand, source: R.Operand,
    instruction: R.Instruction, bus: Bus)
    requires Decoded(i, size, condition, destination, source) && CursorAt(vm, 2)
    requires C.SizeOf(i.size) == Some(size) && !size.Word?
    requires R.InstructionFrom(i.opcode % 64, size, condition, destination, source) == Some(instruction)
    requires Covered(OfVm(vm), instruction)
    ensures Agree(C.Dispatch(vm, i, vm.pointerInstr, bus), R.ExecuteInstruction(OfVm(vm), instruction, bus))
  {
    hide Covered, R.InstructionFrom, C.DispatchSized, Decoded, R.ExecuteInstruction, CursorAt;
    SizedAgrees(vm, i, size, condition, destination, source, instruction, bus);
  }

  /** The instruction the Rust interpreter would execute next. */
  function Next(cpu: R.State): Option<R.Instruction> {
    var half :- R.Read(cpu, Half, cpu.instructionPointer);
    R.FromHalf(half)
  }

  /** One step: from the same state, when both interpreters complete a covered
      instruction they reach the same state. */
  lemma StepAgrees(vm: C.Vm, bus: Bus)
    requires C.Execute(vm, bus).Done? && R.ExecuteMemoryInstruction(OfVm(vm), bus).Some?
    requires Covered(OfVm(vm), Next(OfVm(vm)).value)
    ensures R.ExecuteMemoryInstruction(OfVm(vm), bus) == Some(OfVm(C.Execute(vm, bus).vm))
  {
    hide C.Execute, R.ExecuteMemoryInstruction, C.Dispatch, R.ExecuteInstruction, Next, Covered, Agree;
    var raw, half := CoreStepForm(vm, bus);
    CpuStepForm(OfVm(vm), bus);
    ReadAgrees(vm, Half, vm.pointerInstr);
    DispatchAgrees(vm.(pointerInstrMut := Add32(vm.pointerInstr, 2)), half, bus);
    AgreeIs(vm, raw, R.ExecuteInstruction(OfVm(vm), Next(OfVm(vm)).value, bus));
  }

  /** A completing C step fetches, dispatches and advances. */
  lemma CoreStepForm(vm: C.Vm, bus: Bus) returns (o: C.Outcome<()>, half: u16)
    requires C.Execute(vm, bus).Done?
    ensures C.Read(vm, Half, vm.pointerInstr) == C.Done(vm, half)
    ensures
      o == C.Dispatch(vm.(pointerInstrMut := Add32(vm.pointerInstr, 2)), C.InstrFrom(half), vm.pointerInstr, bus)
    ensures o.Done? && C.Execute(vm, bus) == C.Done(o.vm.(pointerInstr := o.vm.pointerInstrMut), ())
  {
    hide C.Read, C.InstrFrom, C.Dispatch;
    half := C.Read(vm, Half, vm.pointerInstr).value;
    o := C.Dispatch(vm.(pointerInstrMut := Add32(vm.pointerInstr, 2)), C.InstrFrom(half), vm.pointerInstr, bus);
  }

  /** So does a Rust step. */
  lemma CpuStepForm(cpu: R.State, bus: Bus)
    requires R.ExecuteMemoryInstruction(cpu, bus).Some?
    ensures
      var half := R.Read(cpu, Half, cpu.instructionPointer);
      && half.Some? && R.FromHalf(half.value).Some? && Next(cpu) == R.FromHalf(half.value)
      && var r := R.ExecuteInstruction(cpu, Next(cpu).value, bus);
      && r.Some?
      && R.ExecuteMemoryInstruction(cpu, bus) == Some(r.value.0.(instructionPointer := r.value.1))
  {
    hide R.Read, R.FromHalf, R.ExecuteInstruction;
  }

  lemma AgreeIs(vm: C.Vm, o: C.Outcome<()>, r: Option<(R.State, u32)>)
    requires o.Done? && r.Some? && Agree(o, r)
    ensures OfVm(o.vm.(pointerInstr := o.vm.pointerInstrMut)) == r.value.0.(instructionPointer := r.value.1)
  {
  }

  lemma DispatchAgrees(vm: C.Vm, half: u16, bus: Bus)
    requires CursorAt(vm, 2) && R.FromHalf(half).Some? && Covered(OfVm(vm), R.FromHalf(half).value)
    ensures
      C.InstrFrom(half).source < 4 && C.InstrFrom(half).target < 4
    ensures
      Agree(
        C.Dispatch(vm, C.InstrFrom(half), vm.pointerInstr, bus),
        R.ExecuteInstruction(OfVm(vm), R.FromHalf(half).value, bus))
  {
    hide C.Dispatch, R.ExecuteInstruction, R.FromHalf, Covered, C.InstrFrom, R.InstructionFrom, Decoded, C.SizeOf,
      CursorAt, OfVm, Agree;
    var i := C.InstrFrom(half);
    var size, condition, destination, source := DecodingAgrees(half);
    var instruction := R.FromHalf(half).value;
    if size.Word? {
      WordAgrees(vm, i, condition, destination, source, instruction, bus);
    } else {
      NarrowAgrees(vm, i, size, condition, destination, source, instruction, bus);
    }
  }

  // ----- whole runs

  /** The C interpreter runs n instructions, or until halted; None if one fails. */
  function CoreRun(vm: C.Vm, n: nat, bus: Bus): Option<C.Vm>
    decreases n
  {
    if n == 0 || vm.halted then Some(vm)
    else
      match C.Execute(vm, bus)
      case Done(vm', _) => CoreRun(vm', n - 1, bus)
      case _ => None
  }

  /** The Rust interpreter runs n instructions, or until halted. */
  function CpuRun(cpu: R.State, n: nat, bus: Bus): Option<R.State>
    decreases n
  {
    if n == 0 || cpu.halted then Some(cpu)
    else
      var cpu' :- R.ExecuteMemoryInstruction(cpu, bus);
      CpuRun(cpu', n - 1, bus)
  }

  /** Every instruction the run executes is covered. */
  predicate CoveredRun(cpu: R.State, n: nat, bus: Bus)
    decreases n
  {
    n == 0 || cpu.halted ||
    (Next(cpu).Some? && Covered(cpu, Next(cpu).value) &&
     var cpu' := R.ExecuteMemoryInstruction(cpu, bus);
     cpu'.Some? ==> CoveredRun(cpu'.value, n - 1, bus))
  }

  /** Lock-step: for every state and every number of steps, when both complete a
      covered run from the same state they end in the same state. */
  lemma {:induction false} RunsAgree(vm: C.Vm, n: nat, bus: Bus)
    requires CoreRun(vm, n, bus).Some? && CpuRun(OfVm(vm), n, bus).Some?
    requires CoveredRun(OfVm(vm), n, bus)
    ensures CpuRun(OfVm(vm), n, bus) == Some(OfVm(CoreRun(vm, n, bus).value))
    decreases n
  {
    hide C.Execute, R.ExecuteMemoryInstruction, Covered, Next;
    if n != 0 && !vm.halted {
      StepAgrees(vm, bus);
      RunsAgree(C.Execute(vm, bus).vm, n - 1, bus);
    }
  }
}
