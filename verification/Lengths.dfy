/** One instruction length everywhere: the C execute path, the C skip path and the
    Rust executed and not-executed paths all advance by the encoded length. */
module Lengths {
  import opened Words
  import opened Arithmetic
  import opened Memory
  import C = Core
  import R = Cpu
  import L = Lockstep

  /** How many operands an opcode takes; None for an unknown opcode. */
  function OperandCount(opcode: nat): Option<nat> {
    if opcode in {0x00, 0x10, 0x20, 0x2A, 0x3A, 0x0C, 0x1C} then Some(0)
    else if opcode in {0x11, 0x31, 0x33, 0x08, 0x18, 0x28, 0x09, 0x19, 0x29, 0x0A, 0x1A} then Some(1)
    else if opcode in {0x01, 0x21, 0x02, 0x22, 0x32, 0x03, 0x13, 0x23, 0x0D, 0x2D, 0x3D} then Some(2)
    else if opcode in {0x04, 0x05, 0x15, 0x24, 0x25, 0x06, 0x16, 0x26, 0x07, 0x17, 0x27, 0x39, 0x0B, 0x1B} then Some(2)
    else None
  }

  /** The length of an instruction: the opcode half, then the source operand, then
      the destination operand. */
  function Length(opcode: nat, size: Size, source: u8, target: u8): Option<u32> {
    var count :- OperandCount(opcode);
    Some(2
      + (if count >= 1 then C.OperandBytes(size, source) else 0)
      + (if count >= 2 then C.OperandBytes(size, target) else 0))
  }

  // ----- C

  /** The cursor has moved by n bytes. */
  ghost predicate Moved<T>(vm: C.Vm, o: C.Outcome<T>, n: u32) {
    o.Done? ==> o.vm.pointerInstrMut == Add32(vm.pointerInstrMut, n)
  }

  lemma SourceMoves(vm: C.Vm, size: Size, prtype: u8)
    requires prtype < 4
    ensures Moved(vm, C.Source(vm, size, prtype, false), C.OperandBytes(size, prtype))
    ensures Moved(vm, C.Source(vm, size, prtype, true), 0)
  {
    hide C.Read, C.GetLocal, Trunc;
  }

  lemma TargetMoves(vm: C.Vm, size: Size, prtype: u8, value: u32, zero: bool)
    requires prtype < 4 && value < Modulus(size)
    ensures Moved(vm, C.Target(vm, size, prtype, value, zero), C.OperandBytes(size, prtype))
  {
    hide C.Read, C.GetLocal, C.FindMemory, Merge;
  }

  lemma StackStays(vm: C.Vm, size: Size, value: u32)
    ensures Moved(vm, C.Push(vm, size, value), 0)
    ensures Moved(vm, C.Pop(vm, size), 0)
  {
    hide C.FindMemory, Fetch, Store;
  }

  function Both(size: Size, i: C.Instr): u32 {
    C.OperandBytes(size, i.source) + C.OperandBytes(size, i.target)
  }

  lemma AddMoves(vm: C.Vm, i: C.Instr, size: Size, op: C.CarryOp)
    requires i.source < 4 && i.target < 4
    ensures Moved(vm, C.Add(vm, i, size, op), Both(size, i))
  {
    hide C.Source, C.Target, C.ShouldSkip, C.Checked;
    if C.Add(vm, i, size, op).Done? && C.ShouldSkip(vm, i.condition) == C.Done(vm, false) {
      var s := C.Source(vm, size, i.source, false);
      SourceMoves(vm, size, i.source);
      var b := C.Source(s.vm, size, i.target, true);
      SourceMoves(s.vm, size, i.target);
      var (x, overflow) := C.Checked(op, size, b.value, s.value);
      TargetMoves(b.vm.(flagCarry := overflow, flagZero := x == 0), size, i.target, x, false);
    }
  }

  lemma AndMoves(vm: C.Vm, i: C.Instr, size: Size, op: C.ZeroOp)
    requires i.source < 4 && i.target < 4
    ensures Moved(vm, C.And(vm, i, size, op), Both(size, i))
  {
    hide C.Source, C.Target, C.ShouldSkip, C.Unchecked;
    if C.And(vm, i, size, op).Done? && C.ShouldSkip(vm, i.condition) == C.Done(vm, false) {
      var s := C.Source(vm, size, i.source, false);
      SourceMoves(vm, size, i.source);
      var b := C.Source(s.vm, size, i.target, true);
      SourceMoves(s.vm, size, i.target);
      var x := C.Unchecked(op, size, b.value, s.value).value;
      TargetMoves(b.vm.(flagZero := x == 0), size, i.target, x, false);
    }
  }

  lemma MovMoves(vm: C.Vm, i: C.Instr, size: Size, zero: bool)
    requires i.source < 4 && i.target < 4
    ensures Moved(vm, C.Mov(vm, i, size, zero), Both(size, i))
  {
    hide C.Source, C.Target, C.ShouldSkip;
    if C.Mov(vm, i, size, zero).Done? && C.ShouldSkip(vm, i.condition) == C.Done(vm, false) {
      var s := C.Source(vm, size, i.source, false);
      SourceMoves(vm, size, i.source);
      TargetMoves(s.vm, size, i.target, s.value, zero);
    }
  }

  lemma TestsMove(vm: C.Vm, i: C.Instr, size: Size)
    requires i.source < 4 && i.target < 4
    ensures
      Moved(vm, C.Cmp(vm, i, size), Both(size, i)) && Moved(vm, C.Bts(vm, i, size), Both(size, i))
  {
    hide C.Source, C.Checked, Bit, BitAnd;
    var s := C.Source(vm, size, i.source, false);
    SourceMoves(vm, size, i.source);
    if s.Done? {
      SourceMoves(s.vm, size, i.target);
    }
  }

  lemma NotMoves(vm: C.Vm, i: C.Instr, size: Size)
    requires i.source < 4 && i.target < 4
    ensures Moved(vm, C.Not(vm, i, size), C.OperandBytes(size, i.source))
  {
    hide C.Source, C.Target, C.ShouldSkip;
    if C.Not(vm, i, size).Done? && C.ShouldSkip(vm, i.condition) == C.Done(vm, false) {
      var s := C.Source(vm, size, i.source, true);
      SourceMoves(vm, size, i.source);
      var x := BitNot(size, s.value);
      TargetMoves(s.vm.(flagZero := x == 0), size, i.source, x, false);
    }
  }

  lemma IncMoves(vm: C.Vm, i: C.Instr, size: Size, op: C.CarryOp)
    requires i.source < 4 && i.target < 4
    ensures Moved(vm, C.Inc(vm, i, size, op), C.OperandBytes(size, i.source))
  {
    hide C.Source, C.Target, C.ShouldSkip, C.Checked;
    if C.Inc(vm, i, size, op).Done? && C.ShouldSkip(vm, i.condition) == C.Done(vm, false) {
      var s := C.Source(vm, size, i.source, true);
      SourceMoves(vm, size, i.source);
      var (x, overflow) := C.Checked(op, size, s.value, 1);
      TargetMoves(s.vm.(flagCarry := overflow, flagZero := x == 0), size, i.source, x, false);
    }
  }

  lemma PushMoves(vm: C.Vm, i: C.Instr, size: Size)
    requires i.source < 4 && i.target < 4
    ensures Moved(vm, C.PushFrom(vm, i, size), C.OperandBytes(size, i.source))
  {
    hide C.Source, C.ShouldSkip, C.Push;
    if C.PushFrom(vm, i, size).Done? && C.ShouldSkip(vm, i.condition) == C.Done(vm, false) {
      var s := C.Source(vm, size, i.source, false);
      SourceMoves(vm, size, i.source);
      StackStays(s.vm, size, s.value);
    }
  }

  lemma PopMoves(vm: C.Vm, i: C.Instr, size: Size)
    requires i.source < 4 && i.target < 4
    ensures Moved(vm, C.PopTo(vm, i, size), C.OperandBytes(size, i.source))
  {
    hide C.Target, C.ShouldSkip, C.Pop;
    if C.PopTo(vm, i, size).Done? && C.ShouldSkip(vm, i.condition) == C.Done(vm, false) {
      var p := C.Pop(vm, size);
      StackStays(vm, size, 0);
      TargetMoves(p.vm, size, i.source, p.value, false);
    }
  }

  lemma InMoves(vm: C.Vm, i: C.Instr, bus: Bus)
    requires i.source < 4 && i.target < 4
    ensures Moved(vm, C.In(vm, i, bus), Both(Word, i))
  {
    hide C.Source, C.Target, C.ShouldSkip;
    if C.In(vm, i, bus).Done? && C.ShouldSkip(vm, i.condition) == C.Done(vm, false) {
      var s := C.Source(vm, Word, i.source, false);
      SourceMoves(vm, Word, i.source);
      var value := bus.read(s.vm.io, s.value).value;
      TargetMoves(s.vm.(io := s.vm.io + [PortRead(s.value, value)]), Word, i.target, value, false);
    }
  }

  lemma OutMoves(vm: C.Vm, i: C.Instr, bus: Bus)
    requires i.source < 4 && i.target < 4
    ensures Moved(vm, C.Out(vm, i, bus), Both(Word, i))
  {
    hide C.Source, C.ShouldSkip;
    if C.Out(vm, i, bus).Done? && C.ShouldSkip(vm, i.condition) == C.Done(vm, false) {
      SourceMoves(vm, Word, i.source);
      SourceMoves(C.Source(vm, Word, i.source, false).vm, Word, i.target);
    }
  }

  lemma RtaMoves(vm: C.Vm, i: C.Instr, base: u32)
    requires i.source < 4 && i.target < 4
    ensures Moved(vm, C.Rta(vm, i, base), Both(Word, i))
  {
    hide C.Source, C.Target, C.ShouldSkip;
    if C.Rta(vm, i, base).Done? && C.ShouldSkip(vm, i.condition) == C.Done(vm, false) {
      var s := C.Source(vm, Word, i.source, false);
      SourceMoves(vm, Word, i.source);
      TargetMoves(s.vm, Word, i.target, Add32(base, s.value), false);
    }
  }

  /** The instruction hands control elsewhere. */
  predicate CoreTransfers(vm: C.Vm, opcode: nat, condition: u8) {
    var runs := C.ShouldSkip(vm, condition) == C.Done(vm, false);
    || (opcode in {0x08, 0x18, 0x09, 0x19, 0x2A, 0x3A} && runs)
    || (opcode in {0x28, 0x29} && runs && vm.registers[31] != 1)
  }

  lemma TransfersMove(vm: C.Vm, i: C.Instr, base: u32)
    requires i.source < 4 && i.target < 4
    requires !CoreTransfers(vm, i.opcode % 64, i.condition)
    ensures i.opcode % 64 in {0x08, 0x09} ==> Moved(vm, C.Jmp(vm, i, base), C.OperandBytes(Word, i.source))
    ensures i.opcode % 64 in {0x18, 0x19} ==> Moved(vm, C.Call(vm, i, base), C.OperandBytes(Word, i.source))
    ensures i.opcode % 64 in {0x28, 0x29} ==> Moved(vm, C.Loop(vm, i, base), C.OperandBytes(Word, i.source))
    ensures i.opcode % 64 == 0x2A ==> Moved(vm, C.Ret(vm, i), 0)
    ensures i.opcode % 64 == 0x3A ==> Moved(vm, C.Reti(vm, i), 0)
  {
    hide C.Source, C.Push, C.Pop;
  }

  lemma PlainMoves(vm: C.Vm, i: C.Instr, enabled: bool)
    ensures Moved(vm, C.Halt(vm, i), 0) && Moved(vm, C.Brk(vm, i), 0) && Moved(vm, C.SetInterrupt(vm, i, enabled), 0)
  {
    hide C.ShouldSkip;
  }

  lemma NoMove(vm: C.Vm)
    ensures Moved(vm, C.Done(vm, ()), 0)
  {
  }

  /** The additions and multiplications, as dispatched. */
  lemma CarryOpsMove(vm: C.Vm, i: C.Instr, size: Size)
    requires i.source < 4 && i.target < 4 && C.DispatchSized(vm, i, size).Done?
    requires i.opcode % 64 in {0x01, 0x21, 0x02, 0x0D, 0x11, 0x31}
    ensures
      var n := Length(i.opcode % 64, size, i.source, i.target);
      n.Some? && Moved(vm, C.DispatchSized(vm, i, size), n.value - 2)
  {
    hide C.Inc, C.Add, Moved;
    AddMoves(vm, i, size, C.AddOp);
    AddMoves(vm, i, size, C.SubOp);
    AddMoves(vm, i, size, C.MulOp);
    AddMoves(vm, i, size, C.IMulOp);
    IncMoves(vm, i, size, C.AddOp);
    IncMoves(vm, i, size, C.SubOp);
  }

  /** Division, bitwise operations, shifts and rotations, as dispatched. */
  lemma ZeroOpsMove(vm: C.Vm, i: C.Instr, size: Size)
    requires i.source < 4 && i.target < 4 && C.DispatchSized(vm, i, size).Done?
    requires i.opcode % 64 in {
      0x22, 0x32, 0x2D, 0x3D, 0x03, 0x23, 0x13, 0x04, 0x15, 0x05, 0x24, 0x25, 0x06, 0x16}
    ensures
      var n := Length(i.opcode % 64, size, i.source, i.target);
      n.Some? && Moved(vm, C.DispatchSized(vm, i, size), n.value - 2)
  {
    hide C.And, Moved;
    forall z
      ensures Moved(vm, C.And(vm, i, size, z), Both(size, i))
    {
      AndMoves(vm, i, size, z);
    }
  }

  lemma OtherSizedMove(vm: C.Vm, i: C.Instr, size: Size)
    requires i.source < 4 && i.target < 4 && C.DispatchSized(vm, i, size).Done?
    requires i.opcode % 64 !in {
      0x22, 0x32, 0x2D, 0x3D, 0x03, 0x23, 0x13, 0x04, 0x15, 0x05, 0x24, 0x25, 0x06, 0x16}
    requires i.opcode % 64 !in {0x01, 0x21, 0x02, 0x0D, 0x11, 0x31}
    ensures
      var n := Length(i.opcode % 64, size, i.source, i.target);
      n.Some? && Moved(vm, C.DispatchSized(vm, i, size), n.value - 2)
  {
    hide C.Halt, C.Brk, C.PopTo, C.PushFrom, C.Mov, C.Not, C.Cmp, C.Bts, Moved;
    NoMove(vm);
    MovMoves(vm, i, size, false);
    MovMoves(vm, i, size, true);
    NotMoves(vm, i, size);
    PushMoves(vm, i, size);
    PopMoves(vm, i, size);
    TestsMove(vm, i, size);
    PlainMoves(vm, i, false);
  }

  lemma SizedMoves(vm: C.Vm, i: C.Instr, size: Size)
    requires i.source < 4 && i.target < 4
    requires C.DispatchSized(vm, i, size).Done?
    ensures
      var n := Length(i.opcode % 64, size, i.source, i.target);
      n.Some? && Moved(vm, C.DispatchSized(vm, i, size), n.value - 2)
  {
    hide C.DispatchSized, Length, Moved;
    if i.opcode % 64 in {0x22, 0x32, 0x2D, 0x3D, 0x03, 0x23, 0x13, 0x04, 0x15, 0x05, 0x24, 0x25, 0x06, 0x16} {
      ZeroOpsMove(vm, i, size);
    } else if i.opcode % 64 in {0x01, 0x21, 0x02, 0x0D, 0x11, 0x31} {
      CarryOpsMove(vm, i, size);
    } else {
      OtherSizedMove(vm, i, size);
    }
  }

  lemma DispatchMoves(vm: C.Vm, i: C.Instr, base: u32, bus: Bus)
    requires i.source < 4 && i.target < 4
    requires C.Dispatch(vm, i, base, bus).Done? && !CoreTransfers(vm, i.opcode % 64, i.condition)
    ensures C.SizeOf(i.size).Some?
    ensures
      var n := Length(i.opcode % 64, C.SizeOf(i.size).value, i.source, i.target);
      n.Some? && Moved(vm, C.Dispatch(vm, i, base, bus), n.value - 2)
  {
    hide CoreTransfers, C.In, C.Out, C.Rta, C.Ret, C.Reti, C.SetInterrupt, C.Jmp, C.Call, C.Loop, C.DispatchSized;
    var size := C.SizeOf(i.size).value;
    if C.DispatchSized(vm, i, size).Done? {
      SizedMoves(vm, i, size);
    }
    InMoves(vm, i, bus);
    OutMoves(vm, i, bus);
    RtaMoves(vm, i, base);
    PlainMoves(vm, i, true);
    PlainMoves(vm, i, false);
    TransfersMove(vm, i, 0);
    TransfersMove(vm, i, base);
  }

  /** The C interpreter advances by the encoded length, executed or skipped. */
  lemma CoreAdvancesByLength(vm: C.Vm, bus: Bus)
    requires C.Execute(vm, bus).Done?
    ensures C.Read(vm, Half, vm.pointerInstr).Done?
    ensures
      var i := C.InstrFrom(C.Read(vm, Half, vm.pointerInstr).value);
      !CoreTransfers(vm, i.opcode % 64, i.condition) ==>
        && C.SizeOf(i.size).Some?
        && Length(i.opcode % 64, C.SizeOf(i.size).value, i.source, i.target).Some?
        && C.Execute(vm, bus).vm.pointerInstr
           == Add32(vm.pointerInstr, Length(i.opcode % 64, C.SizeOf(i.size).value, i.source, i.target).value)
  {
    hide C.Read, C.Dispatch, C.InstrFrom, CoreTransfers, Length, C.SizeOf;
    var i := C.InstrFrom(C.Read(vm, Half, vm.pointerInstr).value);
    var vm1 := vm.(pointerInstrMut := Add32(vm.pointerInstr, 2));
    TransfersIgnoreCursor(vm, vm1, i.opcode % 64, i.condition);
    if !CoreTransfers(vm, i.opcode % 64, i.condition) {
      DispatchMoves(vm1, i, vm.pointerInstr, bus);
    }
  }

  lemma TransfersIgnoreCursor(vm: C.Vm, vm1: C.Vm, opcode: nat, condition: u8)
    requires vm1 == vm.(pointerInstrMut := vm1.pointerInstrMut)
    ensures CoreTransfers(vm1, opcode, condition) == CoreTransfers(vm, opcode, condition)
  {
    assert C.ShouldSkip(vm1, condition).Done? == C.ShouldSkip(vm, condition).Done?;
  }

  // ----- Rust

  /** The encoded length of a decoded instruction. */
  function DecodedLength(instruction: R.Instruction): u32 {
    match instruction
    case Nop => 2
    case Plain(_, _) => 2
    case One(_, _, _, source) => 2 + R.OperandWidth(source)
    case Two(_, _, _, destination, source) => 2 + R.OperandWidth(source) + R.OperandWidth(destination)
    case Mov(_, _, destination, source) => 2 + R.OperandWidth(source) + R.OperandWidth(destination)
    case Movz(_, _, destination, source) => 2 + R.OperandWidth(source) + R.OperandWidth(destination)
    case Jump(_, _, source) => 2 + R.OperandWidth(source)
    case Rta(_, destination, source) => 2 + R.OperandWidth(source) + R.OperandWidth(destination)
    case Push(_, _, source) => 2 + R.OperandWidth(source)
    case Pop(_, _, source) => 2 + R.OperandWidth(source)
    case In(_, destination, source) => 2 + R.OperandWidth(source) + R.OperandWidth(destination)
    case Out(_, destination, source) => 2 + R.OperandWidth(source) + R.OperandWidth(destination)
  }

  /** What the Rust decoder accepts has the same length as its C fields say. */
  lemma DecodersAgreeOnLength(half: u16)
    requires R.FromHalf(half).Some?
    ensures
      var i := C.InstrFrom(half);
      && C.SizeOf(i.size).Some?
      && Length(i.opcode % 64, C.SizeOf(i.size).value, i.source, i.target)
         == Some(DecodedLength(R.FromHalf(half).value))
  {
    hide R.FromHalf, C.InstrFrom, L.Decoded, R.InstructionFrom, Length, DecodedLength;
    var i := C.InstrFrom(half);
    var size, condition, destination, source := L.DecodingAgrees(half);
    L.DecodedFields(i, size, condition, destination, source);
    OperandBytesAgree(i, size, condition, destination, source);
    OpcodeLength(i.opcode % 64, size, i.source, i.target, condition, destination, source);
  }

  lemma PlainOpcode(opcode: nat, size: Size, condition: R.Condition, destination: R.Operand, source: R.Operand)
    requires opcode in {0x00, 0x10, 0x20, 0x2A, 0x3A, 0x0C, 0x1C}
    ensures R.InstructionFrom(opcode, size, condition, destination, source).Some?
    ensures
      DecodedLength(R.InstructionFrom(opcode, size, condition, destination, source).value)
      == 2
    ensures OperandCount(opcode) == Some(0)
  {
  }

  lemma OneOpcode(opcode: nat, size: Size, condition: R.Condition, destination: R.Operand, source: R.Operand)
    requires opcode in {0x11, 0x31, 0x33, 0x08, 0x18, 0x28, 0x09, 0x19, 0x29, 0x0A, 0x1A}
    ensures R.InstructionFrom(opcode, size, condition, destination, source).Some?
    ensures
      DecodedLength(R.InstructionFrom(opcode, size, condition, destination, source).value)
      == 2 + R.OperandWidth(source)
    ensures OperandCount(opcode) == Some(1)
  {
  }

  lemma TwoOpcode(opcode: nat, size: Size, condition: R.Condition, destination: R.Operand, source: R.Operand)
    requires opcode in {0x01, 0x21, 0x02, 0x22, 0x32, 0x03, 0x13, 0x23, 0x0D, 0x2D, 0x3D}
    requires R.InstructionFrom(opcode, size, condition, destination, source).Some?
    ensures
      DecodedLength(R.InstructionFrom(opcode, size, condition, destination, source).value)
      == 2 + R.OperandWidth(source) + R.OperandWidth(destination)
    ensures OperandCount(opcode) == Some(2)
  {
  }

  lemma OtherTwoOpcode(opcode: nat, size: Size, condition: R.Condition, destination: R.Operand, source: R.Operand)
    requires opcode in {0x04, 0x05, 0x15, 0x24, 0x25, 0x06, 0x16, 0x26, 0x07, 0x17, 0x27, 0x39, 0x0B, 0x1B}
    requires R.InstructionFrom(opcode, size, condition, destination, source).Some?
    ensures
      DecodedLength(R.InstructionFrom(opcode, size, condition, destination, source).value)
      == 2 + R.OperandWidth(source) + R.OperandWidth(destination)
    ensures OperandCount(opcode) == Some(2)
  {
  }

  lemma UnknownOpcode(opcode: nat, size: Size, condition: R.Condition, destination: R.Operand, source: R.Operand)
    requires opcode !in {0x00, 0x10, 0x20, 0x2A, 0x3A, 0x0C, 0x1C}
    requires opcode !in {0x11, 0x31, 0x33, 0x08, 0x18, 0x28, 0x09, 0x19, 0x29, 0x0A, 0x1A}
    requires opcode !in {0x01, 0x21, 0x02, 0x22, 0x32, 0x03, 0x13, 0x23, 0x0D, 0x2D, 0x3D}
    requires opcode !in {0x04, 0x05, 0x15, 0x24, 0x25, 0x06, 0x16, 0x26, 0x07, 0x17, 0x27, 0x39, 0x0B, 0x1B}
    ensures R.InstructionFrom(opcode, size, condition, destination, source).None?
  {
  }

  lemma OperandBytesAgree(
    i: C.Instr, size: Size, condition: R.Condition, destination: R.Operand, source: R.Operand)
    requires L.Decoded(i, size, condition, destination, source)
    ensures C.OperandBytes(size, i.source) == R.OperandWidth(source)
    ensures C.OperandBytes(size, i.target) == R.OperandWidth(destination)
  {
    L.WidthAgrees(size, i.source, source);
    L.WidthAgrees(size, i.target, destination);
  }

  lemma LengthOfCount(opcode: nat, size: Size, source: u8, target: u8, n: nat)
    requires OperandCount(opcode) == Some(n)
    ensures
      Length(opcode, size, source, target)
      == Some(2
           + (if n >= 1 then C.OperandBytes(size, source) else 0)
           + (if n >= 2 then C.OperandBytes(size, target) else 0))
  {
    hide OperandCount;
  }

  lemma OpcodeLength(
    opcode: nat, size: Size, s: u8, t: u8, condition: R.Condition, destination: R.Operand, source: R.Operand)
    requires C.OperandBytes(size, s) == R.OperandWidth(source) && C.OperandBytes(size, t) == R.OperandWidth(destination)
    requires R.InstructionFrom(opcode, size, condition, destination, source).Some?
    ensures
      Length(opcode, size, s, t)
      == Some(DecodedLength(R.InstructionFrom(opcode, size, condition, destination, source).value))
  {
    hide C.OperandBytes, R.OperandWidth, R.InstructionFrom, DecodedLength, OperandCount, Length;
    if opcode in {0x00, 0x10, 0x20, 0x2A, 0x3A, 0x0C, 0x1C} {
      PlainOpcode(opcode, size, condition, destination, source);
      LengthOfCount(opcode, size, s, t, 0);
    } else if opcode in {0x11, 0x31, 0x33, 0x08, 0x18, 0x28, 0x09, 0x19, 0x29, 0x0A, 0x1A} {
      OneOpcode(opcode, size, condition, destination, source);
      LengthOfCount(opcode, size, s, t, 1);
    } else if opcode in {0x01, 0x21, 0x02, 0x22, 0x32, 0x03, 0x13, 0x23, 0x0D, 0x2D, 0x3D} {
      TwoOpcode(opcode, size, condition, destination, source);
      LengthOfCount(opcode, size, s, t, 2);
    } else if opcode in {0x04, 0x05, 0x15, 0x24, 0x25, 0x06, 0x16, 0x26, 0x07, 0x17, 0x27, 0x39, 0x0B, 0x1B} {
      OtherTwoOpcode(opcode, size, condition, destination, source);
      LengthOfCount(opcode, size, s, t, 2);
    } else {
      UnknownOpcode(opcode, size, condition, destination, source);
    }
  }

  predicate CpuTransfers(cpu: R.State, instruction: R.Instruction) {
    match instruction
    case Jump(op, condition, _) =>
      R.CheckCondition(cpu, condition) && (if op.Loop? || op.Rloop? then cpu.register[31] != 1 else true)
    case Plain(op, condition) => (op.Ret? || op.Reti?) && R.CheckCondition(cpu, condition)
    case _ => false
  }

  lemma TwoAdvance(cpu: R.State, instruction: R.Instruction, bus: Bus)
    requires instruction.Two? || instruction.Mov? || instruction.Movz? || instruction.Rta?
    ensures
      var r := R.ExecuteInstruction(cpu, instruction, bus);
      r.Some? ==> r.value.1 == R.At(cpu, DecodedLength(instruction))
  {
    hide R.Read, R.ReadSource, R.Write, R.Compute, R.MergeRegister, R.WriteRegister, R.Pointer, R.CheckCondition;
    hide R.SetFlags;
    if R.ReadSource(cpu, instruction.source).Some? {
      L.ReadSourceWidth(cpu, instruction.source);
    }
  }

  lemma PortAdvance(cpu: R.State, instruction: R.Instruction, bus: Bus)
    requires instruction.In? || instruction.Out?
    ensures
      var r := R.ExecuteInstruction(cpu, instruction, bus);
      r.Some? ==> r.value.1 == R.At(cpu, DecodedLength(instruction))
  {
    hide R.Read, R.ReadSource, R.Write, R.WriteRegister, R.Pointer, R.CheckCondition, R.WriteIo;
    if R.ReadSource(cpu, instruction.source).Some? {
      L.ReadSourceWidth(cpu, instruction.source);
    }
  }

  lemma OneAdvance(cpu: R.State, instruction: R.Instruction, bus: Bus)
    requires instruction.One? || instruction.Push? || instruction.Pop?
    ensures
      var r := R.ExecuteInstruction(cpu, instruction, bus);
      r.Some? ==> r.value.1 == R.At(cpu, DecodedLength(instruction))
  {
    hide R.Read, R.ReadSource, R.Write, R.ComputeOne, R.MergeRegister, R.Pointer, R.CheckCondition, R.SetFlags;
    hide R.PopStack, R.PushStack;
    if instruction.Push? && R.ReadSource(cpu, instruction.source).Some? {
      L.ReadSourceWidth(cpu, instruction.source);
    }
  }

  lemma OtherAdvance(cpu: R.State, instruction: R.Instruction, bus: Bus)
    requires instruction.Nop? || instruction.Plain? || instruction.Jump?
    requires !CpuTransfers(cpu, instruction)
    ensures
      var r := R.ExecuteInstruction(cpu, instruction, bus);
      r.Some? ==> r.value.1 == R.At(cpu, DecodedLength(instruction))
  {
    hide R.ReadSource, R.CheckCondition, R.PopStack, R.PushStack;
    if instruction.Jump? && R.ReadSource(cpu, instruction.source).Some? {
      L.ReadSourceWidth(cpu, instruction.source);
    }
  }

  /** The Rust interpreter advances by the encoded length, executed or not. */
  lemma CpuAdvancesByLength(cpu: R.State, bus: Bus)
    requires R.ExecuteMemoryInstruction(cpu, bus).Some?
    ensures L.Next(cpu).Some?
    ensures !CpuTransfers(cpu, L.Next(cpu).value) ==>
      R.ExecuteMemoryInstruction(cpu, bus).value.instructionPointer
      == R.At(cpu, DecodedLength(L.Next(cpu).value))
  {
    hide R.Read, R.FromHalf, R.ExecuteInstruction, CpuTransfers, DecodedLength;
    var instruction := L.Next(cpu).value;
    if !CpuTransfers(cpu, instruction) {
      match instruction
      case Two(_, _, _, _, _) | Mov(_, _, _, _) | Movz(_, _, _, _) | Rta(_, _, _) => TwoAdvance(cpu, instruction, bus);
      case In(_, _, _) | Out(_, _, _) => PortAdvance(cpu, instruction, bus);
      case One(_, _, _, _) | Push(_, _, _) | Pop(_, _, _) => OneAdvance(cpu, instruction, bus);
      case Nop | Plain(_, _) | Jump(_, _, _) => OtherAdvance(cpu, instruction, bus);
    }
  }
}
