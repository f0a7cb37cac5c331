/** What a completed step of the C interpreter has done to flags, registers and memory, for
    every arithmetic, logical, shift, test and move instruction. */
module Steps {
  import opened Words
  import opened Arithmetic
  import opened ArithmeticLaws
  import opened Memory
  import opened Meaning
  import L = Lockstep
  import F = Completion
  import R = Cpu
  import opened Core

  /** The opcodes of the operations that can overflow. */
  function CarryOpcode(opcode: nat): Option<CarryOp> {
    match opcode
    case 0x01 => Some(AddOp)
    case 0x21 => Some(SubOp)
    case 0x02 => Some(MulOp)
    case 0x0D => Some(IMulOp)
    case _ => None
  }

  /** The opcodes of the operations that cannot. */
  function ZeroOpcode(opcode: nat): Option<ZeroOp> {
    match opcode
    case 0x22 => Some(DivOp)
    case 0x32 => Some(RemOp)
    case 0x2D => Some(IDivOp)
    case 0x3D => Some(IRemOp)
    case 0x03 => Some(AndOp)
    case 0x23 => Some(XorOp)
    case 0x13 => Some(OrOp)
    case 0x04 => Some(SlaOp)
    case 0x15 => Some(SrlOp)
    case 0x05 => Some(SraOp)
    case 0x24 => Some(RolOp)
    case 0x25 => Some(RorOp)
    case 0x06 => Some(BseOp)
    case 0x16 => Some(BclOp)
    case _ => None
  }

  /** The machine with its cursor behind the opcode half. */
  function Started(vm: Vm): Vm {
    vm.(pointerInstrMut := Add32(vm.pointerInstr, 2))
  }

  /** What no data instruction changes. */
  predicate Kept(vm: Vm, after: Vm) {
    after.rom == vm.rom && after.io == vm.io && after.halted == vm.halted && after.flagInterrupt == vm.flagInterrupt
  }

  /** The state changed nowhere but in the destination operand at the cursor of `at`, in the
      flags, and by moving past that operand. */
  ghost predicate Stored(at: Vm, after: Vm, size: Size, prtype: u8, value: u32, zero: bool) {
    && Written(at, after, size, prtype, value, zero)
    && Kept(at, after)
    && after.pointerInstr == Add32(at.pointerInstrMut, OperandBytes(size, prtype))
  }

  ghost predicate CarryDone(vm: Vm, after: Vm, i: Instr, size: Size, op: CarryOp)
    requires i.source < 4 && i.target < 4
  {
    var s := Source(Started(vm), size, i.source, false);
    s.Done? &&
    var t := Source(s.vm, size, i.target, true);
    && t.Done?
    && exists r: u32 ::
      && CarryMeans(op, size, t.value, s.value, r, after.flagCarry)
      && after.flagZero == (r == 0)
      && Stored(s.vm, after, size, i.target, r, false)
  }

  ghost predicate ZeroDone(vm: Vm, after: Vm, i: Instr, size: Size, op: ZeroOp)
    requires i.source < 4 && i.target < 4
  {
    var s := Source(Started(vm), size, i.source, false);
    s.Done? &&
    var t := Source(s.vm, size, i.target, true);
    && t.Done?
    && exists r: u32 ::
      && ZeroMeans(op, size, t.value, s.value, r)
      && after.flagZero == (r == 0) && after.flagCarry == vm.flagCarry
      && Stored(s.vm, after, size, i.target, r, false)
  }

  ghost predicate MovDone(vm: Vm, after: Vm, i: Instr, size: Size, zero: bool)
    requires i.source < 4 && i.target < 4
  {
    var s := Source(Started(vm), size, i.source, false);
    && s.Done?
    && after.flagZero == vm.flagZero && after.flagCarry == vm.flagCarry
    && Stored(s.vm, after, size, i.target, s.value, zero)
  }

  ghost predicate IncDone(vm: Vm, after: Vm, i: Instr, size: Size, op: CarryOp)
    requires i.source < 4
  {
    var v := Source(Started(vm), size, i.source, true);
    && v.Done?
    && exists r: u32 ::
      && CarryMeans(op, size, v.value, 1, r, after.flagCarry)
      && after.flagZero == (r == 0)
      && Stored(Started(vm), after, size, i.source, r, false)
  }

  ghost predicate Complement(size: Size, v: u32, r: u32) {
    forall i: nat :: i < Width(size) ==> TestBit(r, i) != TestBit(v, i)
  }

  ghost predicate NotDone(vm: Vm, after: Vm, i: Instr, size: Size)
    requires i.source < 4
  {
    var v := Source(Started(vm), size, i.source, true);
    && v.Done?
    && exists r: u32 ::
      && Complement(size, v.value, r)
      && after.flagZero == (r == 0) && after.flagCarry == vm.flagCarry
      && Stored(Started(vm), after, size, i.source, r, false)
  }

  /** CMP and BTS change flags only. */
  ghost predicate Tested(vm: Vm, after: Vm) {
    && Kept(vm, after)
    && after.registers == vm.registers && after.pointerStack == vm.pointerStack && after.ram == vm.ram
  }

  ghost predicate CmpDone(vm: Vm, after: Vm, i: Instr, size: Size)
    requires i.source < 4 && i.target < 4
  {
    var s := Source(Started(vm), size, i.source, false);
    s.Done? &&
    var t := Source(s.vm, size, i.target, false);
    && t.Done?
    && after.flagCarry == (t.value < s.value) && after.flagZero == (t.value == s.value)
    && Tested(vm, after)
  }

  ghost predicate BtsDone(vm: Vm, after: Vm, i: Instr, size: Size)
    requires i.source < 4 && i.target < 4
  {
    var s := Source(Started(vm), size, i.source, false);
    s.Done? &&
    var t := Source(s.vm, size, i.target, false);
    && t.Done?
    && after.flagZero == !(s.value < Width(size) && TestBit(t.value, s.value)) && after.flagCarry == vm.flagCarry
    && Tested(vm, after)
  }

  /** What an executed data instruction has done. */
  ghost predicate InstructionMeans(vm: Vm, after: Vm, i: Instr, size: Size)
    requires i.source < 4 && i.target < 4
  {
    var op := i.opcode % 64;
    && (CarryOpcode(op).Some? ==> CarryDone(vm, after, i, size, CarryOpcode(op).value))
    && (ZeroOpcode(op).Some? ==> ZeroDone(vm, after, i, size, ZeroOpcode(op).value))
    && (op == 0x17 || op == 0x27 ==> MovDone(vm, after, i, size, op == 0x27))
    && (op == 0x11 || op == 0x31 ==> IncDone(vm, after, i, size, if op == 0x11 then AddOp else SubOp))
    && (op == 0x33 ==> NotDone(vm, after, i, size))
  }

  /** What a step has done: the instruction, if its condition holds, and CMP and BTS in any
      case. */
  ghost predicate StepMeans(vm: Vm, after: Vm) {
    var half := Read(vm, Half, vm.pointerInstr);
    half.Done? &&
    var i := InstrFrom(half.value);
    SizeOf(i.size).Some? &&
    var size := SizeOf(i.size).value;
    && (ShouldSkip(vm, i.condition) == Done(vm, false) ==> InstructionMeans(vm, after, i, size))
    && (i.opcode % 64 == 0x07 ==> CmpDone(vm, after, i, size))
    && (i.opcode % 64 == 0x26 ==> BtsDone(vm, after, i, size))
  }

  // ----- the handlers

  lemma FlagsDoNotMatter(at: Vm, flagged: Vm, after: Vm, size: Size, prtype: u8, value: u32, zero: bool)
    requires flagged == at.(flagCarry := flagged.flagCarry, flagZero := flagged.flagZero)
    ensures Written(flagged, after, size, prtype, value, zero) ==> Written(at, after, size, prtype, value, zero)
  {
    hide RegisterHolds, Fetch, Load;
    assert Read(flagged, Word, at.pointerInstrMut).Done? ==>
        Read(at, Word, at.pointerInstrMut).Done?
        && Read(flagged, Word, at.pointerInstrMut).value == Read(at, Word, at.pointerInstrMut).value;
    assert Read(flagged, Byte, at.pointerInstrMut).Done? ==>
        Read(at, Byte, at.pointerInstrMut).Done?
        && Read(flagged, Byte, at.pointerInstrMut).value == Read(at, Byte, at.pointerInstrMut).value;
  }

  /** Writing back behind the flags, and moving on. */
  lemma StoresBack(at: Vm, size: Size, prtype: u8, x: u32, carry: bool, flag: bool, zero: bool)
    requires prtype < 4 && x < Modulus(size)
    requires Target(at.(flagCarry := carry, flagZero := flag), size, prtype, x, zero).Done?
    ensures
      var o := Target(at.(flagCarry := carry, flagZero := flag), size, prtype, x, zero).vm;
      var after := o.(pointerInstr := o.pointerInstrMut);
      && Stored(at, after, size, prtype, x, zero)
      && after.flagCarry == carry && after.flagZero == flag
  {
    hide Target, Written;
    var flagged := at.(flagCarry := carry, flagZero := flag);
    TargetWrites(flagged, size, prtype, x, zero);
    var o := Target(flagged, size, prtype, x, zero).vm;
    PointerDoesNotMatter(flagged, o, size, prtype, x, zero);
    FlagsDoNotMatter(at, flagged, o.(pointerInstr := o.pointerInstrMut), size, prtype, x, zero);
  }

  lemma PointerDoesNotMatter(at: Vm, o: Vm, size: Size, prtype: u8, value: u32, zero: bool)
    requires Written(at, o, size, prtype, value, zero)
    ensures Written(at, o.(pointerInstr := o.pointerInstrMut), size, prtype, value, zero)
  {
    hide RegisterHolds, Fetch, Load, Read;
  }

  lemma AddOperands(vm: Vm, i: Instr, size: Size, op: CarryOp) returns (at: Vm, a: u32, b: u32)
    requires i.source < 4 && i.target < 4 && ShouldSkip(vm, i.condition) == Done(vm, false)
    requires Add(vm, i, size, op).Done?
    ensures Source(vm, size, i.source, false) == Done(at, a) && a < Modulus(size)
    ensures Source(at, size, i.target, true) == Done(at, b) && b < Modulus(size)
    ensures at == vm.(pointerInstrMut := at.pointerInstrMut)
  {
    hide Source, Target, Checked, ShouldSkip;
    at, a := SourceKeeps(vm, size, i.source);
    b := StayKeeps(at, size, i.target);
  }

  lemma AndOperands(vm: Vm, i: Instr, size: Size, op: ZeroOp) returns (at: Vm, a: u32, b: u32)
    requires i.source < 4 && i.target < 4 && ShouldSkip(vm, i.condition) == Done(vm, false)
    requires And(vm, i, size, op).Done?
    ensures Source(vm, size, i.source, false) == Done(at, a) && a < Modulus(size)
    ensures Source(at, size, i.target, true) == Done(at, b) && b < Modulus(size)
    ensures at == vm.(pointerInstrMut := at.pointerInstrMut) && Unchecked(op, size, b, a).Some?
  {
    hide Source, Target, Unchecked, ShouldSkip;
    at, a := SourceKeeps(vm, size, i.source);
    b := StayKeeps(at, size, i.target);
  }

  lemma SourceKeeps(vm: Vm, size: Size, prtype: u8) returns (at: Vm, v: u32)
    requires prtype < 4 && Source(vm, size, prtype, false).Done?
    ensures Source(vm, size, prtype, false) == Done(at, v) && v < Modulus(size)
    ensures at == vm.(pointerInstrMut := at.pointerInstrMut)
  {
    hide Fetch, Trunc;
    var s := Source(vm, size, prtype, false);
    at, v := s.vm, s.value;
  }

  lemma StayKeeps(vm: Vm, size: Size, prtype: u8) returns (v: u32)
    requires prtype < 4 && Source(vm, size, prtype, true).Done?
    ensures Source(vm, size, prtype, true) == Done(vm, v) && v < Modulus(size)
  {
    hide Source;
    StayIsPure(vm, size, prtype);
    v := Source(vm, size, prtype, true).value;
  }

  /** The state a completed handler leaves, once the instruction pointer has moved. */
  function Finished(o: Vm): Vm {
    o.(pointerInstr := o.pointerInstrMut)
  }

  lemma AddMeans(vm: Vm, i: Instr, size: Size, op: CarryOp)
    requires i.source < 4 && i.target < 4 && ShouldSkip(vm, i.condition) == Done(vm, false)
    requires vm == Started(vm) && Add(vm, i, size, op).Done?
    ensures CarryDone(vm, Finished(Add(vm, i, size, op).vm), i, size, op)
  {
    hide Source, Target, Checked, ShouldSkip, Add, Stored, CarryMeans;
    var at, a, b := AddOperands(vm, i, size, op);
    F.AddForm(vm, i, size, op, at, a, b);
    CarryLaw(op, size, b, a);
    var x := Checked(op, size, b, a);
    StoresBack(at, size, i.target, x.0, x.1, x.0 == 0, false);
  }

  lemma AndMeans(vm: Vm, i: Instr, size: Size, op: ZeroOp)
    requires i.source < 4 && i.target < 4 && ShouldSkip(vm, i.condition) == Done(vm, false)
    requires vm == Started(vm) && And(vm, i, size, op).Done?
    ensures ZeroDone(vm, Finished(And(vm, i, size, op).vm), i, size, op)
  {
    hide Source, Target, Unchecked, ShouldSkip, And, Stored, ZeroMeans;
    var at, a, b := AndOperands(vm, i, size, op);
    F.AndForm(vm, i, size, op, at, a, b);
    ZeroLaw(op, size, b, a);
    var x := Unchecked(op, size, b, a).value;
    StoresBack(at, size, i.target, x, at.flagCarry, x == 0, false);
  }

  lemma MovMeans(vm: Vm, i: Instr, size: Size, zero: bool)
    requires i.source < 4 && i.target < 4 && ShouldSkip(vm, i.condition) == Done(vm, false)
    requires vm == Started(vm) && Mov(vm, i, size, zero).Done?
    ensures MovDone(vm, Finished(Mov(vm, i, size, zero).vm), i, size, zero)
  {
    hide Source, Target, ShouldSkip, Stored;
    var at, a := SourceKeeps(vm, size, i.source);
    assert at == at.(flagCarry := at.flagCarry, flagZero := at.flagZero);
    StoresBack(at, size, i.target, a, at.flagCarry, at.flagZero, zero);
  }

  lemma IncMeans(vm: Vm, i: Instr, size: Size, op: CarryOp)
    requires i.source < 4 && i.target < 4 && ShouldSkip(vm, i.condition) == Done(vm, false)
    requires vm == Started(vm) && Inc(vm, i, size, op).Done?
    ensures IncDone(vm, Finished(Inc(vm, i, size, op).vm), i, size, op)
  {
    hide Source, Target, Checked, ShouldSkip, Stored, CarryMeans;
    var v := StayKeeps(vm, size, i.source);
    CarryLaw(op, size, v, 1);
    var x := Checked(op, size, v, 1);
    StoresBack(vm, size, i.source, x.0, x.1, x.0 == 0, false);
  }

  lemma NotMeans(vm: Vm, i: Instr, size: Size)
    requires i.source < 4 && i.target < 4 && ShouldSkip(vm, i.condition) == Done(vm, false)
    requires vm == Started(vm) && Not(vm, i, size).Done?
    ensures NotDone(vm, Finished(Not(vm, i, size).vm), i, size)
  {
    hide Source, Target, ShouldSkip, Stored, TestBit, BitNot;
    var v := StayKeeps(vm, size, i.source);
    var x := BitNot(size, v);
    forall k: nat | k < Width(size)
      ensures TestBit(x, k) != TestBit(v, k)
    {
      NotLaw(size, v, k);
    }
    assert Complement(size, v, x);
    assert vm == vm.(flagCarry := vm.flagCarry);
    StoresBack(vm, size, i.source, x, vm.flagCarry, x == 0, false);
  }

  lemma CmpMeans(vm: Vm, i: Instr, size: Size)
    requires i.source < 4 && i.target < 4
    requires vm == Started(vm) && Cmp(vm, i, size).Done?
    ensures CmpDone(vm, Finished(Cmp(vm, i, size).vm), i, size)
  {
    hide Source, Checked;
    var at, a := SourceKeeps(vm, size, i.source);
    var at2, b := SourceKeeps(at, size, i.target);
    CompareLaw(size, b, a);
  }

  lemma CompareLaw(size: Size, b: u32, a: u32)
    requires a < Modulus(size) && b < Modulus(size)
    ensures
      var x := Checked(SubOp, size, b, a);
      x.1 == (b < a) && (x.0 == 0 <==> b == a)
  {
  }

  lemma BtsMeans(vm: Vm, i: Instr, size: Size)
    requires i.source < 4 && i.target < 4
    requires vm == Started(vm) && Bts(vm, i, size).Done?
    ensures BtsDone(vm, Finished(Bts(vm, i, size).vm), i, size)
  {
    hide Source, TestBit, Bit, BitAnd;
    var at, a := SourceKeeps(vm, size, i.source);
    var at2, b := SourceKeeps(at, size, i.target);
    if a < Width(size) {
      MaskedBit(size, b, a);
    }
  }

  // ----- whole steps

  /** What the handler of a data instruction does is what the step does. */
  lemma SizedMeans(vm: Vm, i: Instr, size: Size)
    requires i.source < 4 && i.target < 4 && ShouldSkip(vm, i.condition) == Done(vm, false)
    requires vm == Started(vm) && DispatchSized(vm, i, size).Done?
    ensures InstructionMeans(vm, Finished(DispatchSized(vm, i, size).vm), i, size)
  {
    hide Halt, Brk, PopTo, PushFrom, Mov, Not, Inc, Add, And, Cmp, Bts, ShouldSkip;
    hide CarryDone, ZeroDone, MovDone, IncDone, NotDone;
    var op := i.opcode % 64;
    if CarryOpcode(op).Some? {
      AddMeans(vm, i, size, CarryOpcode(op).value);
    } else if ZeroOpcode(op).Some? {
      AndMeans(vm, i, size, ZeroOpcode(op).value);
    } else if op == 0x17 || op == 0x27 {
      MovMeans(vm, i, size, op == 0x27);
    } else if op == 0x11 || op == 0x31 {
      IncMeans(vm, i, size, if op == 0x11 then AddOp else SubOp);
    } else if op == 0x33 {
      NotMeans(vm, i, size);
    }
  }

  lemma TestsMean(vm: Vm, i: Instr, size: Size)
    requires i.source < 4 && i.target < 4
    requires vm == Started(vm) && DispatchSized(vm, i, size).Done?
    ensures i.opcode % 64 == 0x07 ==> CmpDone(vm, Finished(DispatchSized(vm, i, size).vm), i, size)
    ensures i.opcode % 64 == 0x26 ==> BtsDone(vm, Finished(DispatchSized(vm, i, size).vm), i, size)
  {
    hide Halt, Brk, PopTo, PushFrom, Mov, Not, Inc, Add, And, Cmp, Bts, CmpDone, BtsDone;
    if i.opcode % 64 == 0x07 {
      CmpMeans(vm, i, size);
    } else if i.opcode % 64 == 0x26 {
      BtsMeans(vm, i, size);
    }
  }

  lemma OtherOpcodes(vm: Vm, after: Vm, i: Instr, size: Size)
    requires i.source < 4 && i.target < 4
    requires
      || i.opcode % 64 in {0x0B, 0x1B, 0x39, 0x2A, 0x3A, 0x0C, 0x1C}
      || i.opcode % 64 in {0x08, 0x18, 0x28, 0x09, 0x19, 0x29}
    ensures InstructionMeans(vm, after, i, size) && i.opcode % 64 != 0x07 && i.opcode % 64 != 0x26
  {
    hide CarryDone, ZeroDone, MovDone, IncDone, NotDone;
  }

  /** A completed step has done what its instruction means. */
  lemma StepsMean(vm: Vm, bus: Bus)
    requires Execute(vm, bus).Done?
    ensures StepMeans(vm, Execute(vm, bus).vm)
  {
    hide Execute, Dispatch, DispatchSized, InstrFrom, InstructionMeans, CmpDone, BtsDone, Read, ShouldSkip, SizeOf;
    var o, half := L.CoreStepForm(vm, bus);
    var i := InstrFrom(half);
    var started := Started(vm);
    var after := Finished(o.vm);
    KnownSize(started, i, vm.pointerInstr, bus);
    var size := SizeOf(i.size).value;
    SkipIgnoresCursor(vm, i.condition);
    MeansIgnoresCursor(vm, after, i, size);
    F.DispatchSizes(started, i, size, bus);
    if size.Word? && (i.opcode % 64 in {0x0B, 0x1B, 0x39, 0x2A, 0x3A, 0x0C, 0x1C}
                      || i.opcode % 64 in {0x08, 0x18, 0x28, 0x09, 0x19, 0x29}) {
      OtherOpcodes(vm, after, i, size);
    } else {
      TestsMean(started, i, size);
      if ShouldSkip(vm, i.condition) == Done(vm, false) {
        SizedMeans(started, i, size);
      }
    }
  }

  lemma KnownSize(vm: Vm, i: Instr, base: u32, bus: Bus)
    requires i.source < 4 && i.target < 4 && Dispatch(vm, i, base, bus).Done?
    ensures SizeOf(i.size).Some?
  {
    hide DispatchSized;
  }

  lemma SkipIgnoresCursor(vm: Vm, condition: u8)
    ensures
      ShouldSkip(vm, condition) == Done(vm, false)
      <==> ShouldSkip(Started(vm), condition) == Done(Started(vm), false)
  {
  }

  lemma MeansIgnoresCursor(vm: Vm, after: Vm, i: Instr, size: Size)
    requires i.source < 4 && i.target < 4
    ensures InstructionMeans(Started(vm), after, i, size) ==> InstructionMeans(vm, after, i, size)
    ensures CmpDone(Started(vm), after, i, size) ==> CmpDone(vm, after, i, size)
    ensures BtsDone(Started(vm), after, i, size) ==> BtsDone(vm, after, i, size)
  {
    hide Source, CarryMeans, ZeroMeans, Stored, Complement, TestBit;
    assert Started(Started(vm)) == Started(vm);
  }

  // ----- the Rust interpreter

  /** The C state a Rust state is the same as. */
  function VmOf(cpu: R.State): Vm {
    Vm(
      0, cpu.instructionPointer, cpu.stackPointer, cpu.register, cpu.flag.zero, cpu.flag.carry, cpu.flag.interrupt,
      cpu.halted, cpu.ram, cpu.rom, cpu.io)
  }

  lemma AfterIgnoresCursor(vm: Vm, after: Vm, other: Vm)
    requires other == after.(pointerInstrMut := other.pointerInstrMut)
    requires StepMeans(vm, after)
    ensures StepMeans(vm, other)
  {
    hide Source, CarryMeans, ZeroMeans, Complement, TestBit, Read, ShouldSkip, InstrFrom, Stored;
    StoredAlike(after, other);
  }

  lemma StoredAlike(after: Vm, other: Vm)
    requires other == after.(pointerInstrMut := other.pointerInstrMut)
    ensures
      forall at: Vm, size: Size, prtype: u8, value: u32, zero: bool
        {:trigger Stored(at, other, size, prtype, value, zero)} ::
      Stored(at, after, size, prtype, value, zero) ==> Stored(at, other, size, prtype, value, zero)
  {
    hide Written;
    forall at: Vm, size: Size, prtype: u8, value: u32, zero: bool
      {:trigger Stored(at, other, size, prtype, value, zero)} |
      Stored(at, after, size, prtype, value, zero)
      ensures Stored(at, other, size, prtype, value, zero)
    {
      WrittenAlike(at, after, other, size, prtype, value, zero);
    }
  }

  lemma WrittenAlike(at: Vm, after: Vm, other: Vm, size: Size, prtype: u8, value: u32, zero: bool)
    requires other == after.(pointerInstrMut := other.pointerInstrMut)
    requires Written(at, after, size, prtype, value, zero)
    ensures Written(at, other, size, prtype, value, zero)
  {
    hide RegisterHolds, Load, Read;
  }

  /** A step of the Rust interpreter that the C interpreter follows has done the same. */
  lemma CpuStepsMean(cpu: R.State, bus: Bus)
    requires R.ExecuteMemoryInstruction(cpu, bus).Some?
    requires L.Covered(cpu, L.Next(cpu).value) && F.CoreFollows(cpu)
    ensures StepMeans(VmOf(cpu), VmOf(R.ExecuteMemoryInstruction(cpu, bus).value))
  {
    hide Execute, R.ExecuteMemoryInstruction, L.Covered, F.CoreFollows, L.Next, StepMeans;
    var vm := VmOf(cpu);
    assert L.OfVm(vm) == cpu;
    F.StepCompletes(vm, bus);
    L.StepAgrees(vm, bus);
    StepsMean(vm, bus);
    AfterIgnoresCursor(vm, Execute(vm, bus).vm, VmOf(R.ExecuteMemoryInstruction(cpu, bus).value));
  }
}
