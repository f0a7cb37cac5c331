/** What a failing instruction of the C interpreter leaves behind besides memory: for
    every instruction, exactly when the state is the one before it. */
module Restart {
  import opened Words
  import opened Arithmetic
  import opened Memory
  import opened Core

  /** The states differ at most in the scratch cursor. */
  predicate SameState(vm: Vm, after: Vm) {
    after == vm.(pointerInstrMut := after.pointerInstrMut)
  }

  /** A failing routine has kept the state exactly when the condition holds. */
  ghost predicate KeepsExactlyIf<T>(vm: Vm, o: Outcome<T>, condition: bool) {
    o.Panic? ==> (SameState(vm, o.vm) <==> condition)
  }

  // ----- when each instruction keeps the state if it fails

  predicate SkipFails(vm: Vm, i: Instr) {
    ShouldSkip(vm, i.condition).Panic?
  }

  /** The source operand cannot be read. */
  predicate SourceFails(vm: Vm, i: Instr, size: Size, stay: bool)
    requires i.source < 4
  {
    Source(vm, size, i.source, stay).Panic?
  }

  /** NOT: the operand cannot be read, or the zero flag already is what it becomes. */
  predicate NotUnnoticed(vm: Vm, i: Instr, size: Size)
    requires i.source < 4
  {
    var v := Source(vm, size, i.source, true);
    v.Done? ==> vm.flagZero == (BitNot(size, v.value) == 0)
  }

  /** The same for INC and DEC, with both flags. */
  predicate IncUnnoticed(vm: Vm, i: Instr, size: Size, op: CarryOp)
    requires i.source < 4
  {
    var v := Source(vm, size, i.source, true);
    v.Done? ==>
      var x := Checked(op, size, v.value, 1);
      vm.flagCarry == x.1 && vm.flagZero == (x.0 == 0)
  }

  /** The two operands of an arithmetic instruction; None if one cannot be read. */
  function TwoOperands(vm: Vm, i: Instr, size: Size): (r: Option<(u32, u32)>)
    requires i.source < 4 && i.target < 4
    ensures r.Some? ==> r.value.0 < Modulus(size) && r.value.1 < Modulus(size)
  {
    var a := Source(vm, size, i.source, false);
    if !a.Done? then None
    else
      var b := Source(a.vm, size, i.target, true);
      if !b.Done? then None else Some((a.value, b.value))
  }

  /** Checked arithmetic: an operand cannot be read, or both flags already are what
      they become. */
  predicate AddUnnoticed(vm: Vm, i: Instr, size: Size, op: CarryOp)
    requires i.source < 4 && i.target < 4
  {
    var operands := TwoOperands(vm, i, size);
    operands.Some? ==>
      var x := Checked(op, size, operands.value.1, operands.value.0);
      vm.flagCarry == x.1 && vm.flagZero == (x.0 == 0)
  }

  /** The same for the unchecked operations, which set the zero flag only. */
  predicate AndUnnoticed(vm: Vm, i: Instr, size: Size, op: ZeroOp)
    requires i.source < 4 && i.target < 4
  {
    var operands := TwoOperands(vm, i, size);
    operands.Some? ==>
      var x := Unchecked(op, size, operands.value.1, operands.value.0);
      x.Some? ==> vm.flagZero == (x.value == 0)
  }

  /** IN: no port has been read. */
  predicate NoPortRead(vm: Vm, i: Instr, bus: Bus)
    requires i.source < 4
  {
    var port := Source(vm, Word, i.source, false);
    port.Done? ==> bus.read(vm.io, port.value).None?
  }

  /** Whether an instruction of any size keeps the state if it fails. */
  predicate SizedKeepsState(vm: Vm, i: Instr, size: Size)
    requires i.source < 4 && i.target < 4
  {
    match i.opcode % 64
    case 0x1A => SkipFails(vm, i)
    case 0x0A => SkipFails(vm, i) || SourceFails(vm, i, size, false)
    case 0x33 => SkipFails(vm, i) || NotUnnoticed(vm, i, size)
    case 0x11 => SkipFails(vm, i) || IncUnnoticed(vm, i, size, AddOp)
    case 0x31 => SkipFails(vm, i) || IncUnnoticed(vm, i, size, SubOp)
    case 0x01 => SkipFails(vm, i) || AddUnnoticed(vm, i, size, AddOp)
    case 0x21 => SkipFails(vm, i) || AddUnnoticed(vm, i, size, SubOp)
    case 0x02 => SkipFails(vm, i) || AddUnnoticed(vm, i, size, MulOp)
    case 0x0D => SkipFails(vm, i) || AddUnnoticed(vm, i, size, IMulOp)
    case 0x22 => SkipFails(vm, i) || AndUnnoticed(vm, i, size, DivOp)
    case 0x32 => SkipFails(vm, i) || AndUnnoticed(vm, i, size, RemOp)
    case 0x2D => SkipFails(vm, i) || AndUnnoticed(vm, i, size, IDivOp)
    case 0x3D => SkipFails(vm, i) || AndUnnoticed(vm, i, size, IRemOp)
    case 0x03 => SkipFails(vm, i) || AndUnnoticed(vm, i, size, AndOp)
    case 0x23 => SkipFails(vm, i) || AndUnnoticed(vm, i, size, XorOp)
    case 0x13 => SkipFails(vm, i) || AndUnnoticed(vm, i, size, OrOp)
    case 0x04 => SkipFails(vm, i) || AndUnnoticed(vm, i, size, SlaOp)
    case 0x15 => SkipFails(vm, i) || AndUnnoticed(vm, i, size, SrlOp)
    case 0x05 => SkipFails(vm, i) || AndUnnoticed(vm, i, size, SraOp)
    case 0x24 => SkipFails(vm, i) || AndUnnoticed(vm, i, size, RolOp)
    case 0x25 => SkipFails(vm, i) || AndUnnoticed(vm, i, size, RorOp)
    case 0x06 => SkipFails(vm, i) || AndUnnoticed(vm, i, size, BseOp)
    case 0x16 => SkipFails(vm, i) || AndUnnoticed(vm, i, size, BclOp)
    case _ => true
  }

  /** Whether an instruction keeps the state if it fails: one that moves the stack
      pointer, counts r31 down or reads a port does so before it can fail at its last
      operand, and arithmetic sets its flags. */
  predicate InstructionKeepsState(vm: Vm, i: Instr, bus: Bus)
    requires i.source < 4 && i.target < 4
  {
    match SizeOf(i.size)
    case None => true
    case Some(size) =>
      if !size.Word? then SizedKeepsState(vm, i, size)
      else
        match i.opcode % 64
        case 0x0B => SkipFails(vm, i) || NoPortRead(vm, i, bus)
        case 0x2A | 0x3A => SkipFails(vm, i)
        case 0x28 | 0x29 => SkipFails(vm, i)
        case 0x18 | 0x19 => SkipFails(vm, i) || SourceFails(vm, i, Word, false)
        case _ => SizedKeepsState(vm, i, Word)
  }

  /** The same for the next step of a machine. */
  predicate KeepsState(vm: Vm, bus: Bus) {
    var raw := Read(vm, Half, vm.pointerInstr);
    raw.Done? ==>
      InstructionKeepsState(vm.(pointerInstrMut := Add32(vm.pointerInstr, 2)), InstrFrom(raw.value), bus)
  }

  // ----- operands

  /** Reading an operand moves only the cursor, and so does failing to write one. */
  lemma SourceKeeps(vm: Vm, size: Size, prtype: u8, stay: bool)
    requires prtype < 4
    ensures
      var o := Source(vm, size, prtype, stay);
      !o.Undefined? && SameState(vm, o.vm)
  {
    hide Read, GetLocal, Trunc;
  }

  lemma TargetKeeps(vm: Vm, size: Size, prtype: u8, value: u32, zero: bool)
    requires prtype < 4 && value < Modulus(size)
    ensures
      var o := Target(vm, size, prtype, value, zero);
      o.Panic? ==> SameState(vm, o.vm)
  {
    hide Read, GetLocal, SetLocal, Merge, FindMemory, Store;
  }

  lemma PushMoves(vm: Vm, size: Size, value: u32)
    ensures
      var o := Push(vm, size, value);
      && !o.Undefined?
      && (o.Panic? ==> o.vm == vm.(pointerStack := Sub32(vm.pointerStack, Bytes(size))) && !SameState(vm, o.vm))
  {
    hide FindMemory, Store;
  }

  lemma PopMoves(vm: Vm, size: Size)
    ensures
      var o := Pop(vm, size);
      && !o.Undefined?
      && o.vm == vm.(pointerStack := Add32(vm.pointerStack, Bytes(size))) && o.vm.pointerStack != vm.pointerStack
  {
    hide FindMemory, Fetch;
  }

  // ----- instructions

  lemma JmpKeeps(vm: Vm, i: Instr, base: u32)
    requires i.source < 4 && i.target < 4
    ensures KeepsExactlyIf(vm, Jmp(vm, i, base), true)
  {
    hide Source, ShouldSkip;
    SourceKeeps(vm, Word, i.source, false);
  }

  lemma LoopKeeps(vm: Vm, i: Instr, base: u32)
    requires i.source < 4 && i.target < 4
    ensures KeepsExactlyIf(vm, Loop(vm, i, base), SkipFails(vm, i))
  {
    hide Source, ShouldSkip;
    SourceKeeps(vm.(registers := vm.registers[31 := Sub32(vm.registers[31], 1)]), Word, i.source, false);
  }

  lemma CallKeeps(vm: Vm, i: Instr, base: u32)
    requires i.source < 4 && i.target < 4
    ensures KeepsExactlyIf(vm, Call(vm, i, base), SkipFails(vm, i) || SourceFails(vm, i, Word, false))
  {
    hide Source, ShouldSkip, Push;
    SourceKeeps(vm, Word, i.source, false);
    var o := Source(vm, Word, i.source, false);
    if o.Done? {
      PushMoves(o.vm, Word, o.vm.pointerInstrMut);
    }
  }

  lemma PushFromKeeps(vm: Vm, i: Instr, size: Size)
    requires i.source < 4 && i.target < 4
    ensures KeepsExactlyIf(vm, PushFrom(vm, i, size), SkipFails(vm, i) || SourceFails(vm, i, size, false))
  {
    hide Source, ShouldSkip, Push;
    SourceKeeps(vm, size, i.source, false);
    var o := Source(vm, size, i.source, false);
    if o.Done? {
      PushMoves(o.vm, size, o.value);
    }
  }

  lemma PopToKeeps(vm: Vm, i: Instr, size: Size)
    requires i.source < 4 && i.target < 4
    ensures KeepsExactlyIf(vm, PopTo(vm, i, size), SkipFails(vm, i))
  {
    hide Target, ShouldSkip, Pop;
    PopMoves(vm, size);
    var o := Pop(vm, size);
    if o.Done? {
      TargetKeeps(o.vm, size, i.source, o.value, false);
    }
  }

  lemma MovKeeps(vm: Vm, i: Instr, size: Size, zero: bool)
    requires i.source < 4 && i.target < 4
    ensures KeepsExactlyIf(vm, Mov(vm, i, size, zero), true)
  {
    hide Source, Target, ShouldSkip;
    SourceKeeps(vm, size, i.source, false);
    var o := Source(vm, size, i.source, false);
    if o.Done? {
      TargetKeeps(o.vm, size, i.target, o.value, zero);
    }
  }

  lemma NotKeeps(vm: Vm, i: Instr, size: Size)
    requires i.source < 4 && i.target < 4
    ensures KeepsExactlyIf(vm, Not(vm, i, size), SkipFails(vm, i) || NotUnnoticed(vm, i, size))
  {
    hide Source, Target, ShouldSkip, BitNot;
    SourceKeeps(vm, size, i.source, true);
    var o := Source(vm, size, i.source, true);
    if o.Done? {
      var x := BitNot(size, o.value);
      TargetKeeps(o.vm.(flagZero := x == 0), size, i.source, x, false);
    }
  }

  /** Setting flags on the way to a failure goes unnoticed exactly if they were set so. */
  lemma FlaggedKeeps(vm: Vm, read: Vm, size: Size, prtype: u8, v: u32, carry: bool, zero: bool)
    requires SameState(vm, read) && prtype < 4 && v < Modulus(size)
    ensures
      KeepsExactlyIf(
        vm, Target(read.(flagCarry := carry, flagZero := zero), size, prtype, v, false),
        vm.flagCarry == carry && vm.flagZero == zero)
    ensures KeepsExactlyIf(vm, Target(read.(flagZero := zero), size, prtype, v, false), vm.flagZero == zero)
  {
    hide Target;
    TargetKeeps(read.(flagCarry := carry, flagZero := zero), size, prtype, v, false);
    TargetKeeps(read.(flagZero := zero), size, prtype, v, false);
  }

  lemma EarlyKeeps(vm: Vm, o: Outcome<()>, condition: bool)
    requires o.Panic? ==> SameState(vm, o.vm) && condition
    ensures KeepsExactlyIf(vm, o, condition)
  {
  }

  lemma SameAsItself(vm: Vm)
    ensures SameState(vm, vm)
  {
  }

  lemma IncForm(vm: Vm, i: Instr, size: Size, op: CarryOp)
    requires i.source < 4 && i.target < 4
    ensures
      var skip, v := ShouldSkip(vm, i.condition), Source(vm, size, i.source, true);
      && (skip.Panic? ==> Inc(vm, i, size, op) == Panic(vm, skip.error))
      && (skip.Done? && skip.value ==> Inc(vm, i, size, op).Done?)
      && (skip.Done? && !skip.value && v.Panic? ==> Inc(vm, i, size, op) == Panic(v.vm, v.error))
      && (skip.Done? && !skip.value && v.Done? ==>
           var x := Checked(op, size, v.value, 1);
           Inc(vm, i, size, op) == Target(v.vm.(flagCarry := x.1, flagZero := x.0 == 0), size, i.source, x.0, false))
  {
    hide Source, Target, ShouldSkip, Checked, SkipParam;
  }

  lemma IncKeeps(vm: Vm, i: Instr, size: Size, op: CarryOp)
    requires i.source < 4 && i.target < 4
    ensures KeepsExactlyIf(vm, Inc(vm, i, size, op), SkipFails(vm, i) || IncUnnoticed(vm, i, size, op))
  {
    hide Source, Target, ShouldSkip, Checked, Inc, SameState, KeepsExactlyIf;
    SameAsItself(vm);
    IncForm(vm, i, size, op);
    SourceKeeps(vm, size, i.source, true);
    var skip, o := ShouldSkip(vm, i.condition), Source(vm, size, i.source, true);
    if skip.Panic? || skip.value || o.Panic? {
      EarlyKeeps(vm, Inc(vm, i, size, op), SkipFails(vm, i) || IncUnnoticed(vm, i, size, op));
    } else {
      var x := Checked(op, size, o.value, 1);
      FlaggedKeeps(vm, o.vm, size, i.source, x.0, x.1, x.0 == 0);
    }
  }

  /** What reading the two operands of an arithmetic instruction gives: both, or the
      failure of one; only the cursor moves. */
  function ReadOperands(vm: Vm, i: Instr, size: Size): (o: Outcome<(u32, u32)>)
    requires i.source < 4 && i.target < 4
    ensures o.Done? ==> o.value.0 < Modulus(size) && o.value.1 < Modulus(size)
  {
    var (vm, a) :- Source(vm, size, i.source, false);
    var (vm, b) :- Source(vm, size, i.target, true);
    Done(vm, (a, b))
  }

  lemma OperandsKeep(vm: Vm, i: Instr, size: Size)
    requires i.source < 4 && i.target < 4
    ensures
      var o := ReadOperands(vm, i, size);
      && !o.Undefined? && SameState(vm, o.vm)
      && TwoOperands(vm, i, size) == if o.Done? then Some(o.value) else None
  {
    hide Source;
    SourceKeeps(vm, size, i.source, false);
    var a := Source(vm, size, i.source, false);
    if a.Done? {
      SourceKeeps(a.vm, size, i.target, true);
    }
  }

  lemma AddForm(vm: Vm, i: Instr, size: Size, op: CarryOp)
    requires i.source < 4 && i.target < 4
    ensures
      var skip, o := ShouldSkip(vm, i.condition), ReadOperands(vm, i, size);
      && (skip.Panic? ==> Add(vm, i, size, op) == Panic(vm, skip.error))
      && (skip.Done? && skip.value ==> Add(vm, i, size, op).Done?)
      && (skip.Done? && !skip.value && o.Panic? ==> Add(vm, i, size, op) == Panic(o.vm, o.error))
      && (skip.Done? && !skip.value && o.Done? ==>
           var x := Checked(op, size, o.value.1, o.value.0);
           Add(vm, i, size, op) == Target(o.vm.(flagCarry := x.1, flagZero := x.0 == 0), size, i.target, x.0, false))
  {
    hide Source, Target, ShouldSkip, Checked, SkipParams;
  }

  lemma AddKeeps(vm: Vm, i: Instr, size: Size, op: CarryOp)
    requires i.source < 4 && i.target < 4
    ensures KeepsExactlyIf(vm, Add(vm, i, size, op), SkipFails(vm, i) || AddUnnoticed(vm, i, size, op))
  {
    hide Source, Target, ShouldSkip, Checked, TwoOperands, ReadOperands, Add, SameState, KeepsExactlyIf;
    SameAsItself(vm);
    AddForm(vm, i, size, op);
    OperandsKeep(vm, i, size);
    var skip, o := ShouldSkip(vm, i.condition), ReadOperands(vm, i, size);
    if skip.Panic? || skip.value || o.Panic? {
      EarlyKeeps(vm, Add(vm, i, size, op), SkipFails(vm, i) || AddUnnoticed(vm, i, size, op));
    } else {
      var x := Checked(op, size, o.value.1, o.value.0);
      FlaggedKeeps(vm, o.vm, size, i.target, x.0, x.1, x.0 == 0);
    }
  }

  lemma AndForm(vm: Vm, i: Instr, size: Size, op: ZeroOp)
    requires i.source < 4 && i.target < 4
    ensures
      var skip, o := ShouldSkip(vm, i.condition), ReadOperands(vm, i, size);
      && (skip.Panic? ==> And(vm, i, size, op) == Panic(vm, skip.error))
      && (skip.Done? && skip.value ==> And(vm, i, size, op).Done?)
      && (skip.Done? && !skip.value && o.Panic? ==> And(vm, i, size, op) == Panic(o.vm, o.error))
      && (skip.Done? && !skip.value && o.Done? ==>
           var x := Unchecked(op, size, o.value.1, o.value.0);
           And(vm, i, size, op)
           == if x.None? then Undefined
              else Target(o.vm.(flagZero := x.value == 0), size, i.target, x.value, false))
  {
    hide Source, Target, ShouldSkip, Unchecked, SkipParams;
  }

  lemma AndKeeps(vm: Vm, i: Instr, size: Size, op: ZeroOp)
    requires i.source < 4 && i.target < 4
    ensures KeepsExactlyIf(vm, And(vm, i, size, op), SkipFails(vm, i) || AndUnnoticed(vm, i, size, op))
  {
    hide Source, Target, ShouldSkip, Unchecked, TwoOperands, ReadOperands, And, SameState, KeepsExactlyIf;
    SameAsItself(vm);
    AndForm(vm, i, size, op);
    OperandsKeep(vm, i, size);
    var skip, o := ShouldSkip(vm, i.condition), ReadOperands(vm, i, size);
    if skip.Panic? || skip.value || o.Panic? || Unchecked(op, size, o.value.1, o.value.0).None? {
      EarlyKeeps(vm, And(vm, i, size, op), SkipFails(vm, i) || AndUnnoticed(vm, i, size, op));
    } else {
      var x := Unchecked(op, size, o.value.1, o.value.0).value;
      FlaggedKeeps(vm, o.vm, size, i.target, x, false, x == 0);
    }
  }

  lemma ReadBothKeep(vm: Vm, i: Instr, size: Size)
    requires i.source < 4 && i.target < 4
    ensures KeepsExactlyIf(vm, Cmp(vm, i, size), true) && KeepsExactlyIf(vm, Bts(vm, i, size), true)
  {
    hide Source, Checked, Bit, BitAnd;
    SourceKeeps(vm, size, i.source, false);
    var a := Source(vm, size, i.source, false);
    if a.Done? {
      SourceKeeps(a.vm, size, i.target, false);
    }
  }

  lemma InKeeps(vm: Vm, i: Instr, bus: Bus)
    requires i.source < 4 && i.target < 4
    ensures KeepsExactlyIf(vm, In(vm, i, bus), SkipFails(vm, i) || NoPortRead(vm, i, bus))
  {
    hide Source, Target, ShouldSkip;
    SourceKeeps(vm, Word, i.source, false);
    var port := Source(vm, Word, i.source, false);
    if port.Done? {
      var value := bus.read(vm.io, port.value);
      if value.Some? {
        var read := port.vm.(io := port.vm.io + [PortRead(port.value, value.value)]);
        TargetKeeps(read, Word, i.target, value.value, false);
        assert |read.io| == |vm.io| + 1;
      }
    }
  }

  lemma OutKeeps(vm: Vm, i: Instr, bus: Bus)
    requires i.source < 4 && i.target < 4
    ensures KeepsExactlyIf(vm, Out(vm, i, bus), true)
  {
    hide Source, ShouldSkip;
    SourceKeeps(vm, Word, i.source, false);
    var a := Source(vm, Word, i.source, false);
    if a.Done? {
      SourceKeeps(a.vm, Word, i.target, false);
    }
  }

  lemma RtaKeeps(vm: Vm, i: Instr, base: u32)
    requires i.source < 4 && i.target < 4
    ensures KeepsExactlyIf(vm, Rta(vm, i, base), true)
  {
    hide Source, Target, ShouldSkip;
    SourceKeeps(vm, Word, i.source, false);
    var o := Source(vm, Word, i.source, false);
    if o.Done? {
      TargetKeeps(o.vm, Word, i.target, Add32(base, o.value), false);
    }
  }

  lemma ReturnsKeep(vm: Vm, i: Instr)
    ensures KeepsExactlyIf(vm, Ret(vm, i), SkipFails(vm, i)) && KeepsExactlyIf(vm, Reti(vm, i), SkipFails(vm, i))
  {
    hide ShouldSkip, Pop;
    PopMoves(vm, Word);
    PopMoves(vm, Byte);
    var o := Pop(vm, Byte);
    if o.Done? {
      PopMoves(FlagsSet(o.vm, o.value), Word);
    }
  }

  lemma PlainKeep(vm: Vm, i: Instr, enabled: bool)
    ensures KeepsExactlyIf(vm, Halt(vm, i), true) && KeepsExactlyIf(vm, Brk(vm, i), true)
    ensures KeepsExactlyIf(vm, SetInterrupt(vm, i, enabled), true)
  {
    hide ShouldSkip;
  }

  // ----- as dispatched

  lemma CarryOpsKeep(vm: Vm, i: Instr, size: Size)
    requires i.source < 4 && i.target < 4
    requires i.opcode % 64 in {0x01, 0x21, 0x02, 0x0D, 0x11, 0x31}
    ensures KeepsExactlyIf(vm, DispatchSized(vm, i, size), SizedKeepsState(vm, i, size))
  {
    hide Inc, Add, KeepsExactlyIf, SkipFails, IncUnnoticed, AddUnnoticed;
    AddKeeps(vm, i, size, AddOp);
    AddKeeps(vm, i, size, SubOp);
    AddKeeps(vm, i, size, MulOp);
    AddKeeps(vm, i, size, IMulOp);
    IncKeeps(vm, i, size, AddOp);
    IncKeeps(vm, i, size, SubOp);
  }

  lemma ZeroOpsKeep(vm: Vm, i: Instr, size: Size)
    requires i.source < 4 && i.target < 4
    requires i.opcode % 64 in {
      0x22, 0x32, 0x2D, 0x3D, 0x03, 0x23, 0x13, 0x04, 0x15, 0x05, 0x24, 0x25, 0x06, 0x16}
    ensures KeepsExactlyIf(vm, DispatchSized(vm, i, size), SizedKeepsState(vm, i, size))
  {
    hide And, KeepsExactlyIf, SkipFails, AndUnnoticed;
    forall op
      ensures KeepsExactlyIf(vm, And(vm, i, size, op), SkipFails(vm, i) || AndUnnoticed(vm, i, size, op))
    {
      AndKeeps(vm, i, size, op);
    }
  }

  lemma OthersKeep(vm: Vm, i: Instr, size: Size)
    requires i.source < 4 && i.target < 4
    requires i.opcode % 64 !in {0x01, 0x21, 0x02, 0x0D, 0x11, 0x31}
    requires i.opcode % 64 !in {
      0x22, 0x32, 0x2D, 0x3D, 0x03, 0x23, 0x13, 0x04, 0x15, 0x05, 0x24, 0x25, 0x06, 0x16}
    ensures KeepsExactlyIf(vm, DispatchSized(vm, i, size), SizedKeepsState(vm, i, size))
  {
    hide Halt, Brk, PopTo, PushFrom, Mov, Not, Cmp, Bts, KeepsExactlyIf, SkipFails, SourceFails, NotUnnoticed;
    NothingDone(vm);
    PlainKeep(vm, i, false);
    PopToKeeps(vm, i, size);
    PushFromKeeps(vm, i, size);
    MovKeeps(vm, i, size, false);
    MovKeeps(vm, i, size, true);
    NotKeeps(vm, i, size);
    ReadBothKeep(vm, i, size);
  }

  lemma NothingDone(vm: Vm)
    ensures KeepsExactlyIf(vm, Done(vm, ()), true)
    ensures KeepsExactlyIf<()>(vm, Panic(vm, BadOpcode), true)
  {
  }

  lemma SizedKeeps(vm: Vm, i: Instr, size: Size)
    requires i.source < 4 && i.target < 4
    ensures KeepsExactlyIf(vm, DispatchSized(vm, i, size), SizedKeepsState(vm, i, size))
  {
    hide DispatchSized, SizedKeepsState, KeepsExactlyIf;
    if i.opcode % 64 in {0x22, 0x32, 0x2D, 0x3D, 0x03, 0x23, 0x13, 0x04, 0x15, 0x05, 0x24, 0x25, 0x06, 0x16} {
      ZeroOpsKeep(vm, i, size);
    } else if i.opcode % 64 in {0x01, 0x21, 0x02, 0x0D, 0x11, 0x31} {
      CarryOpsKeep(vm, i, size);
    } else {
      OthersKeep(vm, i, size);
    }
  }

  lemma DispatchKeeps(vm: Vm, i: Instr, base: u32, bus: Bus)
    requires i.source < 4 && i.target < 4
    ensures KeepsExactlyIf(vm, Dispatch(vm, i, base, bus), InstructionKeepsState(vm, i, bus))
  {
    hide In, Out, Rta, Ret, Reti, SetInterrupt, Jmp, Call, Loop, DispatchSized, SizedKeepsState, KeepsExactlyIf,
      SkipFails, SourceFails, NoPortRead;
    NothingDone(vm);
    var size := SizeOf(i.size);
    if size.Some? {
      SizedKeeps(vm, i, size.value);
      WordOnly(vm, i, size.value);
    }
    InKeeps(vm, i, bus);
    OutKeeps(vm, i, bus);
    RtaKeeps(vm, i, base);
    ReturnsKeep(vm, i);
    PlainKeep(vm, i, true);
    PlainKeep(vm, i, false);
    JmpKeeps(vm, i, 0);
    JmpKeeps(vm, i, base);
    CallKeeps(vm, i, 0);
    CallKeeps(vm, i, base);
    LoopKeeps(vm, i, 0);
    LoopKeeps(vm, i, base);
  }

  /** The word-only instructions have no entry among the sized ones. */
  lemma WordOnly(vm: Vm, i: Instr, size: Size)
    requires i.source < 4 && i.target < 4
    ensures
      i.opcode % 64 in {0x0B, 0x1B, 0x39, 0x2A, 0x3A, 0x0C, 0x1C, 0x08, 0x18, 0x28, 0x09, 0x19, 0x29}
      ==> SizedKeepsState(vm, i, size)
  {
  }

  /** A failing step leaves exactly the state before it, marked as halted, if and only
      if the instruction keeps the state. */
  lemma FailedStepKeepsState(vm: Vm, bus: Bus)
    requires Step(vm, bus).Report? && Step(vm, bus).error.Some?
    ensures
      var after := Step(vm, bus).vm;
      after == vm.(halted := true, pointerInstrMut := after.pointerInstrMut) <==> KeepsState(vm, bus)
  {
    hide Read, Dispatch, InstrFrom, InstructionKeepsState;
    var raw := Read(vm, Half, vm.pointerInstr);
    if raw.Done? {
      var ready := vm.(pointerInstrMut := Add32(vm.pointerInstr, 2));
      DispatchKeeps(ready, InstrFrom(raw.value), vm.pointerInstr, bus);
      var o := Dispatch(ready, InstrFrom(raw.value), vm.pointerInstr, bus);
      assert o.Panic?;
      assert !o.vm.halted <==> !vm.halted;
    }
  }

  // ----- one failing step

  /** A machine whose next instruction is push r0, with an empty stack at address 0. */
  function PushAtBottom(): Vm {
    Vm(0, 0, 0, seq(32, _ => 0), false, false, false, false,
       seq(RAM_SIZE, k => if k == 1 then 0x8A else 0), seq(ROM_SIZE, _ => 0), [])
  }

  lemma PushAtBottomReads(cursor: u32)
    ensures
      var vm := PushAtBottom().(pointerInstrMut := cursor);
      Read(vm, Half, 0) == Done(vm, 0x8A00) && Read(vm, Byte, 2) == Done(vm, 0)
  {
  }

  lemma PushAtBottomDecodes()
    ensures InstrFrom(0x8A00) == Instr(0x8A, 0, 0, 0, 2)
  {
  }

  lemma PushAtBottomPushes()
    ensures
      var vm := PushAtBottom().(pointerInstrMut := 2);
      && Source(vm, Word, 0, false) == Done(vm.(pointerInstrMut := 3), 0)
      && PushFrom(vm, Instr(0x8A, 0, 0, 0, 2), Word)
         == Panic(vm.(pointerInstrMut := 3, pointerStack := 0xFFFF_FFFC), Fault)
  {
    hide Read;
    PushAtBottomReads(3);
    var read := PushAtBottom().(pointerInstrMut := 3);
    assert Push(read, Word, 0) == Panic(read.(pointerStack := 0xFFFF_FFFC), Fault);
    hide Push;
  }

  lemma DispatchPush(vm: Vm, bus: Bus)
    ensures Dispatch(vm, Instr(0x8A, 0, 0, 0, 2), 0, bus) == PushFrom(vm, Instr(0x8A, 0, 0, 0, 2), Word)
  {
    hide PushFrom, In, Out, Rta, Ret, Reti, SetInterrupt, Jmp, Call, Loop, Halt, Brk, PopTo, Mov, Not, Inc, Add, And,
      Cmp, Bts;
  }

  lemma PushKeepsIf(vm: Vm, bus: Bus)
    ensures
      var i := Instr(0x8A, 0, 0, 0, 2);
      InstructionKeepsState(vm, i, bus) <==> SkipFails(vm, i) || SourceFails(vm, i, Word, false)
  {
    hide SkipFails, SourceFails;
  }

  /** That step faults and leaves the stack pointer moved. */
  lemma FailingPushStep(bus: Bus)
    ensures
      var vm := PushAtBottom();
      && Step(vm, bus).Report? && Step(vm, bus).error == Some(Fault)
      && Step(vm, bus).vm.pointerStack == 0xFFFF_FFFC != vm.pointerStack
      && !KeepsState(vm, bus)
  {
    hide Read, InstrFrom, Dispatch, PushFrom, Source, InstructionKeepsState;
    var vm := PushAtBottom();
    PushAtBottomReads(0);
    PushAtBottomDecodes();
    PushAtBottomPushes();
    DispatchPush(vm.(pointerInstrMut := 2), bus);
    PushKeepsIf(vm.(pointerInstrMut := 2), bus);
  }
}
