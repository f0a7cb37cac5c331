/** The Rust interpreter as it runs: one mutable processor whose routines update fields
    and memory in place, each proved to do what the functions of module Cpu say.  A
    routine gives false where the source panics. */
module CpuMachine {
  import opened Words
  import opened Arithmetic
  import opened Memory
  import opened WordArrays
  import R = Cpu
  import opened Interrupts
  import L = Lockstep
  import F = Completion
  import S = Steps

  /** A routine that only changes the state does what the function says. */
  ghost predicate Becomes(o: Option<R.State>, ok: bool, after: R.State) {
    (ok <==> o.Some?) && (ok ==> after == o.value)
  }

  /** A routine that also gives a value. */
  ghost predicate Gives<T>(o: Option<(R.State, T)>, ok: bool, after: R.State, value: T) {
    (ok <==> o.Some?) && (ok ==> after == o.value.0 && value == o.value.1)
  }

  /** A routine that only computes a value. */
  ghost predicate Finds<T>(o: Option<T>, ok: bool, value: T) {
    (ok <==> o.Some?) && (ok ==> value == o.value)
  }

  /** A two-operand instruction on a register. */
  ghost function OnRegister(
    cpu: R.State, op: R.TwoOp, size: Size, shouldRun: bool, sourceValue: u32, offset: u32): Option<(R.State, u32)>
    requires offset <= 6
  {
    var register :- R.Read(cpu, Byte, R.At(cpu, offset));
    var next := R.At(cpu, offset + 1);
    if !shouldRun then
      if R.Eager(op) && register > 32 then None else Some((cpu, next))
    else
      var whole :- R.ReadRegister(cpu, register);
      var alu :- R.Compute(op, size, Trunc(size, whole), sourceValue);
      var written :- if R.Stores(op) then R.MergeRegister(cpu, size, register, alu.result) else Some(cpu);
      Some((R.SetFlags(written, alu), next))
  }

  /** A two-operand instruction on memory. */
  ghost function OnMemory(
    cpu: R.State, op: R.TwoOp, size: Size, shouldRun: bool, destination: R.Operand, sourceValue: u32, offset: u32)
    : Option<(R.State, u32)>
    requires offset <= 6
  {
    var pointer :- R.Pointer(cpu, destination, offset);
    var left :- R.Read(cpu, size, pointer);
    var alu :- R.Compute(op, size, left, sourceValue);
    var next := R.At(cpu, offset + R.OperandWidth(destination));
    if !shouldRun then Some((cpu, next))
    else
      var written :- if R.Stores(op) then R.Write(cpu, size, pointer, alu.result) else Some(cpu);
      Some((R.SetFlags(written, alu), next))
  }

  /** A two-operand instruction reads its source first, and then works on a register or
      on memory. */
  lemma TwoForm(
    cpu: R.State, op: R.TwoOp, size: Size, condition: R.Condition, destination: R.Operand, source: R.Operand)
    ensures
      var s := R.ReadSource(cpu, source);
      && (s.None? ==> R.ExecuteTwo(cpu, op, size, condition, destination, source).None?)
      && (s.Some? ==>
           && s.value.1 <= 6
           && R.ExecuteTwo(cpu, op, size, condition, destination, source)
              == if destination.Register?
                 then OnRegister(cpu, op, size, R.CheckCondition(cpu, condition), s.value.0, s.value.1)
                 else OnMemory(cpu, op, size, R.CheckCondition(cpu, condition), destination, s.value.0, s.value.1))
  {
    hide R.ReadSource, R.CheckCondition, R.Read, R.ReadRegister, R.MergeRegister, R.Write, R.Pointer, R.Compute;
    hide R.SetFlags, R.At, Trunc;
    SourceOffset(cpu, source);
  }

  class Processor {
    var instructionPointer: u32
    var stackPointer: u32
    const register: array<u32>
    var flag: R.Flag
    var halted: bool
    const ram: array<u8>
    const rom: array<u8>
    var io: seq<IoEvent>

    /** A processor as it is created, on the machine's memory. */
    constructor (ram: array<u8>, rom: array<u8>)
      requires ram.Length == RAM_SIZE && rom.Length == ROM_SIZE && ram != rom
      ensures Valid() && this.ram == ram && this.rom == rom && fresh(register)
      ensures State() == R.State(
        ROM_START, 0, seq(32, _ => 0), R.Flag(false, false, false), false, ram[..], rom[..], [])
    {
      instructionPointer, stackPointer := ROM_START, 0;
      register := new u32[32](_ => 0);
      flag := R.Flag(false, false, false);
      halted := false;
      this.ram, this.rom := ram, rom;
      io := [];
    }

    ghost predicate Valid() {
      register.Length == 32 && ram.Length == RAM_SIZE && rom.Length == ROM_SIZE && ram != rom
    }

    ghost function State(): R.State
      requires Valid()
      reads this, register, ram, rom
    {
      R.State(instructionPointer, stackPointer, register[..], flag, halted, ram[..], rom[..], io)
    }

    // ----- memory, registers and stack

    method Read(size: Size, address: u32) returns (ok: bool, value: u32)
      requires Valid()
      ensures Finds(R.Read(State(), size, address), ok, value)
    {
      hide Load;
      ok, value := true, 0;
      match R.Find(address, size) {
        case Some(place) =>
          match place {
            case InRam(offset) => value := ReadSized(ram, size, offset);
            case InRom(offset) => value := ReadSized(rom, size, offset);
          }
        case None => ok := false;
      }
    }

    method Write(size: Size, address: u32, value: u32) returns (ok: bool)
      requires Valid()
      modifies ram, rom
      ensures Becomes(R.Write(old(State()), size, address, value), ok, State())
    {
      hide Store;
      ok := true;
      match R.Find(address, size) {
        case Some(place) =>
          match place {
            case InRam(offset) => WriteSized(ram, size, offset, value);
            case InRom(offset) => WriteSized(rom, size, offset, value);
          }
        case None => ok := false;
      }
    }

    method ReadRegister(r: u8) returns (ok: bool, value: u32)
      requires Valid()
      ensures Finds(R.ReadRegister(State(), r), ok, value)
    {
      ok, value := true, 0;
      if r < 32 {
        value := register[r];
      } else if r == 32 {
        value := stackPointer;
      } else {
        ok := false;
      }
    }

    method WriteRegister(r: u8, word: u32) returns (ok: bool)
      requires Valid()
      modifies this`stackPointer, register
      ensures Becomes(R.WriteRegister(old(State()), r, word), ok, State())
    {
      ok := true;
      if r < 32 {
        register[r] := word;
      } else if r == 32 {
        stackPointer := word;
      } else {
        ok := false;
      }
    }

    method MergeRegister(size: Size, r: u8, value: u32) returns (ok: bool)
      requires Valid() && value < Modulus(size)
      modifies this`stackPointer, register
      ensures Becomes(R.MergeRegister(old(State()), size, r, value), ok, State())
    {
      hide R.ReadRegister, R.WriteRegister, Merge;
      var whole;
      ok, whole := ReadRegister(r);
      if ok {
        ok := WriteRegister(r, Merge(size, whole, value));
      }
    }

    method PushStack(size: Size, value: u32) returns (ok: bool)
      requires Valid()
      modifies this`stackPointer, ram, rom
      ensures Becomes(R.PushStack(old(State()), size, value), ok, State())
    {
      hide R.Write;
      stackPointer := Sub32(stackPointer, Bytes(size));
      ok := Write(size, stackPointer, value);
    }

    method PopStack(size: Size) returns (ok: bool, value: u32)
      requires Valid()
      modifies this`stackPointer
      ensures Gives(R.PopStack(old(State()), size), ok, State(), value)
    {
      hide R.Read;
      ok, value := Read(size, stackPointer);
      stackPointer := Add32(stackPointer, Bytes(size));
    }

    // ----- operands

    method CheckCondition(condition: R.Condition) returns (holds: bool)
      requires Valid()
      ensures holds == R.CheckCondition(State(), condition)
    {
      match condition
      case Always => holds := true;
      case Zero => holds := flag.zero;
      case NotZero => holds := !flag.zero;
      case Carry => holds := flag.carry;
      case NotCarry => holds := !flag.carry;
      case GreaterThan => holds := !flag.carry && !flag.zero;
      case LessThanEqualTo => holds := flag.carry || flag.zero;
    }

    method At(offset: u32) returns (address: u32)
      requires Valid()
      ensures address == R.At(State(), offset)
    {
      address := Add32(instructionPointer, offset);
    }

    method ReadSource(source: R.Operand) returns (ok: bool, value: u32, offset: u32)
      requires Valid()
      ensures Finds(R.ReadSource(State(), source), ok, (value, offset))
    {
      hide R.Read, R.ReadRegister;
      value, offset := 0, 2;
      var r;
      match source {
        case Register =>
          ok, r := Read(Byte, Add32(instructionPointer, offset));
          if ok {
            ok, value := ReadRegister(r);
          }
          offset := offset + 1;
        case RegisterPtr =>
          ok, r := Read(Byte, Add32(instructionPointer, offset));
          if ok {
            var pointer;
            ok, pointer := ReadRegister(r);
            if ok {
              ok, value := Read(Word, pointer);
            }
          }
          offset := offset + 1;
        case Immediate8 =>
          ok, value := Read(Byte, Add32(instructionPointer, offset));
          offset := offset + 1;
        case Immediate16 =>
          ok, value := Read(Half, Add32(instructionPointer, offset));
          offset := offset + 2;
        case Immediate32 =>
          ok, value := Read(Word, Add32(instructionPointer, offset));
          offset := offset + 4;
        case ImmediatePtr(size) =>
          var pointer;
          ok, pointer := Read(Word, Add32(instructionPointer, offset));
          if ok {
            ok, value := Read(size, pointer);
          }
          offset := offset + 4;
      }
    }

    method Pointer(operand: R.Operand, offset: u32) returns (ok: bool, pointer: u32)
      requires Valid()
      ensures Finds(R.Pointer(State(), operand, offset), ok, pointer)
    {
      hide R.Read, R.ReadRegister;
      ok, pointer := false, 0;
      match operand {
        case RegisterPtr =>
          var r;
          ok, r := Read(Byte, Add32(instructionPointer, offset));
          if ok {
            ok, pointer := ReadRegister(r);
          }
        case ImmediatePtr(_) =>
          ok, pointer := Read(Word, Add32(instructionPointer, offset));
        case _ =>
      }
    }

    method SetFlags(alu: R.Alu)
      requires Valid()
      modifies this`flag
      ensures State() == R.SetFlags(old(State()), alu)
    {
      if alu.zero.Some? {
        flag := flag.(zero := alu.zero.value);
      }
      if alu.carry.Some? {
        flag := flag.(carry := alu.carry.value);
      }
    }

    // ----- instructions: each gives the next instruction pointer

    method ExecuteTwo(op: R.TwoOp, size: Size, condition: R.Condition, destination: R.Operand, source: R.Operand)
      returns (ok: bool, next: u32)
      requires Valid()
      modifies this`stackPointer, this`flag, register, ram, rom
      ensures Gives(R.ExecuteTwo(old(State()), op, size, condition, destination, source), ok, State(), next)
    {
      hide R.ReadSource, R.CheckCondition, R.ExecuteTwo, OnRegister, OnMemory;
      var sourceValue, offset;
      next := 0;
      TwoForm(State(), op, size, condition, destination, source);
      ok, sourceValue, offset := ReadSource(source);
      if !ok {
        return;
      }
      SourceOffset(State(), source);
      var shouldRun := CheckCondition(condition);
      if destination.Register? {
        ok, next := TwoRegister(op, size, shouldRun, sourceValue, offset);
      } else {
        ok, next := TwoMemory(op, size, shouldRun, destination, sourceValue, offset);
      }
    }

    method TwoMemory(
      op: R.TwoOp, size: Size, shouldRun: bool, destination: R.Operand, sourceValue: u32, offset: u32)
      returns (ok: bool, next: u32)
      requires Valid() && offset <= 6
      modifies this`flag, ram, rom
      ensures Gives(OnMemory(old(State()), op, size, shouldRun, destination, sourceValue, offset), ok, State(), next)
    {
      hide R.Read, R.Write, R.Pointer, R.Compute, R.SetFlags, R.At;
      var pointer, left;
      next := 0;
      ok, pointer := Pointer(destination, offset);
      if !ok {
        return;
      }
      ok, left := Read(size, pointer);
      if !ok {
        return;
      }
      match R.Compute(op, size, left, sourceValue) {
        case None => ok := false;
        case Some(alu) =>
          next := At(offset + R.OperandWidth(destination));
          if shouldRun {
            if R.Stores(op) {
              ok := Write(size, pointer, alu.result);
            }
            if ok {
              SetFlags(alu);
            }
          }
      }
    }

    method TwoRegister(op: R.TwoOp, size: Size, shouldRun: bool, sourceValue: u32, offset: u32)
      returns (ok: bool, next: u32)
      requires Valid() && offset <= 6
      modifies this`stackPointer, this`flag, register
      ensures Gives(OnRegister(old(State()), op, size, shouldRun, sourceValue, offset), ok, State(), next)
    {
      hide R.Read, R.ReadRegister, R.MergeRegister, R.Compute, R.SetFlags, R.At, Trunc;
      var r, whole;
      next := 0;
      ok, r := Read(Byte, Add32(instructionPointer, offset));
      AtIs(State(), offset);
      if !ok {
        return;
      }
      next := At(offset + 1);
      if !shouldRun {
        if R.Eager(op) {
          ok := r <= 32;
        }
        return;
      }
      ok, whole := ReadRegister(r);
      if !ok {
        return;
      }
      match R.Compute(op, size, Trunc(size, whole), sourceValue) {
        case None => ok := false;
        case Some(alu) =>
          if R.Stores(op) {
            ok := MergeRegister(size, r, alu.result);
          }
          if ok {
            SetFlags(alu);
          }
      }
    }

    method ExecuteOne(op: R.OneOp, size: Size, condition: R.Condition, source: R.Operand)
      returns (ok: bool, next: u32)
      requires Valid()
      modifies this`stackPointer, this`flag, register, ram, rom
      ensures Gives(R.ExecuteOne(old(State()), op, size, condition, source), ok, State(), next)
    {
      hide R.CheckCondition, R.Read, R.ReadRegister, R.MergeRegister, R.Write, R.Pointer, R.ComputeOne, R.SetFlags,
        R.At, Trunc;
      next := 0;
      AtIs(State(), 2);
      var shouldRun := CheckCondition(condition);
      if source.Register? {
        var r, whole;
        ok, r := Read(Byte, Add32(instructionPointer, 2));
        if !ok {
          return;
        }
        next := At(3);
        if shouldRun {
          ok, whole := ReadRegister(r);
          if ok {
            var alu := R.ComputeOne(op, size, Trunc(size, whole));
            ok := MergeRegister(size, r, alu.result);
            if ok {
              SetFlags(alu);
            }
          }
        }
      } else {
        var pointer, left;
        ok, pointer := Pointer(source, 2);
        if !ok {
          return;
        }
        next := At(2 + R.OperandWidth(source));
        if shouldRun {
          ok, left := Read(size, pointer);
          if ok {
            var alu := R.ComputeOne(op, size, left);
            ok := Write(size, pointer, alu.result);
            if ok {
              SetFlags(alu);
            }
          }
        } else if op.Not? {
          ok, left := Read(size, pointer);
        }
      }
    }

    method ExecuteMov(size: Size, condition: R.Condition, destination: R.Operand, source: R.Operand)
      returns (ok: bool, next: u32)
      requires Valid()
      modifies this`stackPointer, register, ram, rom
      ensures Gives(R.ExecuteMov(old(State()), size, condition, destination, source), ok, State(), next)
    {
      hide R.ReadSource, R.CheckCondition, R.Read, R.MergeRegister, R.Write, R.Pointer, R.At, Trunc;
      var sourceValue, offset;
      next := 0;
      ok, sourceValue, offset := ReadSource(source);
      if !ok {
        return;
      }
      SourceOffset(State(), source);
      AtIs(State(), offset);
      var shouldRun := CheckCondition(condition);
      if destination.Register? {
        var r;
        ok, r := Read(Byte, Add32(instructionPointer, offset));
        if !ok {
          return;
        }
        next := At(offset + 1);
        if shouldRun {
          ok := MergeRegister(size, r, Trunc(size, sourceValue));
        }
      } else {
        var pointer;
        ok, pointer := Pointer(destination, offset);
        if !ok {
          return;
        }
        next := At(offset + R.OperandWidth(destination));
        if shouldRun {
          ok := Write(size, pointer, Trunc(size, sourceValue));
        }
      }
    }

    method ExecuteMovz(size: Size, condition: R.Condition, destination: R.Operand, source: R.Operand)
      returns (ok: bool, next: u32)
      requires Valid()
      modifies this`stackPointer, register
      ensures Gives(R.ExecuteMovz(old(State()), size, condition, destination, source), ok, State(), next)
    {
      hide R.ReadSource, R.CheckCondition, R.Read, R.WriteRegister, R.At, Trunc;
      var sourceValue, offset, r;
      next := 0;
      ok, sourceValue, offset := ReadSource(source);
      if !ok || !destination.Register? {
        ok := false;
        return;
      }
      SourceOffset(State(), source);
      AtIs(State(), offset);
      var shouldRun := CheckCondition(condition);
      ok, r := Read(Byte, Add32(instructionPointer, offset));
      if !ok {
        return;
      }
      next := At(offset + 1);
      if shouldRun {
        ok := WriteRegister(r, Trunc(size, sourceValue));
      }
    }

    method ExecuteJump(op: R.JumpOp, condition: R.Condition, source: R.Operand) returns (ok: bool, next: u32)
      requires Valid()
      modifies this`stackPointer, register, ram, rom
      ensures Gives(R.ExecuteJump(old(State()), op, condition, source), ok, State(), next)
    {
      hide R.ReadSource, R.CheckCondition, R.PushStack, R.At;
      var sourceValue, offset;
      next := 0;
      ok, sourceValue, offset := ReadSource(source);
      if !ok {
        return;
      }
      AtIs(State(), sourceValue);
      var shouldRun := CheckCondition(condition);
      next := At(offset);
      var destination :=
        if op.Rjmp? || op.Rcall? || op.Rloop? then Add32(instructionPointer, sourceValue) else sourceValue;
      match op {
        case Jmp | Rjmp =>
          if shouldRun {
            next := destination;
          }
        case Call | Rcall =>
          if shouldRun {
            ok := PushStack(Word, next);
            next := destination;
          }
        case Loop | Rloop =>
          register[31] := Sub32(register[31], 1);
          if shouldRun && register[31] != 0 {
            next := destination;
          }
      }
    }

    method ExecuteRta(condition: R.Condition, destination: R.Operand, source: R.Operand) returns (ok: bool, next: u32)
      requires Valid()
      modifies this`stackPointer, register, ram, rom
      ensures Gives(R.ExecuteRta(old(State()), condition, destination, source), ok, State(), next)
    {
      hide R.ReadSource, R.CheckCondition, R.Read, R.WriteRegister, R.Write, R.Pointer, R.At;
      var sourceValue, offset;
      next := 0;
      ok, sourceValue, offset := ReadSource(source);
      if !ok {
        return;
      }
      SourceOffset(State(), source);
      AtIs(State(), offset);
      var shouldRun := CheckCondition(condition);
      var value := At(sourceValue);
      if destination.Register? {
        var r;
        ok, r := Read(Byte, Add32(instructionPointer, offset));
        if !ok {
          return;
        }
        next := At(offset + 1);
        if shouldRun {
          ok := WriteRegister(r, value);
        }
      } else {
        var pointer;
        ok, pointer := Pointer(destination, offset);
        if !ok {
          return;
        }
        next := At(offset + R.OperandWidth(destination));
        if shouldRun {
          pointer := At(pointer);
          ok := Write(Word, pointer, value);
        }
      }
    }

    method ExecutePush(size: Size, condition: R.Condition, source: R.Operand) returns (ok: bool, next: u32)
      requires Valid()
      modifies this`stackPointer, ram, rom
      ensures Gives(R.ExecutePush(old(State()), size, condition, source), ok, State(), next)
    {
      hide R.ReadSource, R.CheckCondition, R.PushStack, R.At, Trunc;
      var sourceValue, offset;
      next := 0;
      ok, sourceValue, offset := ReadSource(source);
      if !ok {
        return;
      }
      var shouldRun := CheckCondition(condition);
      next := At(offset);
      if shouldRun {
        ok := PushStack(size, Trunc(size, sourceValue));
      }
    }

    method ExecutePop(size: Size, condition: R.Condition, source: R.Operand) returns (ok: bool, next: u32)
      requires Valid()
      modifies this`stackPointer, register, ram, rom
      ensures Gives(R.ExecutePop(old(State()), size, condition, source), ok, State(), next)
    {
      hide R.CheckCondition, R.Read, R.MergeRegister, R.Write, R.Pointer, R.PopStack, R.At;
      next := 0;
      AtIs(State(), 2);
      var value;
      var shouldRun := CheckCondition(condition);
      if source.Register? {
        var r;
        ok, r := Read(Byte, Add32(instructionPointer, 2));
        if !ok {
          return;
        }
        next := At(3);
        if shouldRun {
          ok, value := PopStack(size);
          if ok {
            ok := MergeRegister(size, r, value);
          }
        }
      } else {
        var pointer;
        ok, pointer := Pointer(source, 2);
        if !ok {
          return;
        }
        next := At(2 + R.OperandWidth(source));
        if shouldRun {
          ok, value := PopStack(size);
          if ok {
            ok := Write(size, pointer, value);
          }
        }
      }
    }

    method ExecutePlain(op: R.PlainOp, condition: R.Condition) returns (ok: bool, next: u32)
      requires Valid()
      modifies this`stackPointer, this`flag, this`halted
      ensures Gives(R.ExecutePlain(old(State()), op, condition), ok, State(), next)
    {
      hide R.CheckCondition, R.PopStack, R.At, R.FlagFromByte;
      ok := true;
      next := At(2);
      var shouldRun := CheckCondition(condition);
      if !shouldRun {
        return;
      }
      match op {
        case Halt => halted := true;
        case Brk =>
        case Ret => ok, next := PopStack(Word);
        case Reti =>
          var flags;
          ok, flags := PopStack(Byte);
          if ok {
            flag := R.FlagFromByte(flags);
            ok, next := PopStack(Word);
          }
        case Ise => flag := flag.(interrupt := true);
        case Icl => flag := flag.(interrupt := false);
      }
    }

    method ExecuteIn(condition: R.Condition, destination: R.Operand, source: R.Operand, bus: Bus)
      returns (ok: bool, next: u32)
      requires Valid()
      modifies this`stackPointer, this`io, register, ram, rom
      ensures Gives(R.ExecuteIn(old(State()), condition, destination, source, bus), ok, State(), next)
    {
      hide R.ReadSource, R.CheckCondition, R.Read, R.WriteRegister, R.Write, R.Pointer, R.At;
      var port, offset;
      next := 0;
      ok, port, offset := ReadSource(source);
      if !ok {
        return;
      }
      SourceOffset(State(), source);
      AtIs(State(), offset);
      var shouldRun := CheckCondition(condition);
      var r: u32, pointer := 0, 0;
      if destination.Register? {
        ok, r := Read(Byte, Add32(instructionPointer, offset));
        ByteSized(State(), Add32(instructionPointer, offset));
      } else {
        ok, pointer := Pointer(destination, offset);
      }
      if !ok {
        return;
      }
      ghost var before := State();
      match bus.read(io, port) {
        case None => ok := false;
        case Some(value) =>
          io := io + [PortRead(port, value)];
          AtIgnoresIo(before, io);
          next := At(offset + R.OperandWidth(destination));
          if shouldRun {
            if destination.Register? {
              ok := WriteRegister(r, value);
            } else {
              ok := Write(Word, pointer, value);
            }
          }
      }
    }

    method ExecuteOut(condition: R.Condition, destination: R.Operand, source: R.Operand, bus: Bus)
      returns (ok: bool, next: u32)
      requires Valid()
      modifies this`io
      ensures Gives(R.ExecuteOut(old(State()), condition, destination, source, bus), ok, State(), next)
    {
      hide R.ReadSource, R.CheckCondition, R.Read, R.ReadRegister, R.Pointer, R.At;
      var value, offset, port;
      next := 0;
      ok, value, offset := ReadSource(source);
      if !ok {
        return;
      }
      SourceOffset(State(), source);
      AtIs(State(), offset);
      var shouldRun := CheckCondition(condition);
      if destination.Register? {
        var r;
        ok, r := Read(Byte, Add32(instructionPointer, offset));
        if !ok {
          return;
        }
        next := At(offset + 1);
        if shouldRun {
          ok, port := ReadRegister(r);
        }
      } else {
        var pointer;
        ok, pointer := Pointer(destination, offset);
        if !ok {
          return;
        }
        next := At(offset + R.OperandWidth(destination));
        if shouldRun {
          ok, port := Read(Word, pointer);
        }
      }
      if shouldRun && ok {
        ok := bus.write(io, port, value);
        if ok {
          io := io + [PortWrite(port, value)];
        }
      }
    }

    method ExecuteInstruction(instruction: R.Instruction, bus: Bus) returns (ok: bool, next: u32)
      requires Valid()
      modifies this, register, ram, rom
      ensures Gives(R.ExecuteInstruction(old(State()), instruction, bus), ok, State(), next)
    {
      hide R.ExecutePlain, R.ExecuteOne, R.ExecuteTwo, R.ExecuteMov, R.ExecuteMovz, R.ExecuteJump, R.ExecuteRta,
        R.ExecutePush, R.ExecutePop, R.ExecuteIn, R.ExecuteOut, R.At;
      match instruction
      case Nop =>
        ok := true;
        next := At(2);
      case Plain(op, condition) => ok, next := ExecutePlain(op, condition);
      case One(op, size, condition, source) => ok, next := ExecuteOne(op, size, condition, source);
      case Two(op, size, condition, destination, source) =>
        ok, next := ExecuteTwo(op, size, condition, destination, source);
      case Mov(size, condition, destination, source) => ok, next := ExecuteMov(size, condition, destination, source);
      case Movz(size, condition, destination, source) => ok, next := ExecuteMovz(size, condition, destination, source);
      case Jump(op, condition, source) => ok, next := ExecuteJump(op, condition, source);
      case Rta(condition, destination, source) => ok, next := ExecuteRta(condition, destination, source);
      case Push(size, condition, source) => ok, next := ExecutePush(size, condition, source);
      case Pop(size, condition, source) => ok, next := ExecutePop(size, condition, source);
      case In(condition, destination, source) => ok, next := ExecuteIn(condition, destination, source, bus);
      case Out(condition, destination, source) => ok, next := ExecuteOut(condition, destination, source, bus);
    }

    /** One step of the interpreter. */
    method ExecuteMemoryInstruction(bus: Bus) returns (ok: bool)
      requires Valid()
      modifies this, register, ram, rom
      ensures Becomes(R.ExecuteMemoryInstruction(old(State()), bus), ok, State())
      ensures ok && F.CoreFollows(old(State())) && L.Covered(old(State()), L.Next(old(State())).value) ==>
        S.StepMeans(S.VmOf(old(State())), S.VmOf(State()))
    {
      hide R.Read, R.FromHalf, R.ExecuteInstruction, L.Next, L.Covered, S.StepMeans, F.WordOnly, F.WritesRom;
      StepMeansIfFollowed(State(), bus);
      var opcode, next;
      ok, opcode := Read(Half, instructionPointer);
      if ok {
        match R.FromHalf(opcode) {
          case None => ok := false;
          case Some(instruction) =>
            ok, next := ExecuteInstruction(instruction, bus);
            instructionPointer := next;
        }
      }
    }

    method HandleInterrupt(vector: u16) returns (ok: bool)
      requires Valid()
      modifies this, ram, rom
      ensures Becomes(R.HandleInterrupt(old(State()), vector), ok, State())
    {
      hide R.Read, R.PushStack, R.FlagToByte;
      var address;
      ok, address := Read(Word, vector * 4);
      if ok {
        ok := PushStack(Word, instructionPointer);
        if ok {
          ok := PushStack(Byte, R.FlagToByte(flag));
          if ok {
            flag := flag.(interrupt := false);
            instructionPointer := address;
          }
        }
      }
    }

    /** An interrupt request: ignored while interrupts are disabled.  An accepted one saves
        the instruction pointer and the flags in the five bytes below the stack pointer,
        enters the handler, and can be returned from. */
    method Interrupt(vector: u8) returns (ok: bool)
      requires Valid()
      modifies this, ram, rom
      ensures Becomes(R.Interrupt(old(State()), vector), ok, State())
      ensures !old(flag.interrupt) ==> ok && State() == old(State())
      ensures old(flag.interrupt) ==> (ok <==> RoomForFrame(old(stackPointer)) || FrameInRom(old(stackPointer)))
      ensures old(flag.interrupt) && RoomForFrame(old(stackPointer)) ==>
        var before := old(State());
        && State() == before.(
             instructionPointer := Load(Word, before.ram, 4 * vector),
             stackPointer := before.stackPointer - 5,
             flag := before.flag.(interrupt := false),
             ram := WithFrame(before.ram, before.stackPointer, before.instructionPointer, R.FlagToByte(before.flag)))
        && ReturnsTo(before, State())
    {
      hide R.HandleInterrupt, R.Interrupt, WithFrame, Load, R.FlagToByte, ReturnsTo;
      InterruptRefused(State(), vector);
      if flag.interrupt {
        CpuRaiseSucceeds(State(), vector);
        if RoomForFrame(stackPointer) {
          CpuRaised(State(), vector);
          InterruptReturns(State(), vector);
        }
      }
      ok := true;
      if flag.interrupt {
        ok := HandleInterrupt(vector);
      }
    }
  }

  lemma StepMeansIfFollowed(cpu: R.State, bus: Bus)
    ensures
      var after := R.ExecuteMemoryInstruction(cpu, bus);
      after.Some? && F.CoreFollows(cpu) && L.Covered(cpu, L.Next(cpu).value) ==>
        S.StepMeans(S.VmOf(cpu), S.VmOf(after.value))
  {
    hide R.ExecuteMemoryInstruction, L.Next, L.Covered, S.StepMeans, F.WordOnly, F.WritesRom;
    if
      && R.ExecuteMemoryInstruction(cpu, bus).Some? && F.CoreFollows(cpu)
      && L.Covered(cpu, L.Next(cpu).value)
    {
      S.CpuStepsMean(cpu, bus);
    }
  }

  lemma InterruptRefused(cpu: R.State, vector: u8)
    ensures R.Interrupt(cpu, vector) == if cpu.flag.interrupt then R.HandleInterrupt(cpu, vector) else Some(cpu)
  {
    hide R.HandleInterrupt;
  }

  lemma ByteSized(cpu: R.State, address: u32)
    ensures R.Read(cpu, Byte, address).Some? ==> R.Read(cpu, Byte, address).value < 0x100
  {
  }

  lemma AtIgnoresIo(cpu: R.State, io: seq<IoEvent>)
    ensures forall offset: u32 :: R.At(cpu.(io := io), offset) == R.At(cpu, offset)
  {
  }

  lemma AtIs(cpu: R.State, offset: u32)
    ensures R.At(cpu, offset) == Add32(cpu.instructionPointer, offset)
  {
  }

  lemma SourceOffset(cpu: R.State, source: R.Operand)
    ensures R.ReadSource(cpu, source).Some? ==> R.ReadSource(cpu, source).value.1 <= 6
  {
    hide R.Read, R.ReadRegister;
  }
}
