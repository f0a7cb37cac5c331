/** The C interpreter as it runs: one mutable machine whose routines update fields and
    memory in place, each proved to do what the functions of module Core say. */
module CoreMachine {
  import opened Words
  import opened Arithmetic
  import opened Memory
  import opened WordArrays
  import C = Core
  import opened CoreRuns
  import opened Interrupts
  import opened Restart
  import opened Recovery
  import opened Meaning
  import opened Steps

  /** How a routine ends: normally, by a longjmp to the caller of the machine, or at a
      point where C gives the program no meaning. */
  datatype Status = Ok | Panicked(error: C.Error) | NoMeaning

  /** The status, result and state a routine leaves are those of an outcome. */
  ghost predicate Agrees<T>(o: C.Outcome<T>, status: Status, value: T, after: C.Vm) {
    match o
    case Done(vm, v) => status == Ok && value == v && after == vm
    case Panic(vm, error) => status == Panicked(error) && after == vm
    case Undefined => status == NoMeaning
  }

  class Machine {
    var pointerInstrMut: u32
    var pointerInstr: u32
    var pointerStack: u32
    const registers: array<u32>
    var flagZero: bool
    var flagCarry: bool
    var flagInterrupt: bool
    var halted: bool
    const memoryRam: array<u8>
    const memoryRom: array<u8>
    var io: seq<IoEvent>

    /** A machine as it is created: halted, at the start of ROM, all memory zero. */
    constructor ()
      ensures Valid() && fresh(registers) && fresh(memoryRam) && fresh(memoryRom)
      ensures State() == C.Vm(
        0, ROM_START, 0, seq(32, _ => 0), false, false, false, true,
        seq(RAM_SIZE, _ => 0), seq(ROM_SIZE, _ => 0), [])
    {
      pointerInstrMut, pointerInstr, pointerStack := 0, ROM_START, 0;
      registers := new u32[32](_ => 0);
      flagZero, flagCarry, flagInterrupt, halted := false, false, false, true;
      memoryRam := new u8[RAM_SIZE](_ => 0);
      memoryRom := new u8[ROM_SIZE](_ => 0);
      io := [];
    }

    ghost predicate Valid() {
      && registers.Length == 32
      && memoryRam.Length == RAM_SIZE
      && memoryRom.Length == ROM_SIZE
      && memoryRam != memoryRom
    }

    ghost function State(): C.Vm
      requires Valid()
      reads this, registers, memoryRam, memoryRom
    {
      C.Vm(
        pointerInstrMut, pointerInstr, pointerStack, registers[..],
        flagZero, flagCarry, flagInterrupt, halted, memoryRam[..], memoryRom[..], io)
    }

    // ----- memory, registers and stack

    method Read(size: Size, address: u32) returns (status: Status, value: u32)
      requires Valid()
      ensures Agrees(C.Read(State(), size, address), status, value, State())
    {
      hide Load;
      status, value := Ok, 0;
      match C.FindMemory(address, size, false) {
        case Some(place) =>
          match place {
            case InRam(offset) => value := ReadSized(memoryRam, size, offset);
            case InRom(offset) => value := ReadSized(memoryRom, size, offset);
          }
        case None => status := Panicked(C.Fault);
      }
    }

    method Write(size: Size, address: u32, value: u32) returns (status: Status)
      requires Valid()
      modifies memoryRam
      ensures Agrees(C.Write(old(State()), size, address, value), status, (), State())
    {
      hide Store;
      match C.FindMemory(address, size, true) {
        case Some(place) =>
          WriteSized(memoryRam, size, place.offset, value);
          status := Ok;
        case None => status := Panicked(C.Fault);
      }
    }

    method Push(size: Size, value: u32) returns (status: Status)
      requires Valid()
      modifies this`pointerStack, memoryRam
      ensures Agrees(C.Push(old(State()), size, value), status, (), State())
    {
      hide C.Write;
      pointerStack := Sub32(pointerStack, Bytes(size));
      status := Write(size, pointerStack, value);
    }

    method Pop(size: Size) returns (status: Status, value: u32)
      requires Valid()
      modifies this`pointerStack
      ensures Agrees(C.Pop(old(State()), size), status, value, State())
    {
      hide C.Read;
      var pointerStackPrev := pointerStack;
      pointerStack := Add32(pointerStack, Bytes(size));
      status, value := Read(size, pointerStackPrev);
    }

    method GetLocal(local: u8) returns (status: Status, value: u32)
      requires Valid()
      ensures Agrees(C.GetLocal(State(), local), status, value, State())
    {
      status, value := Ok, 0;
      if local < 32 {
        value := registers[local];
      } else if local == 32 {
        value := pointerStack;
      } else {
        status := Panicked(C.BadRegister);
      }
    }

    method SetLocal(local: u8, value: u32)
      requires Valid() && local <= 32
      modifies this`pointerStack, registers
      ensures State() == C.SetLocal(old(State()), local, value)
    {
      if local < 32 {
        registers[local] := value;
      } else {
        pointerStack := value;
      }
    }

    // ----- operands

    method Source(size: Size, prtype: u8, stay: bool) returns (status: Status, value: u32)
      requires Valid() && prtype < 4
      modifies this`pointerInstrMut
      ensures Agrees(C.Source(old(State()), size, prtype, stay), status, value, State())
    {
      hide C.Read, C.GetLocal, Trunc;
      var pointerBase := pointerInstrMut;
      var local;
      match prtype {
        case 0 =>
          if !stay {
            pointerInstrMut := Add32(pointerInstrMut, 1);
          }
          status, local := Read(Byte, pointerBase);
          if status == Ok {
            status, value := GetLocal(local);
            value := Trunc(size, value);
          } else {
            value := 0;
          }
        case 1 =>
          if !stay {
            pointerInstrMut := Add32(pointerInstrMut, 1);
          }
          value := 0;
          status, local := Read(Byte, pointerBase);
          if status == Ok {
            var pointer;
            status, pointer := GetLocal(local);
            if status == Ok {
              status, value := Read(size, pointer);
            }
          }
        case 2 =>
          if !stay {
            pointerInstrMut := Add32(pointerInstrMut, Bytes(size));
          }
          status, value := Read(size, pointerBase);
        case _ =>
          if !stay {
            pointerInstrMut := Add32(pointerInstrMut, 4);
          }
          var pointer;
          status, pointer := Read(Word, pointerBase);
          value := 0;
          if status == Ok {
            status, value := Read(size, pointer);
          }
      }
    }

    method Target(size: Size, prtype: u8, value: u32, zero: bool) returns (status: Status)
      requires Valid() && prtype < 4 && value < Modulus(size)
      modifies this`pointerInstrMut, this`pointerStack, registers, memoryRam
      ensures Agrees(C.Target(old(State()), size, prtype, value, zero), status, (), State())
      ensures status == Ok ==> Written(old(State()), State(), size, prtype, value, zero)
    {
      hide C.Read, C.GetLocal, C.SetLocal, C.Write, Merge, Written;
      TargetWritesIfDone(State(), size, prtype, value, zero);
      var pointerBase := pointerInstrMut;
      var local;
      match prtype {
        case 0 =>
          pointerInstrMut := Add32(pointerInstrMut, 1);
          status, local := Read(Byte, pointerBase);
          if status == Ok {
            var whole;
            status, whole := GetLocal(local);
            if status == Ok {
              SetLocal(local, if zero then value else Merge(size, whole, value));
            }
          }
        case 1 =>
          pointerInstrMut := Add32(pointerInstrMut, 1);
          status, local := Read(Byte, pointerBase);
          if status == Ok {
            var pointer;
            status, pointer := GetLocal(local);
            if status == Ok {
              status := Write(size, pointer, value);
            }
          }
        case 2 => status := Panicked(C.BadImmediate);
        case _ =>
          pointerInstrMut := Add32(pointerInstrMut, 4);
          var pointer;
          status, pointer := Read(Word, pointerBase);
          if status == Ok {
            status := Write(size, pointer, value);
          }
      }
    }

    method ShouldSkip(condition: u8) returns (status: Status, skip: bool)
      requires Valid()
      ensures Agrees(C.ShouldSkip(State(), condition), status, skip, State())
    {
      status, skip := Ok, false;
      match condition {
        case 0 =>
        case 1 => skip := !flagZero;
        case 2 => skip := flagZero;
        case 3 => skip := !flagCarry;
        case 4 => skip := flagCarry;
        case 5 => skip := flagZero || flagCarry;
        case 6 => skip := !flagZero && !flagCarry;
        case _ => status := Panicked(C.BadCondition);
      }
    }

    method SkipParam(size: Size, prtype: u8)
      requires Valid()
      modifies this`pointerInstrMut
      ensures State() == C.SkipParam(old(State()), size, prtype)
    {
      if prtype < C.TY_IMM {
        pointerInstrMut := Add32(pointerInstrMut, 1);
      } else if prtype == C.TY_IMMPTR {
        pointerInstrMut := Add32(pointerInstrMut, 4);
      } else {
        pointerInstrMut := Add32(pointerInstrMut, Bytes(size));
      }
    }

    // ----- instructions

    method ImplJmp(i: C.Instr, base: u32) returns (status: Status)
      requires Valid() && i.source < 4 && i.target < 4
      modifies this`pointerInstrMut
      ensures Agrees(C.Jmp(old(State()), i, base), status, (), State())
    {
      hide C.Source, C.ShouldSkip, C.SkipParam;
      var skip, x;
      status, skip := ShouldSkip(i.condition);
      if status == Ok {
        if skip {
          SkipParam(Word, i.source);
        } else {
          status, x := Source(Word, i.source, false);
          if status == Ok {
            pointerInstrMut := Add32(base, x);
          }
        }
      }
    }

    method ImplLoop(i: C.Instr, base: u32) returns (status: Status)
      requires Valid() && i.source < 4 && i.target < 4
      modifies this`pointerInstrMut, registers
      ensures Agrees(C.Loop(old(State()), i, base), status, (), State())
    {
      hide C.Source, C.ShouldSkip, C.SkipParam;
      var skip, x;
      status, skip := ShouldSkip(i.condition);
      if status == Ok {
        if !skip {
          registers[31] := Sub32(registers[31], 1);
        }
        if !skip && registers[31] != 0 {
          status, x := Source(Word, i.source, false);
          if status == Ok {
            pointerInstrMut := Add32(base, x);
          }
        } else {
          SkipParam(Word, i.source);
        }
      }
    }

    method ImplCall(i: C.Instr, base: u32) returns (status: Status)
      requires Valid() && i.source < 4 && i.target < 4
      modifies this`pointerInstrMut, this`pointerStack, memoryRam
      ensures Agrees(C.Call(old(State()), i, base), status, (), State())
    {
      hide C.Source, C.ShouldSkip, C.SkipParam, C.Push;
      var skip, pointerCall;
      status, skip := ShouldSkip(i.condition);
      if status == Ok {
        if skip {
          SkipParam(Word, i.source);
        } else {
          status, pointerCall := Source(Word, i.source, false);
          if status == Ok {
            status := Push(Word, pointerInstrMut);
            if status == Ok {
              pointerInstrMut := Add32(base, pointerCall);
            }
          }
        }
      }
    }

    method ImplPop(i: C.Instr, size: Size) returns (status: Status)
      requires Valid() && i.source < 4 && i.target < 4
      modifies this`pointerInstrMut, this`pointerStack, registers, memoryRam
      ensures Agrees(C.PopTo(old(State()), i, size), status, (), State())
    {
      hide C.Target, C.ShouldSkip, C.SkipParam, C.Pop;
      var skip, value;
      status, skip := ShouldSkip(i.condition);
      if status == Ok {
        if skip {
          SkipParam(size, i.source);
        } else {
          status, value := Pop(size);
          if status == Ok {
            status := Target(size, i.source, value, false);
          }
        }
      }
    }

    method ImplPush(i: C.Instr, size: Size) returns (status: Status)
      requires Valid() && i.source < 4 && i.target < 4
      modifies this`pointerInstrMut, this`pointerStack, memoryRam
      ensures Agrees(C.PushFrom(old(State()), i, size), status, (), State())
    {
      hide C.Source, C.ShouldSkip, C.SkipParam, C.Push;
      var skip, value;
      status, skip := ShouldSkip(i.condition);
      if status == Ok {
        if skip {
          SkipParam(size, i.source);
        } else {
          status, value := Source(size, i.source, false);
          if status == Ok {
            status := Push(size, value);
          }
        }
      }
    }

    method ImplMov(i: C.Instr, size: Size, zero: bool) returns (status: Status)
      requires Valid() && i.source < 4 && i.target < 4
      modifies this`pointerInstrMut, this`pointerStack, registers, memoryRam
      ensures Agrees(C.Mov(old(State()), i, size, zero), status, (), State())
    {
      hide C.Source, C.Target, C.ShouldSkip, C.SkipParam;
      var skip, value;
      status, skip := ShouldSkip(i.condition);
      if status == Ok {
        if skip {
          SkipParam(size, i.target);
          SkipParam(size, i.source);
        } else {
          status, value := Source(size, i.source, false);
          if status == Ok {
            status := Target(size, i.target, value, zero);
          }
        }
      }
    }

    method ImplNot(i: C.Instr, size: Size) returns (status: Status)
      requires Valid() && i.source < 4 && i.target < 4
      modifies this`pointerInstrMut, this`pointerStack, this`flagZero, registers, memoryRam
      ensures Agrees(C.Not(old(State()), i, size), status, (), State())
    {
      hide C.Source, C.Target, C.ShouldSkip, C.SkipParam, BitNot;
      var skip, v;
      status, skip := ShouldSkip(i.condition);
      if status == Ok {
        if skip {
          SkipParam(size, i.source);
        } else {
          status, v := Source(size, i.source, true);
          if status == Ok {
            var x := BitNot(size, v);
            flagZero := x == 0;
            status := Target(size, i.source, x, false);
          }
        }
      }
    }

    method ImplInc(i: C.Instr, size: Size, op: C.CarryOp) returns (status: Status)
      requires Valid() && i.source < 4 && i.target < 4
      modifies this`pointerInstrMut, this`pointerStack, this`flagZero, this`flagCarry, registers, memoryRam
      ensures Agrees(C.Inc(old(State()), i, size, op), status, (), State())
    {
      hide C.Source, C.Target, C.ShouldSkip, C.SkipParam, C.Checked;
      var skip, v;
      status, skip := ShouldSkip(i.condition);
      if status == Ok {
        if skip {
          SkipParam(size, i.source);
        } else {
          status, v := Source(size, i.source, true);
          if status == Ok {
            var (x, overflow) := C.Checked(op, size, v, 1);
            flagCarry := overflow;
            flagZero := x == 0;
            status := Target(size, i.source, x, false);
          }
        }
      }
    }

    method ImplAdd(i: C.Instr, size: Size, op: C.CarryOp) returns (status: Status)
      requires Valid() && i.source < 4 && i.target < 4
      modifies this`pointerInstrMut, this`pointerStack, this`flagZero, this`flagCarry, registers, memoryRam
      ensures Agrees(C.Add(old(State()), i, size, op), status, (), State())
    {
      hide C.Source, C.Target, C.ShouldSkip, C.SkipParam, C.Checked;
      var skip, a, b;
      status, skip := ShouldSkip(i.condition);
      if status == Ok {
        if skip {
          SkipParam(size, i.target);
          SkipParam(size, i.source);
        } else {
          status, a := Source(size, i.source, false);
          if status == Ok {
            status, b := Source(size, i.target, true);
            if status == Ok {
              var (x, overflow) := C.Checked(op, size, b, a);
              flagCarry := overflow;
              flagZero := x == 0;
              status := Target(size, i.target, x, false);
            }
          }
        }
      }
    }

    method ImplAnd(i: C.Instr, size: Size, op: C.ZeroOp) returns (status: Status)
      requires Valid() && i.source < 4 && i.target < 4
      modifies this`pointerInstrMut, this`pointerStack, this`flagZero, registers, memoryRam
      ensures Agrees(C.And(old(State()), i, size, op), status, (), State())
    {
      hide C.Source, C.Target, C.ShouldSkip, C.SkipParam, C.Unchecked;
      var skip, a, b;
      status, skip := ShouldSkip(i.condition);
      if status == Ok {
        if skip {
          SkipParam(size, i.target);
          SkipParam(size, i.source);
        } else {
          status, a := Source(size, i.source, false);
          if status == Ok {
            status, b := Source(size, i.target, true);
            if status == Ok {
              match C.Unchecked(op, size, b, a) {
                case None => status := NoMeaning;
                case Some(x) =>
                  flagZero := x == 0;
                  status := Target(size, i.target, x, false);
              }
            }
          }
        }
      }
    }

    method ImplCmp(i: C.Instr, size: Size) returns (status: Status)
      requires Valid() && i.source < 4 && i.target < 4
      modifies this`pointerInstrMut, this`flagZero, this`flagCarry
      ensures Agrees(C.Cmp(old(State()), i, size), status, (), State())
    {
      hide C.Source, C.Checked;
      var a, b;
      status, a := Source(size, i.source, false);
      if status == Ok {
        status, b := Source(size, i.target, false);
        if status == Ok {
          var (x, overflow) := C.Checked(C.SubOp, size, b, a);
          flagCarry := overflow;
          flagZero := x == 0;
        }
      }
    }

    method ImplBts(i: C.Instr, size: Size) returns (status: Status)
      requires Valid() && i.source < 4 && i.target < 4
      modifies this`pointerInstrMut, this`flagZero
      ensures Agrees(C.Bts(old(State()), i, size), status, (), State())
    {
      hide C.Source, Bit, BitAnd;
      var a, b;
      status, a := Source(size, i.source, false);
      if status == Ok {
        status, b := Source(size, i.target, false);
        if status == Ok {
          if a >= 32 {
            status := NoMeaning;
          } else {
            flagZero := if a < Width(size) then BitAnd(size, b, Bit(size, a)) == 0 else true;
          }
        }
      }
    }

    method ImplIn(i: C.Instr, bus: Bus) returns (status: Status)
      requires Valid() && i.source < 4 && i.target < 4
      modifies this`pointerInstrMut, this`pointerStack, this`io, registers, memoryRam
      ensures Agrees(C.In(old(State()), i, bus), status, (), State())
    {
      hide C.Source, C.Target, C.ShouldSkip, C.SkipParam;
      var skip, port;
      status, skip := ShouldSkip(i.condition);
      if status == Ok {
        if skip {
          SkipParam(Word, i.target);
          SkipParam(Word, i.source);
        } else {
          status, port := Source(Word, i.source, false);
          if status == Ok {
            match bus.read(io, port) {
              case None => status := Panicked(C.IoRead);
              case Some(value) =>
                io := io + [PortRead(port, value)];
                status := Target(Word, i.target, value, false);
            }
          }
        }
      }
    }

    method ImplOut(i: C.Instr, bus: Bus) returns (status: Status)
      requires Valid() && i.source < 4 && i.target < 4
      modifies this`pointerInstrMut, this`io
      ensures Agrees(C.Out(old(State()), i, bus), status, (), State())
    {
      hide C.Source, C.ShouldSkip, C.SkipParam;
      var skip, value, port;
      status, skip := ShouldSkip(i.condition);
      if status == Ok {
        if skip {
          SkipParam(Word, i.target);
          SkipParam(Word, i.source);
        } else {
          status, value := Source(Word, i.source, false);
          if status == Ok {
            status, port := Source(Word, i.target, false);
            if status == Ok {
              if bus.write(io, port, value) {
                io := io + [PortWrite(port, value)];
              } else {
                status := Panicked(C.IoWrite);
              }
            }
          }
        }
      }
    }

    method ImplRta(i: C.Instr, base: u32) returns (status: Status)
      requires Valid() && i.source < 4 && i.target < 4
      modifies this`pointerInstrMut, this`pointerStack, registers, memoryRam
      ensures Agrees(C.Rta(old(State()), i, base), status, (), State())
    {
      hide C.Source, C.Target, C.ShouldSkip, C.SkipParam;
      var skip, x;
      status, skip := ShouldSkip(i.condition);
      if status == Ok {
        if skip {
          SkipParam(Word, i.target);
          SkipParam(Word, i.source);
        } else {
          status, x := Source(Word, i.source, false);
          if status == Ok {
            status := Target(Word, i.target, Add32(base, x), false);
          }
        }
      }
    }

    method ImplRet(i: C.Instr) returns (status: Status)
      requires Valid()
      modifies this`pointerInstrMut, this`pointerStack
      ensures Agrees(C.Ret(old(State()), i), status, (), State())
    {
      hide C.ShouldSkip, C.Pop;
      var skip, x;
      status, skip := ShouldSkip(i.condition);
      if status == Ok && !skip {
        status, x := Pop(Word);
        if status == Ok {
          pointerInstrMut := x;
        }
      }
    }

    method FlagsSet(flags: u8)
      requires Valid()
      modifies this`flagZero, this`flagCarry, this`flagInterrupt
      ensures State() == C.FlagsSet(old(State()), flags)
    {
      flagZero := flags % 2 != 0;
      flagCarry := flags / 2 % 2 != 0;
      flagInterrupt := flags / 4 % 2 != 0;
    }

    method ImplReti(i: C.Instr) returns (status: Status)
      requires Valid()
      modifies this`pointerInstrMut, this`pointerStack, this`flagZero, this`flagCarry, this`flagInterrupt
      ensures Agrees(C.Reti(old(State()), i), status, (), State())
    {
      hide C.ShouldSkip, C.Pop, C.FlagsSet;
      var skip, flags, x;
      status, skip := ShouldSkip(i.condition);
      if status == Ok && !skip {
        status, flags := Pop(Byte);
        if status == Ok {
          FlagsSet(flags);
          status, x := Pop(Word);
          if status == Ok {
            pointerInstrMut := x;
          }
        }
      }
    }

    /** ISE and ICL, HALT, and BRK. */
    method ImplPlain(i: C.Instr, opcode: u8) returns (status: Status)
      requires Valid() && opcode in {0x0C, 0x1C, 0x10, 0x20}
      modifies this`flagInterrupt, this`halted
      ensures Agrees(
        if opcode == 0x10 then C.Halt(old(State()), i)
        else if opcode == 0x20 then C.Brk(old(State()), i)
        else C.SetInterrupt(old(State()), i, opcode == 0x0C), status, (), State())
    {
      hide C.ShouldSkip;
      var skip;
      status, skip := ShouldSkip(i.condition);
      if status == Ok && !skip {
        match opcode {
          case 0x0C => flagInterrupt := true;
          case 0x1C => flagInterrupt := false;
          case 0x10 => halted := true;
          case _ => status := Panicked(C.Debugger);
        }
      }
    }

    /** The instructions that exist in all three sizes. */
    method DispatchSized(i: C.Instr, size: Size) returns (status: Status)
      requires Valid() && i.source < 4 && i.target < 4
      modifies this, registers, memoryRam
      ensures Agrees(C.DispatchSized(old(State()), i, size), status, (), State())
    {
      hide C.PopTo, C.PushFrom, C.Mov, C.Not, C.Inc, C.Add, C.And, C.Cmp, C.Bts, C.Halt, C.Brk, Agrees;
      match i.opcode % 64 {
        case 0x00 =>
          status := Ok;
          Completed(State());
        case 0x10 => status := ImplPlain(i, 0x10);
        case 0x20 => status := ImplPlain(i, 0x20);
        case 0x1A => status := ImplPop(i, size);
        case 0x0A => status := ImplPush(i, size);
        case 0x17 => status := ImplMov(i, size, false);
        case 0x27 => status := ImplMov(i, size, true);
        case 0x33 => status := ImplNot(i, size);
        case 0x11 => status := ImplInc(i, size, C.AddOp);
        case 0x31 => status := ImplInc(i, size, C.SubOp);
        case 0x01 => status := ImplAdd(i, size, C.AddOp);
        case 0x21 => status := ImplAdd(i, size, C.SubOp);
        case 0x02 => status := ImplAdd(i, size, C.MulOp);
        case 0x0D => status := ImplAdd(i, size, C.IMulOp);
        case 0x22 => status := ImplAnd(i, size, C.DivOp);
        case 0x32 => status := ImplAnd(i, size, C.RemOp);
        case 0x2D => status := ImplAnd(i, size, C.IDivOp);
        case 0x3D => status := ImplAnd(i, size, C.IRemOp);
        case 0x03 => status := ImplAnd(i, size, C.AndOp);
        case 0x23 => status := ImplAnd(i, size, C.XorOp);
        case 0x13 => status := ImplAnd(i, size, C.OrOp);
        case 0x04 => status := ImplAnd(i, size, C.SlaOp);
        case 0x15 => status := ImplAnd(i, size, C.SrlOp);
        case 0x05 => status := ImplAnd(i, size, C.SraOp);
        case 0x24 => status := ImplAnd(i, size, C.RolOp);
        case 0x25 => status := ImplAnd(i, size, C.RorOp);
        case 0x06 => status := ImplAnd(i, size, C.BseOp);
        case 0x16 => status := ImplAnd(i, size, C.BclOp);
        case 0x07 => status := ImplCmp(i, size);
        case 0x26 => status := ImplBts(i, size);
        case _ =>
          status := Panicked(C.BadOpcode);
          Failed(State(), C.BadOpcode);
      }
    }

    /** All instructions; those handled here exist as words only. */
    method Dispatch(i: C.Instr, base: u32, bus: Bus) returns (status: Status)
      requires Valid() && i.source < 4 && i.target < 4
      modifies this, registers, memoryRam
      ensures Agrees(C.Dispatch(old(State()), i, base, bus), status, (), State())
    {
      hide C.In, C.Out, C.Rta, C.Ret, C.Reti, C.SetInterrupt, C.Jmp, C.Call, C.Loop, C.DispatchSized, Agrees;
      match C.SizeOf(i.size) {
        case None =>
          status := Panicked(C.BadOpcode);
          Failed(State(), C.BadOpcode);
        case Some(size) =>
          if !size.Word? {
            status := DispatchSized(i, size);
          } else {
            match i.opcode % 64 {
              case 0x0B => status := ImplIn(i, bus);
              case 0x1B => status := ImplOut(i, bus);
              case 0x39 => status := ImplRta(i, base);
              case 0x2A => status := ImplRet(i);
              case 0x3A => status := ImplReti(i);
              case 0x0C => status := ImplPlain(i, 0x0C);
              case 0x1C => status := ImplPlain(i, 0x1C);
              case 0x08 => status := ImplJmp(i, 0);
              case 0x18 => status := ImplCall(i, 0);
              case 0x28 => status := ImplLoop(i, 0);
              case 0x09 => status := ImplJmp(i, base);
              case 0x19 => status := ImplCall(i, base);
              case 0x29 => status := ImplLoop(i, base);
              case _ => status := DispatchSized(i, Word);
            }
          }
      }
    }

    // ----- the machine as its host uses it

    method Execute(bus: Bus) returns (status: Status)
      requires Valid()
      modifies this, registers, memoryRam
      ensures Agrees(C.Execute(old(State()), bus), status, (), State())
      ensures status != NoMeaning ==> State().rom == old(State()).rom
      ensures status.Panicked? ==>
        && State().ram == old(State()).ram
        && pointerInstr == old(pointerInstr) && halted == old(halted)
      ensures status == Ok ==> StepMeans(old(State()), State())
    {
      hide C.Read, C.Dispatch, C.InstrFrom, StepMeans;
      StepsMeanIfDone(State(), bus);
      var instrBase := pointerInstr;
      var instrRaw;
      status, instrRaw := Read(Half, instrBase);
      if status == Ok {
        var instr := C.InstrFrom(instrRaw);
        pointerInstrMut := Add32(instrBase, 2);
        status := Dispatch(instr, instrBase, bus);
        if status == Ok {
          pointerInstr := pointerInstrMut;
        }
      }
    }

    /** What a call reports: the error of a panic, if any. */
    ghost predicate Reports(report: C.Report, status: Status)
      requires Valid()
      reads this, registers, memoryRam, memoryRom
    {
      match report
      case Report(vm, None) => status == Ok && State() == vm
      case Report(vm, Some(error)) => status == Panicked(error) && State() == vm
      case Lost => status == NoMeaning
    }

    method Step(bus: Bus) returns (status: Status)
      requires Valid()
      modifies this, registers, memoryRam
      ensures Reports(C.Step(old(State()), bus), status)
      ensures status.Panicked? ==>
        && State().ram == old(State()).ram && pointerInstr == old(pointerInstr) && halted
        && (State() == old(State()).(halted := true, pointerInstrMut := pointerInstrMut)
            <==> KeepsState(old(State()), bus))
    {
      hide C.Execute, KeepsState;
      if C.Step(State(), bus).Report? && C.Step(State(), bus).error.Some? {
        FailedStepKeepsState(State(), bus);
      }
      status := Execute(bus);
      if status.Panicked? {
        halted := true;
      }
    }

    /** Runs until halted, a panic, or `count` instructions; ROM is never written, and
        `started` counts the instructions started. */
    method Resume(count: u32, bus: Bus) returns (status: Status, ghost started: nat)
      requires Valid()
      modifies this, registers, memoryRam
      ensures Reports(C.Resume(old(State()), count, bus), status)
      ensures State().rom == old(State()).rom
      ensures started == Executed(old(State()), count, bus) <= count
      ensures status == Ok ==> halted || started == count
    {
      hide C.Execute;
      ghost var start := State();
      var remaining := count;
      started := 0;
      while !halted && remaining > 0
        invariant 0 <= remaining <= count && started == count - remaining
        invariant C.Resume(State(), remaining, bus) == C.Resume(start, count, bus)
        invariant started + Executed(State(), remaining, bus) == Executed(start, count, bus)
        decreases remaining
      {
        started := started + 1;
        status := Execute(bus);
        if status != Ok {
          if status.Panicked? {
            halted := true;
          }
          return;
        }
        remaining := remaining - 1;
      }
      status := Ok;
    }

    method Raise(vector: u16) returns (status: Status)
      requires Valid()
      modifies this, memoryRam
      ensures Reports(C.Raise(old(State()), vector), status)
      ensures status == Ok <==> old(flagInterrupt && RoomForFrame(pointerStack))
    {
      hide C.Read, C.Push, C.FlagsGet;
      CoreRaiseSucceeds(State(), vector);
      if !flagInterrupt {
        return Panicked(C.NoInterrupts);
      }
      var pointerHandler;
      status, pointerHandler := Read(Word, 4 * vector);
      if status == Ok {
        status := Push(Word, pointerInstr);
        if status == Ok {
          status := Push(Byte, FlagsGet());
          if status == Ok {
            pointerInstr := pointerHandler;
            halted := true;
            flagInterrupt := false;
          }
        }
      }
    }

    function FlagsGet(): (flags: u8)
      requires Valid()
      reads this, registers, memoryRam, memoryRom
      ensures flags == C.FlagsGet(State())
    {
      (if flagInterrupt then 4 else 0) + (if flagCarry then 2 else 0) + (if flagZero then 1 else 0)
    }

    method Recover(error: C.Error) returns (status: Status)
      requires Valid()
      modifies this, memoryRam
      ensures Reports(C.Recover(old(State()), error), status)
      ensures status == Ok ==>
        && C.FromInstruction(error)
        && pointerInstr == Load(Word, old(State()).ram, HandlerSlot(error))
    {
      hide C.Raise, Load;
      RecoverEntersIfDone(State(), error);
      match C.ExceptionOf(error) {
        case Some(vector) => status := Raise(vector);
        case None => status := Panicked(C.CantRecover);
      }
    }
  }

  lemma TargetWritesIfDone(vm: C.Vm, size: Size, prtype: u8, value: u32, zero: bool)
    requires prtype < 4 && value < Modulus(size)
    ensures
      var o := C.Target(vm, size, prtype, value, zero);
      o.Done? ==> Written(vm, o.vm, size, prtype, value, zero)
  {
    hide C.Target, Written;
    if C.Target(vm, size, prtype, value, zero).Done? {
      TargetWrites(vm, size, prtype, value, zero);
    }
  }

  lemma StepsMeanIfDone(vm: C.Vm, bus: Bus)
    ensures C.Execute(vm, bus).Done? ==> StepMeans(vm, C.Execute(vm, bus).vm)
  {
    hide C.Execute, StepMeans;
    if C.Execute(vm, bus).Done? {
      StepsMean(vm, bus);
    }
  }

  lemma RecoverEntersIfDone(vm: C.Vm, error: C.Error)
    ensures
      var r := C.Recover(vm, error);
      r.Report? && r.error.None? ==>
        C.FromInstruction(error) && r.vm.pointerInstr == Load(Word, vm.ram, HandlerSlot(error))
  {
    hide C.Recover, Load;
    var r := C.Recover(vm, error);
    if r.Report? && r.error.None? {
      RecoverEnters(vm, error);
    }
  }

  lemma Completed(vm: C.Vm)
    ensures Agrees(C.Done(vm, ()), Ok, (), vm)
  {
  }

  lemma Failed(vm: C.Vm, error: C.Error)
    ensures Agrees<()>(C.Panic(vm, error), Panicked(error), (), vm)
  {
  }
}
