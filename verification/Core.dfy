/** The C interpreter (fox32core/fox32.c) as functions on machine states.

    A panic is a longjmp in the source: it leaves the state as far as it had
    been changed.  Undefined marks the points where the C standard gives the
    program no meaning. */
module Core {
  import opened Words
  import opened Arithmetic
  import opened Memory

  datatype Error =
    | Debugger
    | Fault
    | BadOpcode
    | BadCondition
    | BadRegister
    | BadImmediate
    | DivZero
    | IoRead
    | IoWrite
    | NoInterrupts
    | CantRecover

  datatype Vm = Vm(
    pointerInstrMut: u32,
    pointerInstr: u32,
    pointerStack: u32,
    registers: Registers,
    flagZero: bool,
    flagCarry: bool,
    flagInterrupt: bool,
    halted: bool,
    ram: Ram,
    rom: Rom,
    io: seq<IoEvent>)

  datatype Outcome<+T> =
    | Done(vm: Vm, value: T)
    | Panic(vm: Vm, error: Error)
    | Undefined
  {
    predicate IsFailure() {
      !Done?
    }

    function PropagateFailure<U>(): Outcome<U>
      requires !Done?
    {
      match this
      case Panic(vm, error) => Panic(vm, error)
      case Undefined => Undefined
    }

    function Extract(): (Vm, T)
      requires Done?
    {
      (vm, value)
    }
  }

  /** An error an instruction can fail with, as opposed to one of raising. */
  predicate FromInstruction(error: Error) {
    !error.NoInterrupts? && !error.CantRecover?
  }

  /** The outcome has not touched RAM, ROM or the instruction pointer. */
  ghost predicate ReadsOnly<T>(vm: Vm, o: Outcome<T>) {
    && (!o.Undefined? ==>
         && o.vm.ram == vm.ram && o.vm.rom == vm.rom
         && o.vm.pointerInstr == vm.pointerInstr && o.vm.halted == vm.halted)
    && (o.Panic? ==> FromInstruction(o.error))
  }

  /** The outcome has not touched ROM or the instruction pointer, and has touched
      RAM only if it completed. */
  ghost predicate CleanOnPanic<T>(vm: Vm, o: Outcome<T>) {
    !o.Undefined? ==>
      && o.vm.rom == vm.rom
      && o.vm.pointerInstr == vm.pointerInstr
      && (o.Panic? ==> o.vm.ram == vm.ram && o.vm.halted == vm.halted && FromInstruction(o.error))
  }

  // ----- decoding

  datatype Instr = Instr(opcode: u8, condition: u8, target: u8, source: u8, size: u8)

  function InstrFrom(half: u16): (r: Instr)
    ensures r.condition < 8 && r.target < 4 && r.source < 4 && r.size < 4
  {
    Instr(half / 0x100, half / 0x10 % 8, half / 4 % 4, half % 4, half / 0x4000)
  }

  // ----- flags, registers and memory

  function FlagsGet(vm: Vm): u8 {
    (if vm.flagInterrupt then 4 else 0) + (if vm.flagCarry then 2 else 0) + (if vm.flagZero then 1 else 0)
  }

  function FlagsSet(vm: Vm, flags: u8): Vm {
    vm.(flagZero := flags % 2 != 0, flagCarry := flags / 2 % 2 != 0, flagInterrupt := flags / 4 % 2 != 0)
  }

  function GetLocal(vm: Vm, local: u8): (o: Outcome<u32>)
    ensures o.Done? ==> o.vm == vm && local <= 32
    ensures o.Panic? ==> o.vm == vm && FromInstruction(o.error)
    ensures !o.Undefined?
  {
    if local < 32 then Done(vm, vm.registers[local])
    else if local == 32 then Done(vm, vm.pointerStack)
    else Panic(vm, BadRegister)
  }

  function SetLocal(vm: Vm, local: u8, value: u32): Vm
    requires local <= 32
  {
    if local < 32 then vm.(registers := vm.registers[local := value]) else vm.(pointerStack := value)
  }

  function FindMemory(address: u32, size: Size, write: bool): (place: Option<Place>)
    ensures place.Some? ==> Fits(place.value, size)
    ensures place.Some? && write ==> place.value.InRam?
  {
    var addressEnd := Add32(address, Bytes(size));
    if addressEnd > address then
      if addressEnd <= RAM_SIZE then Some(InRam(address))
      else if !write && address >= ROM_START && Add32(Sub32(address, ROM_START), Bytes(size)) <= ROM_SIZE then
        Some(InRom(address - ROM_START))
      else None
    else None
  }

  function Read(vm: Vm, size: Size, address: u32): (o: Outcome<u32>)
    ensures !o.Undefined? && o.vm == vm
    ensures o.Done? ==> o.value < Modulus(size)
    ensures o.Panic? ==> FromInstruction(o.error)
  {
    match FindMemory(address, size, false)
    case Some(place) => Done(vm, Fetch(vm.ram, vm.rom, place, size))
    case None => Panic(vm, Fault)
  }

  function Write(vm: Vm, size: Size, address: u32, value: u32): (o: Outcome<()>)
    ensures CleanOnPanic(vm, o)
  {
    match FindMemory(address, size, true)
    case Some(place) => Done(vm.(ram := Store(size, vm.ram, place.offset, value)), ())
    case None => Panic(vm, Fault)
  }

  function Push(vm: Vm, size: Size, value: u32): (o: Outcome<()>)
    ensures CleanOnPanic(vm, o)
  {
    var vm := vm.(pointerStack := Sub32(vm.pointerStack, Bytes(size)));
    Write(vm, size, vm.pointerStack, value)
  }

  function Pop(vm: Vm, size: Size): (o: Outcome<u32>)
    ensures ReadsOnly(vm, o)
    ensures o.Done? ==> o.value < Modulus(size)
  {
    Read(vm.(pointerStack := Add32(vm.pointerStack, Bytes(size))), size, vm.pointerStack)
  }

  // ----- operands

  const TY_REG: u8 := 0
  const TY_REGPTR: u8 := 1
  const TY_IMM: u8 := 2
  const TY_IMMPTR: u8 := 3

  /** How many bytes an operand of this type takes in the instruction stream. */
  function OperandBytes(size: Size, prtype: u8): u32 {
    if prtype < TY_IMM then 1 else if prtype == TY_IMMPTR then 4 else Bytes(size)
  }

  function Advance(vm: Vm, n: u32): Vm {
    vm.(pointerInstrMut := Add32(vm.pointerInstrMut, n))
  }

  /** Read an operand; the instruction cursor moves past it unless `stay`. */
  function Source(vm: Vm, size: Size, prtype: u8, stay: bool): (o: Outcome<u32>)
    requires prtype < 4
    ensures ReadsOnly(vm, o)
    ensures o.Done? ==> o.value < Modulus(size)
  {
    var base := vm.pointerInstrMut;
    if prtype == TY_REG then
      var vm := if stay then vm else Advance(vm, 1);
      var (vm, local) :- Read(vm, Byte, base);
      var (vm, value) :- GetLocal(vm, local);
      Done(vm, Trunc(size, value))
    else if prtype == TY_REGPTR then
      var vm := if stay then vm else Advance(vm, 1);
      var (vm, local) :- Read(vm, Byte, base);
      var (vm, pointer) :- GetLocal(vm, local);
      Read(vm, size, pointer)
    else if prtype == TY_IMM then
      var vm := if stay then vm else Advance(vm, Bytes(size));
      Read(vm, size, base)
    else
      var vm := if stay then vm else Advance(vm, 4);
      var (vm, pointer) :- Read(vm, Word, base);
      Read(vm, size, pointer)
  }

  lemma StayIsPure(vm: Vm, size: Size, prtype: u8)
    requires prtype < 4
    ensures Source(vm, size, prtype, true).Done? ==> Source(vm, size, prtype, true).vm == vm
  {
  }

  /** Write an operand and move the cursor past it.  A register keeps its high
      bits on a narrow write unless `zero`. */
  function Target(vm: Vm, size: Size, prtype: u8, value: u32, zero: bool): (o: Outcome<()>)
    requires prtype < 4 && value < Modulus(size)
    ensures CleanOnPanic(vm, o)
  {
    var base := vm.pointerInstrMut;
    if prtype == TY_REG then
      var vm := Advance(vm, 1);
      var (vm, local) :- Read(vm, Byte, base);
      var (vm, whole) :- GetLocal(vm, local);
      Done(SetLocal(vm, local, if zero then value else Merge(size, whole, value)), ())
    else if prtype == TY_REGPTR then
      var vm := Advance(vm, 1);
      var (vm, local) :- Read(vm, Byte, base);
      var (vm, pointer) :- GetLocal(vm, local);
      Write(vm, size, pointer, value)
    else if prtype == TY_IMM then
      Panic(vm, BadImmediate)
    else
      var vm := Advance(vm, 4);
      var (vm, pointer) :- Read(vm, Word, base);
      Write(vm, size, pointer, value)
  }

  function ShouldSkip(vm: Vm, condition: u8): (o: Outcome<bool>)
    ensures !o.Undefined? && o.vm == vm
    ensures o.Panic? ==> FromInstruction(o.error)
  {
    match condition
    case 0 => Done(vm, false)
    case 1 => Done(vm, !vm.flagZero)
    case 2 => Done(vm, vm.flagZero)
    case 3 => Done(vm, !vm.flagCarry)
    case 4 => Done(vm, vm.flagCarry)
    case 5 => Done(vm, vm.flagZero || vm.flagCarry)
    case 6 => Done(vm, !vm.flagZero && !vm.flagCarry)
    case _ => Panic(vm, BadCondition)
  }

  function SkipParam(vm: Vm, size: Size, prtype: u8): Vm {
    Advance(vm, OperandBytes(size, prtype))
  }

  function SkipParams(vm: Vm, size: Size, i: Instr): Vm {
    SkipParam(SkipParam(vm, size, i.target), size, i.source)
  }

  // ----- arithmetic

  datatype CarryOp = AddOp | SubOp | MulOp | IMulOp

  /** The checked operations: the result and whether it overflowed. */
  function Checked(op: CarryOp, size: Size, b: u32, a: u32): (r: (u32, bool))
    requires a < Modulus(size) && b < Modulus(size)
    ensures r.0 < Modulus(size)
  {
    match op
    case AddOp => (Trunc(size, b + a), b + a >= Modulus(size))
    case SubOp => (if b >= a then b - a else b - a + Modulus(size), b < a)
    case MulOp => (Trunc(size, Times(b, a)), Times(b, a) >= Modulus(size))
    case IMulOp =>
      var p := Signed(size, b) * Signed(size, a);
      (Cast(size, p), !(-Modulus(size) <= 2 * p < Modulus(size)))
  }

  datatype ZeroOp =
    | DivOp | RemOp | IDivOp | IRemOp
    | AndOp | XorOp | OrOp
    | SlaOp | SrlOp | SraOp | RolOp | RorOp
    | BseOp | BclOp

  /** C's signed division, which truncates towards zero. */
  function TruncDiv(n: int, d: int): int
    requires d != 0
  {
    if n >= 0 then n / d else -((-n) / d)
  }

  /** Signed division and remainder; None where C leaves the result undefined. */
  function SignedDivision(size: Size, b: u32, a: u32, remainder: bool): (r: Option<u32>)
    ensures r.Some? ==> r.value < Modulus(size)
  {
    var n, d := Signed(size, b), Signed(size, a);
    if d == 0 || (size.Word? && n == -0x8000_0000 && d == -1) then None
    else Some(Cast(size, if remainder then n - d * TruncDiv(n, d) else TruncDiv(n, d)))
  }

  /** Shifts and rotations; None where C leaves the result undefined.  Narrow operands are
      promoted to int first, so only a count below zero or above 31 is undefined. */
  function Shifted(op: ZeroOp, size: Size, b: u32, a: u32): (r: Option<u32>)
    requires op.SlaOp? || op.SrlOp? || op.SraOp? || op.RolOp? || op.RorOp?
    requires b < Modulus(size)
    ensures r.Some? ==> r.value < Modulus(size)
  {
    if a >= 32 then None
    else
      match op
      case SlaOp => Some(ShiftLeft(size, b, a))
      case SrlOp => Some(ShiftRight(size, b, a))
      case SraOp => Some(ShiftRightSigned(size, b, a))
      case RolOp =>
        if a > Width(size) || (a == 0 && size.Word?) then None
        else Some(BitOr(size, ShiftLeft(size, b, a), ShiftRight(size, b, Width(size) - a)))
      case RorOp =>
        if a > Width(size) || (a == 0 && size.Word?) then None
        else Some(BitOr(size, ShiftRight(size, b, a), ShiftLeft(size, b, Width(size) - a)))
  }

  /** Set or clear one bit; None where C leaves the result undefined. */
  function BitChanged(size: Size, b: u32, a: u32, on: bool): (r: Option<u32>)
    requires b < Modulus(size)
    ensures r.Some? ==> r.value < Modulus(size)
  {
    if a >= 32 then None
    else if a >= Width(size) then Some(b)
    else Some(if on then BitOr(size, b, Bit(size, a)) else BitAnd(size, b, BitNot(size, Bit(size, a))))
  }

  /** The unchecked operations; None where C leaves the result undefined. */
  function Unchecked(op: ZeroOp, size: Size, b: u32, a: u32): (r: Option<u32>)
    requires a < Modulus(size) && b < Modulus(size)
    ensures r.Some? ==> r.value < Modulus(size)
  {
    match op
    case DivOp => if a == 0 then None else Some(Trunc(size, b / a))
    case RemOp => if a == 0 then None else Some(Trunc(size, b % a))
    case IDivOp => SignedDivision(size, b, a, false)
    case IRemOp => SignedDivision(size, b, a, true)
    case AndOp => Some(BitAnd(size, b, a))
    case XorOp => Some(BitXor(size, b, a))
    case OrOp => Some(BitOr(size, b, a))
    case BseOp => BitChanged(size, b, a, true)
    case BclOp => BitChanged(size, b, a, false)
    case _ => Shifted(op, size, b, a)
  }

  // ----- instructions

  function Jmp(vm: Vm, i: Instr, base: u32): (o: Outcome<()>)
    requires i.source < 4 && i.target < 4
    ensures CleanOnPanic(vm, o)
  {
    var (vm, skip) :- ShouldSkip(vm, i.condition);
    if skip then Done(SkipParam(vm, Word, i.source), ())
    else
      var (vm, x) :- Source(vm, Word, i.source, false);
      Done(vm.(pointerInstrMut := Add32(base, x)), ())
  }

  function Loop(vm: Vm, i: Instr, base: u32): (o: Outcome<()>)
    requires i.source < 4 && i.target < 4
    ensures CleanOnPanic(vm, o)
  {
    var (vm, skip) :- ShouldSkip(vm, i.condition);
    if skip then Done(SkipParam(vm, Word, i.source), ())
    else
      var vm := vm.(registers := vm.registers[31 := Sub32(vm.registers[31], 1)]);
      if vm.registers[31] != 0 then
        var (vm, x) :- Source(vm, Word, i.source, false);
        Done(vm.(pointerInstrMut := Add32(base, x)), ())
      else Done(SkipParam(vm, Word, i.source), ())
  }

  function Call(vm: Vm, i: Instr, base: u32): (o: Outcome<()>)
    requires i.source < 4 && i.target < 4
    ensures CleanOnPanic(vm, o)
  {
    var (vm, skip) :- ShouldSkip(vm, i.condition);
    if skip then Done(SkipParam(vm, Word, i.source), ())
    else
      var (vm, pointerCall) :- Source(vm, Word, i.source, false);
      var (vm, _) :- Push(vm, Word, vm.pointerInstrMut);
      Done(vm.(pointerInstrMut := Add32(base, pointerCall)), ())
  }

  function PopTo(vm: Vm, i: Instr, size: Size): (o: Outcome<()>)
    requires i.source < 4 && i.target < 4
    ensures CleanOnPanic(vm, o)
  {
    var (vm, skip) :- ShouldSkip(vm, i.condition);
    if skip then Done(SkipParam(vm, size, i.source), ())
    else
      var (vm, value) :- Pop(vm, size);
      Target(vm, size, i.source, value, false)
  }

  function PushFrom(vm: Vm, i: Instr, size: Size): (o: Outcome<()>)
    requires i.source < 4 && i.target < 4
    ensures CleanOnPanic(vm, o)
  {
    var (vm, skip) :- ShouldSkip(vm, i.condition);
    if skip then Done(SkipParam(vm, size, i.source), ())
    else
      var (vm, value) :- Source(vm, size, i.source, false);
      Push(vm, size, value)
  }

  function Mov(vm: Vm, i: Instr, size: Size, zero: bool): (o: Outcome<()>)
    requires i.source < 4 && i.target < 4
    ensures CleanOnPanic(vm, o)
  {
    var (vm, skip) :- ShouldSkip(vm, i.condition);
    if skip then Done(SkipParams(vm, size, i), ())
    else
      var (vm, value) :- Source(vm, size, i.source, false);
      Target(vm, size, i.target, value, zero)
  }

  function Not(vm: Vm, i: Instr, size: Size): (o: Outcome<()>)
    requires i.source < 4 && i.target < 4
    ensures CleanOnPanic(vm, o)
  {
    var (vm, skip) :- ShouldSkip(vm, i.condition);
    if skip then Done(SkipParam(vm, size, i.source), ())
    else
      var (vm, v) :- Source(vm, size, i.source, true);
      var x := BitNot(size, v);
      Target(vm.(flagZero := x == 0), size, i.source, x, false)
  }

  function Inc(vm: Vm, i: Instr, size: Size, op: CarryOp): (o: Outcome<()>)
    requires i.source < 4 && i.target < 4
    ensures CleanOnPanic(vm, o)
  {
    var (vm, skip) :- ShouldSkip(vm, i.condition);
    if skip then Done(SkipParam(vm, size, i.source), ())
    else
      var (vm, v) :- Source(vm, size, i.source, true);
      var (x, overflow) := Checked(op, size, v, 1);
      Target(vm.(flagCarry := overflow, flagZero := x == 0), size, i.source, x, false)
  }

  function Add(vm: Vm, i: Instr, size: Size, op: CarryOp): (o: Outcome<()>)
    requires i.source < 4 && i.target < 4
    ensures CleanOnPanic(vm, o)
  {
    var (vm, skip) :- ShouldSkip(vm, i.condition);
    if skip then Done(SkipParams(vm, size, i), ())
    else
      var (vm, a) :- Source(vm, size, i.source, false);
      var (vm, b) :- Source(vm, size, i.target, true);
      var (x, overflow) := Checked(op, size, b, a);
      Target(vm.(flagCarry := overflow, flagZero := x == 0), size, i.target, x, false)
  }

  function And(vm: Vm, i: Instr, size: Size, op: ZeroOp): (o: Outcome<()>)
    requires i.source < 4 && i.target < 4
    ensures CleanOnPanic(vm, o)
  {
    var (vm, skip) :- ShouldSkip(vm, i.condition);
    if skip then Done(SkipParams(vm, size, i), ())
    else
      var (vm, a) :- Source(vm, size, i.source, false);
      var (vm, b) :- Source(vm, size, i.target, true);
      match Unchecked(op, size, b, a)
      case None => Undefined
      case Some(x) => Target(vm.(flagZero := x == 0), size, i.target, x, false)
  }

  /** Compare; the source applies no condition. */
  function Cmp(vm: Vm, i: Instr, size: Size): (o: Outcome<()>)
    requires i.source < 4 && i.target < 4
    ensures CleanOnPanic(vm, o)
  {
    var (vm, a) :- Source(vm, size, i.source, false);
    var (vm, b) :- Source(vm, size, i.target, false);
    var (x, overflow) := Checked(SubOp, size, b, a);
    Done(vm.(flagCarry := overflow, flagZero := x == 0), ())
  }

  /** Test a bit; the source applies no condition. */
  function Bts(vm: Vm, i: Instr, size: Size): (o: Outcome<()>)
    requires i.source < 4 && i.target < 4
    ensures CleanOnPanic(vm, o)
  {
    var (vm, a) :- Source(vm, size, i.source, false);
    var (vm, b) :- Source(vm, size, i.target, false);
    if a >= 32 then Undefined
    else Done(vm.(flagZero := if a < Width(size) then BitAnd(size, b, Bit(size, a)) == 0 else true), ())
  }

  function In(vm: Vm, i: Instr, bus: Bus): (o: Outcome<()>)
    requires i.source < 4 && i.target < 4
    ensures CleanOnPanic(vm, o)
  {
    var (vm, skip) :- ShouldSkip(vm, i.condition);
    if skip then Done(SkipParams(vm, Word, i), ())
    else
      var (vm, port) :- Source(vm, Word, i.source, false);
      match bus.read(vm.io, port)
      case None => Panic(vm, IoRead)
      case Some(value) => Target(vm.(io := vm.io + [PortRead(port, value)]), Word, i.target, value, false)
  }

  function Out(vm: Vm, i: Instr, bus: Bus): (o: Outcome<()>)
    requires i.source < 4 && i.target < 4
    ensures CleanOnPanic(vm, o)
  {
    var (vm, skip) :- ShouldSkip(vm, i.condition);
    if skip then Done(SkipParams(vm, Word, i), ())
    else
      var (vm, value) :- Source(vm, Word, i.source, false);
      var (vm, port) :- Source(vm, Word, i.target, false);
      if bus.write(vm.io, port, value) then Done(vm.(io := vm.io + [PortWrite(port, value)]), ())
      else Panic(vm, IoWrite)
  }

  function Rta(vm: Vm, i: Instr, base: u32): (o: Outcome<()>)
    requires i.source < 4 && i.target < 4
    ensures CleanOnPanic(vm, o)
  {
    var (vm, skip) :- ShouldSkip(vm, i.condition);
    if skip then Done(SkipParams(vm, Word, i), ())
    else
      var (vm, x) :- Source(vm, Word, i.source, false);
      Target(vm, Word, i.target, Add32(base, x), false)
  }

  function Ret(vm: Vm, i: Instr): (o: Outcome<()>)
    ensures CleanOnPanic(vm, o)
  {
    var (vm, skip) :- ShouldSkip(vm, i.condition);
    if skip then Done(vm, ())
    else
      var (vm, x) :- Pop(vm, Word);
      Done(vm.(pointerInstrMut := x), ())
  }

  function Reti(vm: Vm, i: Instr): (o: Outcome<()>)
    ensures CleanOnPanic(vm, o)
  {
    var (vm, skip) :- ShouldSkip(vm, i.condition);
    if skip then Done(vm, ())
    else
      var (vm, flags) :- Pop(vm, Byte);
      var (vm, x) :- Pop(FlagsSet(vm, flags), Word);
      Done(vm.(pointerInstrMut := x), ())
  }

  function SetInterrupt(vm: Vm, i: Instr, enabled: bool): (o: Outcome<()>)
    ensures CleanOnPanic(vm, o)
  {
    var (vm, skip) :- ShouldSkip(vm, i.condition);
    Done(if skip then vm else vm.(flagInterrupt := enabled), ())
  }

  function Halt(vm: Vm, i: Instr): (o: Outcome<()>)
    ensures CleanOnPanic(vm, o)
  {
    var (vm, skip) :- ShouldSkip(vm, i.condition);
    Done(if skip then vm else vm.(halted := true), ())
  }

  function Brk(vm: Vm, i: Instr): (o: Outcome<()>)
    ensures CleanOnPanic(vm, o)
  {
    var (vm, skip) :- ShouldSkip(vm, i.condition);
    if skip then Done(vm, ()) else Panic(vm, Debugger)
  }

  function SizeOf(bits: u8): Option<Size> {
    match bits
    case 0 => Some(Byte)
    case 1 => Some(Half)
    case 2 => Some(Word)
    case _ => None
  }

  /** The instructions that exist in all three sizes. */
  function DispatchSized(vm: Vm, i: Instr, size: Size): (o: Outcome<()>)
    requires i.source < 4 && i.target < 4
    ensures CleanOnPanic(vm, o)
  {
    match i.opcode % 64
    case 0x00 => Done(vm, ())
    case 0x10 => Halt(vm, i)
    case 0x20 => Brk(vm, i)
    case 0x1A => PopTo(vm, i, size)
    case 0x0A => PushFrom(vm, i, size)
    case 0x17 => Mov(vm, i, size, false)
    case 0x27 => Mov(vm, i, size, true)
    case 0x33 => Not(vm, i, size)
    case 0x11 => Inc(vm, i, size, AddOp)
    case 0x31 => Inc(vm, i, size, SubOp)
    case 0x01 => Add(vm, i, size, AddOp)
    case 0x21 => Add(vm, i, size, SubOp)
    case 0x02 => Add(vm, i, size, MulOp)
    case 0x0D => Add(vm, i, size, IMulOp)
    case 0x22 => And(vm, i, size, DivOp)
    case 0x32 => And(vm, i, size, RemOp)
    case 0x2D => And(vm, i, size, IDivOp)
    case 0x3D => And(vm, i, size, IRemOp)
    case 0x03 => And(vm, i, size, AndOp)
    case 0x23 => And(vm, i, size, XorOp)
    case 0x13 => And(vm, i, size, OrOp)
    case 0x04 => And(vm, i, size, SlaOp)
    case 0x15 => And(vm, i, size, SrlOp)
    case 0x05 => And(vm, i, size, SraOp)
    case 0x24 => And(vm, i, size, RolOp)
    case 0x25 => And(vm, i, size, RorOp)
    case 0x06 => And(vm, i, size, BseOp)
    case 0x16 => And(vm, i, size, BclOp)
    case 0x07 => Cmp(vm, i, size)
    case 0x26 => Bts(vm, i, size)
    case _ => Panic(vm, BadOpcode)
  }

  /** All instructions; those handled here exist as words only. */
  function Dispatch(vm: Vm, i: Instr, base: u32, bus: Bus): (o: Outcome<()>)
    requires i.source < 4 && i.target < 4
    ensures CleanOnPanic(vm, o)
  {
    match SizeOf(i.size)
    case None => Panic(vm, BadOpcode)
    case Some(size) =>
      if !size.Word? then DispatchSized(vm, i, size)
      else
        match i.opcode % 64
        case 0x0B => In(vm, i, bus)
        case 0x1B => Out(vm, i, bus)
        case 0x39 => Rta(vm, i, base)
        case 0x2A => Ret(vm, i)
        case 0x3A => Reti(vm, i)
        case 0x0C => SetInterrupt(vm, i, true)
        case 0x1C => SetInterrupt(vm, i, false)
        case 0x08 => Jmp(vm, i, 0)
        case 0x18 => Call(vm, i, 0)
        case 0x28 => Loop(vm, i, 0)
        case 0x09 => Jmp(vm, i, base)
        case 0x19 => Call(vm, i, base)
        case 0x29 => Loop(vm, i, base)
        case _ => DispatchSized(vm, i, Word)
  }

  /** One instruction.  On a panic the instruction pointer, RAM and ROM are as
      they were, so the instruction can be restarted. */
  function Execute(vm: Vm, bus: Bus): (o: Outcome<()>)
    ensures !o.Undefined? ==> o.vm.rom == vm.rom
    ensures o.Panic? ==>
      && o.vm.ram == vm.ram && o.vm.pointerInstr == vm.pointerInstr && o.vm.halted == vm.halted
      && FromInstruction(o.error)
  {
    var (vm, raw) :- Read(vm, Half, vm.pointerInstr);
    var i := InstrFrom(raw);
    var base := vm.pointerInstr;
    var (vm, _) :- Dispatch(vm.(pointerInstrMut := Add32(base, 2)), i, base, bus);
    Done(vm.(pointerInstr := vm.pointerInstrMut), ())
  }

  /** What a caller of the machine sees: its state and the error, if any. */
  datatype Report = Report(vm: Vm, error: Option<Error>) | Lost

  function Step(vm: Vm, bus: Bus): Report {
    match Execute(vm, bus)
    case Done(vm', _) => Report(vm', None)
    case Panic(vm', error) => Report(vm'.(halted := true), Some(error))
    case Undefined => Lost
  }

  /** Run until halted, a panic, or `count` instructions. */
  function Resume(vm: Vm, count: nat, bus: Bus): Report
    decreases count
  {
    if vm.halted || count == 0 then Report(vm, None)
    else
      match Execute(vm, bus)
      case Done(vm', _) => Resume(vm', count - 1, bus)
      case Panic(vm', error) => Report(vm'.(halted := true), Some(error))
      case Undefined => Lost
  }

  /** Enter an interrupt or exception handler. */
  function Raise(vm: Vm, vector: u16): Report {
    if !vm.flagInterrupt then Report(vm, Some(NoInterrupts))
    else
      match Read(vm, Word, 4 * vector)
      case Panic(vm', error) => Report(vm', Some(error))
      case Undefined => Lost
      case Done(_, handler) =>
        match Push(vm, Word, vm.pointerInstr)
        case Panic(vm', error) => Report(vm', Some(error))
        case Undefined => Lost
        case Done(vm1, _) =>
          match Push(vm1, Byte, FlagsGet(vm1))
          case Panic(vm', error) => Report(vm', Some(error))
          case Undefined => Lost
          case Done(vm2, _) =>
            Report(vm2.(pointerInstr := handler, halted := true, flagInterrupt := false), None)
  }

  /** The exception vector of an error that a handler can recover from. */
  function ExceptionOf(error: Error): Option<u16> {
    match error
    case Debugger => Some(0)
    case Fault => Some(1)
    case BadOpcode | BadCondition | BadRegister | BadImmediate => Some(2)
    case DivZero => Some(3)
    case IoRead | IoWrite => Some(4)
    case NoInterrupts | CantRecover => None
  }

  /** Enter the handler of the exception a failed step reported. */
  function Recover(vm: Vm, error: Error): Report {
    match ExceptionOf(error)
    case Some(vector) => Raise(vm, vector)
    case None => Report(vm, Some(CantRecover))
  }
}
