/** The Rust interpreter (fox32/src/cpu.rs, with the address map of
    fox32/src/memory.rs) as functions on machine states.

    A Rust panic ends the interpreter, so a function that may panic returns None.
    Additions wrap and shift counts are masked, as in a release build. */
module Cpu {
  import opened Words
  import opened Arithmetic
  import opened Memory

  datatype Flag = Flag(interrupt: bool, carry: bool, zero: bool)

  function FlagToByte(flag: Flag): u8 {
    (if flag.interrupt then 4 else 0) + (if flag.carry then 2 else 0) + (if flag.zero then 1 else 0)
  }

  function FlagFromByte(byte: u8): Flag {
    Flag(byte / 4 % 2 != 0, byte / 2 % 2 != 0, byte % 2 != 0)
  }

  datatype State = State(
    instructionPointer: u32,
    stackPointer: u32,
    register: Registers,
    flag: Flag,
    halted: bool,
    ram: Ram,
    rom: Rom,
    io: seq<IoEvent>)

  datatype Operand =
    | Register
    | RegisterPtr
    | Immediate8
    | Immediate16
    | Immediate32
    | ImmediatePtr(size: Size)

  datatype Condition =
    | Always
    | Zero
    | NotZero
    | Carry
    | NotCarry
    | GreaterThan
    | LessThanEqualTo

  datatype PlainOp = Halt | Brk | Ret | Reti | Ise | Icl
  datatype OneOp = Inc | Dec | Not
  datatype JumpOp = Jmp | Call | Loop | Rjmp | Rcall | Rloop
  datatype TwoOp =
    | Add | Sub | Mul | Div | Rem
    | And | Or | Xor
    | Sla | Sra | Srl | Rol | Ror
    | Bse | Bcl | Bts | Cmp

  /** The source's instruction variants; those with the same payload share a
      constructor and differ in `op`. */
  datatype Instruction =
    | Nop
    | Plain(plain: PlainOp, condition: Condition)
    | One(one: OneOp, size: Size, condition: Condition, source: Operand)
    | Two(two: TwoOp, size: Size, condition: Condition, destination: Operand, source: Operand)
    | Mov(size: Size, condition: Condition, destination: Operand, source: Operand)
    | Movz(size: Size, condition: Condition, destination: Operand, source: Operand)
    | Jump(jump: JumpOp, condition: Condition, source: Operand)
    | Rta(condition: Condition, destination: Operand, source: Operand)
    | Push(size: Size, condition: Condition, source: Operand)
    | Pop(size: Size, condition: Condition, source: Operand)
    | In(condition: Condition, destination: Operand, source: Operand)
    | Out(condition: Condition, destination: Operand, source: Operand)

  // ----- decoding

  function SizeFrom(bits: nat): Option<Size> {
    match bits
    case 0 => Some(Byte)
    case 1 => Some(Half)
    case 2 => Some(Word)
    case _ => None
  }

  function Immediate(size: Size): Operand {
    match size
    case Byte => Immediate8
    case Half => Immediate16
    case Word => Immediate32
  }

  function SourceFrom(bits: nat, size: Size): Option<Operand> {
    match bits
    case 0 => Some(Register)
    case 1 => Some(RegisterPtr)
    case 2 => Some(Immediate(size))
    case 3 => Some(ImmediatePtr(size))
    case _ => None
  }

  function DestinationFrom(bits: nat, size: Size): Option<Operand> {
    match bits
    case 0 => Some(Register)
    case 1 => Some(RegisterPtr)
    case 3 => Some(ImmediatePtr(size))
    case _ => None
  }

  function ConditionFrom(bits: nat): Option<Condition> {
    match bits
    case 0 => Some(Always)
    case 1 => Some(Zero)
    case 2 => Some(NotZero)
    case 3 => Some(Carry)
    case 4 => Some(NotCarry)
    case 5 => Some(GreaterThan)
    case 6 => Some(LessThanEqualTo)
    case _ => None
  }

  function InstructionFrom(
    opcode: nat, size: Size, condition: Condition, destination: Operand, source: Operand): Option<Instruction>
  {
    match opcode
    case 0x00 => Some(Nop)
    case 0x10 => Some(Plain(Halt, condition))
    case 0x20 => Some(Plain(Brk, condition))
    case 0x01 => Some(Two(Add, size, condition, destination, source))
    case 0x11 => Some(One(Inc, size, condition, source))
    case 0x21 => Some(Two(Sub, size, condition, destination, source))
    case 0x31 => Some(One(Dec, size, condition, source))
    case 0x02 => Some(Two(Mul, size, condition, destination, source))
    case 0x22 => Some(Two(Div, size, condition, destination, source))
    case 0x32 => Some(Two(Rem, size, condition, destination, source))
    case 0x03 => Some(Two(And, size, condition, destination, source))
    case 0x13 => Some(Two(Or, size, condition, destination, source))
    case 0x23 => Some(Two(Xor, size, condition, destination, source))
    case 0x33 => Some(One(Not, size, condition, source))
    case 0x04 => Some(Two(Sla, size, condition, destination, source))
    case 0x24 => Some(Two(Rol, size, condition, destination, source))
    case 0x05 => Some(Two(Sra, size, condition, destination, source))
    case 0x15 => Some(Two(Srl, size, condition, destination, source))
    case 0x25 => Some(Two(Ror, size, condition, destination, source))
    case 0x06 => Some(Two(Bse, size, condition, destination, source))
    case 0x16 => Some(Two(Bcl, size, condition, destination, source))
    case 0x26 => Some(Two(Bts, size, condition, destination, source))
    case 0x07 => Some(Two(Cmp, size, condition, destination, source))
    case 0x17 => Some(Mov(size, condition, destination, source))
    case 0x27 => Some(Movz(size, condition, destination, source))
    case 0x08 => Some(Jump(Jmp, condition, source))
    case 0x18 => Some(Jump(Call, condition, source))
    case 0x28 => Some(Jump(Loop, condition, source))
    case 0x09 => Some(Jump(Rjmp, condition, source))
    case 0x19 => Some(Jump(Rcall, condition, source))
    case 0x29 => Some(Jump(Rloop, condition, source))
    case 0x39 => Some(Rta(condition, destination, source))
    case 0x0A => Some(Push(size, condition, source))
    case 0x1A => Some(Pop(size, condition, source))
    case 0x2A => Some(Plain(Ret, condition))
    case 0x3A => Some(Plain(Reti, condition))
    case 0x0B => Some(In(condition, destination, source))
    case 0x1B => Some(Out(condition, destination, source))
    case 0x0C => Some(Plain(Ise, condition))
    case 0x1C => Some(Plain(Icl, condition))
    case _ => None
  }

  function FromHalf(half: u16): Option<Instruction> {
    var size :- SizeFrom(half / 0x4000 % 4);
    var source :- SourceFrom(half % 4, size);
    var destination :- DestinationFrom(half / 4 % 4, size);
    var condition :- ConditionFrom(half / 0x10 % 0x10);
    InstructionFrom(half / 0x100 % 0x40, size, condition, destination, source)
  }

  // ----- registers, memory and stack

  function Find(address: u32, size: Size): (place: Option<Place>)
    ensures place.Some? ==> Fits(place.value, size)
  {
    var tail := address + Bytes(size);
    if tail <= RAM_SIZE then Some(InRam(address))
    else if address >= ROM_START && tail - ROM_START <= ROM_SIZE then Some(InRom(address - ROM_START))
    else None
  }

  function Read(cpu: State, size: Size, address: u32): (v: Option<u32>)
    ensures v.Some? ==> v.value < Modulus(size)
  {
    var place :- Find(address, size);
    Some(Fetch(cpu.ram, cpu.rom, place, size))
  }

  /** Writing; the source lets a write reach ROM. */
  function Write(cpu: State, size: Size, address: u32, value: u32): Option<State> {
    var place :- Find(address, size);
    match place
    case InRam(offset) => Some(cpu.(ram := Store(size, cpu.ram, offset, value)))
    case InRom(offset) => Some(cpu.(rom := Store(size, cpu.rom, offset, value)))
  }

  function ReadRegister(cpu: State, register: u8): (v: Option<u32>)
    ensures v.Some? <==> register <= 32
  {
    if register < 32 then Some(cpu.register[register])
    else if register == 32 then Some(cpu.stackPointer)
    else None
  }

  function WriteRegister(cpu: State, register: u8, word: u32): (c: Option<State>)
    ensures c.Some? <==> register <= 32
  {
    if register < 32 then Some(cpu.(register := cpu.register[register := word]))
    else if register == 32 then Some(cpu.(stackPointer := word))
    else None
  }

  /** A register write of this size: a narrow one keeps the high bits. */
  function MergeRegister(cpu: State, size: Size, register: u8, value: u32): Option<State>
    requires value < Modulus(size)
  {
    var whole :- ReadRegister(cpu, register);
    WriteRegister(cpu, register, Merge(size, whole, value))
  }

  function PushStack(cpu: State, size: Size, value: u32): Option<State> {
    var cpu := cpu.(stackPointer := Sub32(cpu.stackPointer, Bytes(size)));
    Write(cpu, size, cpu.stackPointer, value)
  }

  function PopStack(cpu: State, size: Size): (r: Option<(State, u32)>)
    ensures r.Some? ==> r.value.1 < Modulus(size)
  {
    var value :- Read(cpu, size, cpu.stackPointer);
    Some((cpu.(stackPointer := Add32(cpu.stackPointer, Bytes(size))), value))
  }

  // ----- operands

  function CheckCondition(cpu: State, condition: Condition): bool {
    match condition
    case Always => true
    case Zero => cpu.flag.zero
    case NotZero => !cpu.flag.zero
    case Carry => cpu.flag.carry
    case NotCarry => !cpu.flag.carry
    case GreaterThan => !cpu.flag.carry && !cpu.flag.zero
    case LessThanEqualTo => cpu.flag.carry || cpu.flag.zero
  }

  /** The bytes an operand takes in the instruction stream. */
  function OperandWidth(operand: Operand): u32 {
    match operand
    case Register => 1
    case RegisterPtr => 1
    case Immediate8 => 1
    case Immediate16 => 2
    case Immediate32 => 4
    case ImmediatePtr(_) => 4
  }

  function At(cpu: State, offset: u32): u32 {
    Add32(cpu.instructionPointer, offset)
  }

  /** The source operand's value and the offset just past it.  A register pointer
      always reads a whole word. */
  function ReadSource(cpu: State, source: Operand): Option<(u32, u32)> {
    match source
    case Register =>
      var register :- Read(cpu, Byte, At(cpu, 2));
      var value :- ReadRegister(cpu, register);
      Some((value, 3))
    case RegisterPtr =>
      var register :- Read(cpu, Byte, At(cpu, 2));
      var pointer :- ReadRegister(cpu, register);
      var value :- Read(cpu, Word, pointer);
      Some((value, 3))
    case Immediate8 =>
      var value :- Read(cpu, Byte, At(cpu, 2));
      Some((value, 3))
    case Immediate16 =>
      var value :- Read(cpu, Half, At(cpu, 2));
      Some((value, 4))
    case Immediate32 =>
      var value :- Read(cpu, Word, At(cpu, 2));
      Some((value, 6))
    case ImmediatePtr(size) =>
      var pointer :- Read(cpu, Word, At(cpu, 2));
      var value :- Read(cpu, size, pointer);
      Some((value, 6))
  }

  /** The address a pointer operand at this offset denotes; None for a register
      (which has none), for an immediate, and where the source panics. */
  function Pointer(cpu: State, operand: Operand, offset: u32): Option<u32> {
    match operand
    case RegisterPtr =>
      var register :- Read(cpu, Byte, At(cpu, offset));
      ReadRegister(cpu, register)
    case ImmediatePtr(_) => Read(cpu, Word, At(cpu, offset))
    case _ => None
  }

  // ----- arithmetic

  /** A result and the flags it sets; a flag that is None is left alone. */
  datatype Alu = Alu(result: u32, zero: Option<bool>, carry: Option<bool>)

  function WithZero(result: u32): Alu {
    Alu(result, Some(result == 0), None)
  }

  function WithCarry(result: u32, carry: bool): Alu {
    Alu(result, Some(result == 0), Some(carry))
  }

  function Overflowing(op: TwoOp, size: Size, left: u32, right: u32): (r: Alu)
    requires op.Add? || op.Sub? || op.Mul? || op.Cmp?
    requires left < Modulus(size) && right < Modulus(size)
    ensures r.result < Modulus(size)
  {
    match op
    case Add => WithCarry(Trunc(size, left + right), left + right >= Modulus(size))
    case Mul => WithCarry(Trunc(size, Times(left, right)), Times(left, right) >= Modulus(size))
    case Sub | Cmp => WithCarry(if left >= right then left - right else left - right + Modulus(size), left < right)
  }

  function Rotated(size: Size, left: u32, n: nat): (r: u32)
    requires left < Modulus(size) && n <= Width(size)
    ensures r < Modulus(size)
  {
    BitOr(size, ShiftLeft(size, left, n), ShiftRight(size, left, Width(size) - n))
  }

  /** Shifts and rotations.  The carry is a bit of the shift count, as in the
      source. */
  function Shifting(op: TwoOp, size: Size, left: u32, count: u32): (r: Alu)
    requires op.Sla? || op.Sra? || op.Srl? || op.Rol? || op.Ror?
    requires left < Modulus(size)
    ensures r.result < Modulus(size)
  {
    var n := count % Width(size);
    match op
    case Sla => WithCarry(ShiftLeft(size, left, n), TestBit(count, Width(size) - 1))
    case Rol => WithCarry(Rotated(size, left, n), TestBit(count, Width(size) - 1))
    case Ror => WithCarry(Rotated(size, left, Width(size) - n), TestBit(count, 0))
    case Sra | Srl => WithCarry(ShiftRight(size, left, n), TestBit(count, 0))
  }

  /** What a two-operand instruction computes; None on division by zero. */
  function Compute(op: TwoOp, size: Size, left: u32, source: u32): (r: Option<Alu>)
    requires left < Modulus(size)
    ensures r.Some? ==> r.value.result < Modulus(size)
  {
    var right := Trunc(size, source);
    match op
    case Add | Sub | Mul | Cmp => Some(Overflowing(op, size, left, right))
    case Div => if right == 0 then None else Some(WithZero(Trunc(size, left / right)))
    case Rem => if right == 0 then None else Some(WithZero(Trunc(size, left % right)))
    case And => Some(WithZero(BitAnd(size, left, right)))
    case Or => Some(WithZero(BitOr(size, left, right)))
    case Xor => Some(WithZero(BitXor(size, left, right)))
    case Bse => Some(Alu(BitOr(size, left, Bit(size, source % Width(size))), None, None))
    case Bcl => Some(Alu(BitAnd(size, left, BitNot(size, Bit(size, source % Width(size)))), None, None))
    case Bts =>
      var bit := BitAnd(size, left, Bit(size, source % Width(size)));
      Some(Alu(bit, Some(bit == 0), None))
    case _ => Some(Shifting(op, size, left, source))
  }

  function ComputeOne(op: OneOp, size: Size, left: u32): (r: Alu)
    requires left < Modulus(size)
    ensures r.result < Modulus(size)
  {
    match op
    case Inc => Overflowing(Add, size, left, 1)
    case Dec => Overflowing(Sub, size, left, 1)
    case Not => WithZero(BitNot(size, left))
  }

  function NewFlags(flag: Flag, alu: Alu): Flag {
    flag.(
      zero := if alu.zero.Some? then alu.zero.value else flag.zero,
      carry := if alu.carry.Some? then alu.carry.value else flag.carry)
  }

  function SetFlags(cpu: State, alu: Alu): State {
    cpu.(flag := NewFlags(cpu.flag, alu))
  }

  /** Tests and comparisons only set flags. */
  predicate Stores(op: TwoOp) {
    !op.Bts? && !op.Cmp?
  }

  /** The bit instructions read a destination register even when not executed. */
  predicate Eager(op: TwoOp) {
    op.Bse? || op.Bcl? || op.Bts?
  }

  // ----- instructions: each gives the new state and the next instruction pointer

  function ExecuteTwo(
    cpu: State, op: TwoOp, size: Size, condition: Condition, destination: Operand, source: Operand)
    : Option<(State, u32)>
  {
    var (sourceValue, offset) :- ReadSource(cpu, source);
    var shouldRun := CheckCondition(cpu, condition);
    if destination.Register? then
      var register :- Read(cpu, Byte, At(cpu, offset));
      var next := At(cpu, offset + 1);
      if !shouldRun then
        if Eager(op) && register > 32 then None else Some((cpu, next))
      else
        var whole :- ReadRegister(cpu, register);
        var alu :- Compute(op, size, Trunc(size, whole), sourceValue);
        var written :- if Stores(op) then MergeRegister(cpu, size, register, alu.result) else Some(cpu);
        Some((SetFlags(written, alu), next))
    else
      var pointer :- Pointer(cpu, destination, offset);
      var left :- Read(cpu, size, pointer);
      var alu :- Compute(op, size, left, sourceValue);
      var next := At(cpu, offset + OperandWidth(destination));
      if !shouldRun then Some((cpu, next))
      else
        var written :- if Stores(op) then Write(cpu, size, pointer, alu.result) else Some(cpu);
        Some((SetFlags(written, alu), next))
  }

  function ExecuteOne(cpu: State, op: OneOp, size: Size, condition: Condition, source: Operand): Option<(State, u32)> {
    var shouldRun := CheckCondition(cpu, condition);
    if source.Register? then
      var register :- Read(cpu, Byte, At(cpu, 2));
      var next := At(cpu, 3);
      if !shouldRun then Some((cpu, next))
      else
        var whole :- ReadRegister(cpu, register);
        var alu := ComputeOne(op, size, Trunc(size, whole));
        var written :- MergeRegister(cpu, size, register, alu.result);
        Some((SetFlags(written, alu), next))
    else
      var pointer :- Pointer(cpu, source, 2);
      var next := At(cpu, 2 + OperandWidth(source));
      if !shouldRun then
        if op.Not? && Read(cpu, size, pointer).None? then None else Some((cpu, next))
      else
        var left :- Read(cpu, size, pointer);
        var alu := ComputeOne(op, size, left);
        var written :- Write(cpu, size, pointer, alu.result);
        Some((SetFlags(written, alu), next))
  }

  function ExecuteMov(
    cpu: State, size: Size, condition: Condition, destination: Operand, source: Operand): Option<(State, u32)>
  {
    var (sourceValue, offset) :- ReadSource(cpu, source);
    var shouldRun := CheckCondition(cpu, condition);
    var value := Trunc(size, sourceValue);
    if destination.Register? then
      var register :- Read(cpu, Byte, At(cpu, offset));
      var next := At(cpu, offset + 1);
      if !shouldRun then Some((cpu, next))
      else
        var written :- MergeRegister(cpu, size, register, value);
        Some((written, next))
    else
      var pointer :- Pointer(cpu, destination, offset);
      var next := At(cpu, offset + OperandWidth(destination));
      if !shouldRun then Some((cpu, next))
      else
        var written :- Write(cpu, size, pointer, value);
        Some((written, next))
  }

  /** A zero-extending move, which only accepts a register destination. */
  function ExecuteMovz(
    cpu: State, size: Size, condition: Condition, destination: Operand, source: Operand): Option<(State, u32)>
  {
    var (sourceValue, offset) :- ReadSource(cpu, source);
    var shouldRun := CheckCondition(cpu, condition);
    if !destination.Register? then None
    else
      var register :- Read(cpu, Byte, At(cpu, offset));
      var next := At(cpu, offset + 1);
      if !shouldRun then Some((cpu, next))
      else
        var written :- WriteRegister(cpu, register, Trunc(size, sourceValue));
        Some((written, next))
  }

  function ExecuteJump(cpu: State, op: JumpOp, condition: Condition, source: Operand): Option<(State, u32)> {
    var (sourceValue, offset) :- ReadSource(cpu, source);
    var shouldRun := CheckCondition(cpu, condition);
    var next := At(cpu, offset);
    var destination := if op.Rjmp? || op.Rcall? || op.Rloop? then At(cpu, sourceValue) else sourceValue;
    match op
    case Jmp | Rjmp => Some((cpu, if shouldRun then destination else next))
    case Call | Rcall =>
      if !shouldRun then Some((cpu, next))
      else
        var pushed :- PushStack(cpu, Word, next);
        Some((pushed, destination))
    case Loop | Rloop =>
      var counter := Sub32(cpu.register[31], 1);
      Some((cpu.(register := cpu.register[31 := counter]), if shouldRun && counter != 0 then destination else next))
  }

  /** Relative to absolute; a destination pointer is itself relative. */
  function ExecuteRta(cpu: State, condition: Condition, destination: Operand, source: Operand): Option<(State, u32)> {
    var (sourceValue, offset) :- ReadSource(cpu, source);
    var shouldRun := CheckCondition(cpu, condition);
    var value := At(cpu, sourceValue);
    if destination.Register? then
      var register :- Read(cpu, Byte, At(cpu, offset));
      var next := At(cpu, offset + 1);
      if !shouldRun then Some((cpu, next))
      else
        var written :- WriteRegister(cpu, register, value);
        Some((written, next))
    else
      var pointer :- Pointer(cpu, destination, offset);
      var next := At(cpu, offset + OperandWidth(destination));
      if !shouldRun then Some((cpu, next))
      else
        var written :- Write(cpu, Word, At(cpu, pointer), value);
        Some((written, next))
  }

  function ExecutePush(cpu: State, size: Size, condition: Condition, source: Operand): Option<(State, u32)> {
    var (sourceValue, offset) :- ReadSource(cpu, source);
    var next := At(cpu, offset);
    if !CheckCondition(cpu, condition) then Some((cpu, next))
    else
      var pushed :- PushStack(cpu, size, Trunc(size, sourceValue));
      Some((pushed, next))
  }

  function ExecutePop(cpu: State, size: Size, condition: Condition, source: Operand): Option<(State, u32)> {
    var shouldRun := CheckCondition(cpu, condition);
    if source.Register? then
      var register :- Read(cpu, Byte, At(cpu, 2));
      var next := At(cpu, 3);
      if !shouldRun then Some((cpu, next))
      else
        var (popped, value) :- PopStack(cpu, size);
        var written :- MergeRegister(popped, size, register, value);
        Some((written, next))
    else
      var pointer :- Pointer(cpu, source, 2);
      var next := At(cpu, 2 + OperandWidth(source));
      if !shouldRun then Some((cpu, next))
      else
        var (popped, value) :- PopStack(cpu, size);
        var written :- Write(popped, size, pointer, value);
        Some((written, next))
  }

  function ExecutePlain(cpu: State, op: PlainOp, condition: Condition): Option<(State, u32)> {
    var next := At(cpu, 2);
    if !CheckCondition(cpu, condition) then Some((cpu, next))
    else
      match op
      case Halt => Some((cpu.(halted := true), next))
      case Brk => Some((cpu, next))
      case Ret => PopStack(cpu, Word)
      case Reti =>
        var (popped, flags) :- PopStack(cpu, Byte);
        PopStack(popped.(flag := FlagFromByte(flags)), Word)
      case Ise => Some((cpu.(flag := cpu.flag.(interrupt := true)), next))
      case Icl => Some((cpu.(flag := cpu.flag.(interrupt := false)), next))
  }

  /** Port input; the port is read even when the condition fails. */
  function ExecuteIn(
    cpu: State, condition: Condition, destination: Operand, source: Operand, bus: Bus): Option<(State, u32)>
  {
    var (port, offset) :- ReadSource(cpu, source);
    var shouldRun := CheckCondition(cpu, condition);
    if destination.Register? then
      var register :- Read(cpu, Byte, At(cpu, offset));
      var value :- bus.read(cpu.io, port);
      var cpu := cpu.(io := cpu.io + [PortRead(port, value)]);
      var next := At(cpu, offset + 1);
      if !shouldRun then Some((cpu, next))
      else
        var written :- WriteRegister(cpu, register, value);
        Some((written, next))
    else
      var pointer :- Pointer(cpu, destination, offset);
      var value :- bus.read(cpu.io, port);
      var cpu := cpu.(io := cpu.io + [PortRead(port, value)]);
      var next := At(cpu, offset + OperandWidth(destination));
      if !shouldRun then Some((cpu, next))
      else
        var written :- Write(cpu, Word, pointer, value);
        Some((written, next))
  }

  function WriteIo(cpu: State, port: u32, value: u32, bus: Bus): Option<State> {
    if bus.write(cpu.io, port, value) then Some(cpu.(io := cpu.io + [PortWrite(port, value)])) else None
  }

  function ExecuteOut(
    cpu: State, condition: Condition, destination: Operand, source: Operand, bus: Bus): Option<(State, u32)>
  {
    var (value, offset) :- ReadSource(cpu, source);
    var shouldRun := CheckCondition(cpu, condition);
    if destination.Register? then
      var register :- Read(cpu, Byte, At(cpu, offset));
      var next := At(cpu, offset + 1);
      if !shouldRun then Some((cpu, next))
      else
        var port :- ReadRegister(cpu, register);
        var written :- WriteIo(cpu, port, value, bus);
        Some((written, next))
    else
      var pointer :- Pointer(cpu, destination, offset);
      var next := At(cpu, offset + OperandWidth(destination));
      if !shouldRun then Some((cpu, next))
      else
        var port :- Read(cpu, Word, pointer);
        var written :- WriteIo(cpu, port, value, bus);
        Some((written, next))
  }

  function ExecuteInstruction(cpu: State, instruction: Instruction, bus: Bus): Option<(State, u32)> {
    match instruction
    case Nop => Some((cpu, At(cpu, 2)))
    case Plain(op, condition) => ExecutePlain(cpu, op, condition)
    case One(op, size, condition, source) => ExecuteOne(cpu, op, size, condition, source)
    case Two(op, size, condition, destination, source) => ExecuteTwo(cpu, op, size, condition, destination, source)
    case Mov(size, condition, destination, source) => ExecuteMov(cpu, size, condition, destination, source)
    case Movz(size, condition, destination, source) => ExecuteMovz(cpu, size, condition, destination, source)
    case Jump(op, condition, source) => ExecuteJump(cpu, op, condition, source)
    case Rta(condition, destination, source) => ExecuteRta(cpu, condition, destination, source)
    case Push(size, condition, source) => ExecutePush(cpu, size, condition, source)
    case Pop(size, condition, source) => ExecutePop(cpu, size, condition, source)
    case In(condition, destination, source) => ExecuteIn(cpu, condition, destination, source, bus)
    case Out(condition, destination, source) => ExecuteOut(cpu, condition, destination, source, bus)
  }

  /** One step of the interpreter. */
  function ExecuteMemoryInstruction(cpu: State, bus: Bus): Option<State> {
    var half :- Read(cpu, Half, cpu.instructionPointer);
    var instruction :- FromHalf(half);
    var (next, pointer) :- ExecuteInstruction(cpu, instruction, bus);
    Some(next.(instructionPointer := pointer))
  }

  function HandleInterrupt(cpu: State, vector: u16): Option<State> {
    var address :- Read(cpu, Word, vector * 4);
    var cpu :- PushStack(cpu, Word, cpu.instructionPointer);
    var cpu :- PushStack(cpu, Byte, FlagToByte(cpu.flag));
    Some(cpu.(flag := cpu.flag.(interrupt := false), instructionPointer := address))
  }

  /** An interrupt request: ignored while interrupts are disabled. */
  function Interrupt(cpu: State, vector: u8): Option<State> {
    if cpu.flag.interrupt then HandleInterrupt(cpu, vector) else Some(cpu)
  }
}
