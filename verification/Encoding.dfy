/** The assembler's encoding and the interpreter's decoding are inverse: a linear
    sweep over assembled instructions recovers them. */
module Encoding {
  import opened Words
  import A = Asm
  import E = Emission
  import R = Cpu
  import N = Lengths
  import P = Placement

  // ----- what an assembled node should decode to

  function ConditionOf(condition: A.Condition): R.Condition {
    match condition
    case Always => R.Always
    case Zero => R.Zero
    case NotZero => R.NotZero
    case Carry => R.Carry
    case NotCarry => R.NotCarry
    case GreaterThan => R.GreaterThan
    case LessThanEqualTo => R.LessThanEqualTo
  }

  function OperandOf(operand: A.Operand, size: Size): R.Operand {
    match operand
    case Register(_) => R.Register
    case RegisterPointer(_) => R.RegisterPtr
    case ImmediatePointer(_) | LabelOperandPointer(_, _) => R.ImmediatePtr(size)
    case Immediate8(_) | Immediate16(_) | Immediate32(_) | LabelOperand(_, _, _) => R.Immediate(size)
  }

  function ZeroOf(instruction: A.InstructionZero, condition: R.Condition): R.Instruction {
    match instruction
    case Nop => R.Nop
    case Halt => R.Plain(R.Halt, condition)
    case Brk => R.Plain(R.Brk, condition)
    case Ret => R.Plain(R.Ret, condition)
    case Reti => R.Plain(R.Reti, condition)
    case Ise => R.Plain(R.Ise, condition)
    case Icl => R.Plain(R.Icl, condition)
  }

  function OneOf(instruction: A.InstructionOne, size: Size, condition: R.Condition, source: R.Operand): R.Instruction {
    match instruction
    case Inc => R.One(R.Inc, size, condition, source)
    case Dec => R.One(R.Dec, size, condition, source)
    case Not => R.One(R.Not, size, condition, source)
    case Jmp => R.Jump(R.Jmp, condition, source)
    case Call => R.Jump(R.Call, condition, source)
    case Loop => R.Jump(R.Loop, condition, source)
    case Rjmp => R.Jump(R.Rjmp, condition, source)
    case Rcall => R.Jump(R.Rcall, condition, source)
    case Rloop => R.Jump(R.Rloop, condition, source)
    case Push => R.Push(size, condition, source)
    case Pop => R.Pop(size, condition, source)
  }

  /** The operations the decoder treats alike; None for moves, RTA and port access. */
  function TwoOpOf(instruction: A.InstructionTwo): Option<R.TwoOp> {
    match instruction
    case Add => Some(R.Add)
    case Sub => Some(R.Sub)
    case Mul => Some(R.Mul)
    case Div => Some(R.Div)
    case Rem => Some(R.Rem)
    case And => Some(R.And)
    case Or => Some(R.Or)
    case Xor => Some(R.Xor)
    case Sla => Some(R.Sla)
    case Sra => Some(R.Sra)
    case Srl => Some(R.Srl)
    case Rol => Some(R.Rol)
    case Ror => Some(R.Ror)
    case Bse => Some(R.Bse)
    case Bcl => Some(R.Bcl)
    case Bts => Some(R.Bts)
    case Cmp => Some(R.Cmp)
    case Mov | Movz | Rta | In | Out => None
  }

  function TwoOf(
    instruction: A.InstructionTwo, size: Size, condition: R.Condition, destination: R.Operand, source: R.Operand)
    : R.Instruction
  {
    match TwoOpOf(instruction)
    case Some(op) => R.Two(op, size, condition, destination, source)
    case None =>
      if instruction.Mov? then R.Mov(size, condition, destination, source)
      else if instruction.Movz? then R.Movz(size, condition, destination, source)
      else if instruction.Rta? then R.Rta(condition, destination, source)
      else if instruction.In? then R.In(condition, destination, source)
      else R.Out(condition, destination, source)
  }

  /** The decoded form of an operation node. */
  function InstructionOf(node: A.AstNode): R.Instruction
    requires A.IsOperation(node)
  {
    match node
    case OperationZero(condition, instruction) => ZeroOf(instruction, ConditionOf(condition))
    case OperationOne(size, condition, instruction, operand) =>
      OneOf(instruction, size, ConditionOf(condition), OperandOf(operand, size))
    case OperationTwo(size, condition, instruction, lhs, rhs) =>
      TwoOf(instruction, size, ConditionOf(condition), OperandOf(lhs, size), OperandOf(rhs, size))
  }

  // ----- the opcode half

  /** The bit fields of an opcode half come apart as they were put together. */
  lemma HalfFields(c: nat, s: nat, d: nat, op: nat, z: nat)
    requires c <= 6 && s < 4 && d < 4 && op < 0x40 && z < 3
    ensures
      var half := 0x10 * c + s + 4 * d + 0x100 * (op + 0x40 * z);
      && half < 0x1_0000
      && half % 4 == s
      && half / 4 % 4 == d
      && half / 0x10 % 0x10 == c
      && half / 0x100 % 0x40 == op
      && half / 0x4000 % 4 == z
  {
    var half := 0x10 * c + s + 4 * d + 0x100 * (op + 0x40 * z);
    assert half / 4 == d + 4 * (c + 0x10 * (op + 0x40 * z));
    assert half / 0x10 == c + 0x10 * (op + 0x40 * z);
    assert half / 0x100 == op + 0x40 * z;
    assert half / 0x4000 == z;
  }

  function SizeNumber(size: Size): nat {
    match size
    case Byte => 0
    case Half => 1
    case Word => 2
  }

  lemma DecodeHalf(
    half: u16, c: nat, s: nat, d: nat, op: nat, size: Size,
    condition: R.Condition, destination: R.Operand, source: R.Operand)
    requires c <= 6 && s < 4 && d < 4 && op < 0x40
    requires half == 0x10 * c + s + 4 * d + 0x100 * (op + 0x40 * SizeNumber(size))
    requires R.ConditionFrom(c) == Some(condition)
    requires R.SourceFrom(s, size) == Some(source)
    requires R.DestinationFrom(d, size) == Some(destination)
    ensures R.FromHalf(half) == R.InstructionFrom(op, size, condition, destination, source)
  {
    hide R.InstructionFrom;
    HalfFields(c, s, d, op, SizeNumber(size));
  }

  lemma ZeroDecodes(instruction: A.InstructionZero, condition: R.Condition, d: R.Operand, s: R.Operand)
    ensures R.InstructionFrom(A.OpcodeZero(instruction), Word, condition, d, s) == Some(ZeroOf(instruction, condition))
  {
  }

  lemma OneDecodes(instruction: A.InstructionOne, size: Size, condition: R.Condition, d: R.Operand, s: R.Operand)
    ensures
      R.InstructionFrom(A.OpcodeOne(instruction), size, condition, d, s)
      == Some(OneOf(instruction, size, condition, s))
  {
  }

  lemma TwoDecodes(instruction: A.InstructionTwo, size: Size, condition: R.Condition, d: R.Operand, s: R.Operand)
    ensures
      R.InstructionFrom(A.OpcodeTwo(instruction), size, condition, d, s)
      == Some(TwoOf(instruction, size, condition, d, s))
  {
    match instruction
    case Add => case Sub => case Mul => case Div => case Rem => case And => case Or => case Xor =>
    case Sla => case Sra => case Srl => case Rol => case Ror => case Bse => case Bcl => case Bts =>
    case Cmp => case Mov => case Movz => case Rta => case In => case Out =>
  }

  /** The opcode half of an operation node. */
  function HalfOf(node: A.AstNode): Option<u16>
    requires A.IsOperation(node)
  {
    var first :- A.ConditionSourceDestinationToByte(node);
    Some(Join(first, A.InstructionToByte(node), 0, 0))
  }

  lemma ZeroHalfDecodes(condition: A.Condition, instruction: A.InstructionZero)
    ensures
      var node := A.OperationZero(condition, instruction);
      R.FromHalf(HalfOf(node).value) == Some(InstructionOf(node))
  {
    hide R.FromHalf, R.InstructionFrom, ZeroOf, OneOf, TwoOf, A.OpcodeZero, A.OpcodeOne, A.OpcodeTwo;
    var half, c := HalfOf(A.OperationZero(condition, instruction)).value, ConditionOf(condition);
    OpcodeRange(instruction, A.Inc, A.Add);
    DecodeHalf(
      half, A.ConditionBits(condition) / 0x10, 0, 0, A.OpcodeZero(instruction), Word, c, R.Register, R.Register);
    ZeroDecodes(instruction, c, R.Register, R.Register);
  }

  lemma OneHalfDecodes(size: Size, condition: A.Condition, instruction: A.InstructionOne, operand: A.Operand)
    ensures
      var node := A.OperationOne(size, condition, instruction, operand);
      R.FromHalf(HalfOf(node).value) == Some(InstructionOf(node))
  {
    hide R.FromHalf, R.InstructionFrom, ZeroOf, OneOf, TwoOf, A.OpcodeZero, A.OpcodeOne, A.OpcodeTwo;
    var half := HalfOf(A.OperationOne(size, condition, instruction, operand)).value;
    var c, s := ConditionOf(condition), OperandOf(operand, size);
    OpcodeRange(A.Nop, instruction, A.Add);
    DecodeHalf(
      half, A.ConditionBits(condition) / 0x10, A.SourceBits(operand), 0, A.OpcodeOne(instruction),
      size, c, R.Register, s);
    OneDecodes(instruction, size, c, R.Register, s);
  }

  lemma TwoHalfDecodes(
    size: Size, condition: A.Condition, instruction: A.InstructionTwo, lhs: A.Operand, rhs: A.Operand)
    requires A.DestinationBits(lhs).Some?
    ensures
      var node := A.OperationTwo(size, condition, instruction, lhs, rhs);
      R.FromHalf(HalfOf(node).value) == Some(InstructionOf(node))
  {
    hide R.FromHalf, R.InstructionFrom, ZeroOf, OneOf, TwoOf, A.OpcodeZero, A.OpcodeOne, A.OpcodeTwo;
    var half := HalfOf(A.OperationTwo(size, condition, instruction, lhs, rhs)).value;
    var c, d, s := ConditionOf(condition), OperandOf(lhs, size), OperandOf(rhs, size);
    OpcodeRange(A.Nop, A.Inc, instruction);
    DecodeHalf(
      half, A.ConditionBits(condition) / 0x10, A.SourceBits(rhs), A.DestinationBits(lhs).value / 4,
      A.OpcodeTwo(instruction), size, c, d, s);
    TwoDecodes(instruction, size, c, d, s);
  }

  /** Decoding an assembled opcode half gives back the instruction. */
  lemma HalfDecodes(node: A.AstNode)
    requires A.IsOperation(node) && HalfOf(node).Some?
    ensures R.FromHalf(HalfOf(node).value) == Some(InstructionOf(node))
  {
    hide R.FromHalf, InstructionOf;
    match node
    case OperationZero(condition, instruction) => ZeroHalfDecodes(condition, instruction);
    case OperationOne(size, condition, instruction, operand) => OneHalfDecodes(size, condition, instruction, operand);
    case OperationTwo(size, condition, instruction, lhs, rhs) => TwoHalfDecodes(size, condition, instruction, lhs, rhs);
  }

  lemma OpcodeRange(zero: A.InstructionZero, one: A.InstructionOne, two: A.InstructionTwo)
    ensures A.OpcodeZero(zero) < 0x40 && A.OpcodeOne(one) < 0x40 && A.OpcodeTwo(two) < 0x40
  {
  }

  // ----- the sweep over a program

  /** One decoded instruction with its raw operands, source first. */
  datatype Decoded = Decoded(instruction: R.Instruction, operands: seq<u32>)

  /** The operands an instruction takes, in encoding order. */
  function OperandsOf(instruction: R.Instruction): seq<R.Operand> {
    match instruction
    case Nop => []
    case Plain(_, _) => []
    case One(_, _, _, source) => [source]
    case Two(_, _, _, destination, source) => [source, destination]
    case Mov(_, _, destination, source) => [source, destination]
    case Movz(_, _, destination, source) => [source, destination]
    case Jump(_, _, source) => [source]
    case Rta(_, destination, source) => [source, destination]
    case Push(_, _, source) => [source]
    case Pop(_, _, source) => [source]
    case In(_, destination, source) => [source, destination]
    case Out(_, destination, source) => [source, destination]
  }

  /** The raw value of an operand field: register number, immediate or pointer. */
  function RawOperand(operand: R.Operand, bytes: seq<u8>, at: nat): Option<u32> {
    if at + R.OperandWidth(operand) > |bytes| then None
    else
      match R.OperandWidth(operand)
      case 1 => Some(Load(Byte, bytes, at))
      case 2 => Some(Load(Half, bytes, at))
      case _ => Some(Load(Word, bytes, at))
  }

  function RawOperands(operands: seq<R.Operand>, bytes: seq<u8>, at: nat): Option<seq<u32>> {
    if operands == [] then Some([])
    else
      var value :- RawOperand(operands[0], bytes, at);
      var rest :- RawOperands(operands[1..], bytes, at + R.OperandWidth(operands[0]));
      Some([value] + rest)
  }

  /** Decode instruction after instruction, stepping by operand widths. */
  function Sweep(bytes: seq<u8>, at: nat): Option<seq<Decoded>>
    requires at <= |bytes|
    decreases |bytes| - at
  {
    if at == |bytes| then Some([])
    else if at + 2 > |bytes| then None
    else
      var instruction :- R.FromHalf(Load(Half, bytes, at));
      var operands :- RawOperands(OperandsOf(instruction), bytes, at + 2);
      var next := at + N.DecodedLength(instruction);
      if next > |bytes| then None
      else
        var rest :- Sweep(bytes, next);
        Some([Decoded(instruction, operands)] + rest)
  }

  // ----- well-formed nodes

  /** An operand whose width matches the instruction's size. */
  predicate OperandFits(operand: A.Operand, size: Size) {
    match operand
    case Immediate8(_) => size.Byte?
    case Immediate16(_) => size.Half?
    case Immediate32(_) => size.Word?
    case LabelOperand(_, _, _) | LabelOperandPointer(_, _) => false
    case _ => true
  }

  /** A well-formed instruction node without labels: immediates as wide as the
      instruction, and a destination that can be written. */
  predicate WellFormed(node: A.AstNode) {
    match node
    case OperationZero(_, _) => true
    case OperationOne(size, _, _, operand) => OperandFits(operand, size)
    case OperationTwo(size, _, _, lhs, rhs) =>
      OperandFits(lhs, size) && OperandFits(rhs, size) && A.DestinationBits(lhs).Some?
    case _ => false
  }

  /** The raw value an operand is encoded with. */
  function ValueOf(operand: A.Operand): u32 {
    match operand
    case Register(register) => register
    case RegisterPointer(register) => register
    case Immediate8(byte) => byte
    case Immediate16(half) => half
    case Immediate32(word) => word
    case ImmediatePointer(pointer) => pointer
    case LabelOperand(_, _, _) | LabelOperandPointer(_, _) => 0
  }

  function ValuesOf(node: A.AstNode): seq<u32> {
    match node
    case OperationOne(_, _, _, operand) => [ValueOf(operand)]
    case OperationTwo(_, _, _, lhs, rhs) => [ValueOf(rhs), ValueOf(lhs)]
    case _ => []
  }

  function DecodedOf(node: A.AstNode): Decoded
    requires A.IsOperation(node)
  {
    Decoded(InstructionOf(node), ValuesOf(node))
  }

  function DecodedAll(nodes: seq<A.AstNode>): seq<Decoded>
    requires forall i :: 0 <= i < |nodes| ==> A.IsOperation(nodes[i])
  {
    if nodes == [] then [] else [DecodedOf(nodes[0])] + DecodedAll(nodes[1..])
  }

  /** The bytes of a list of label-free nodes. */
  function EmitAll(nodes: seq<A.AstNode>): (r: seq<u8>)
    requires forall i :: 0 <= i < |nodes| ==> WellFormed(nodes[i])
  {
    if nodes == [] then [] else EmitBytes(nodes[0]) + EmitAll(nodes[1..])
  }

  function EmitOperandBytes(operand: A.Operand): seq<u8>
    requires !operand.LabelOperand? && !operand.LabelOperandPointer?
  {
    E.EmitOperand(operand, map[], 0).value
  }

  /** A label-free node's bytes do not depend on labels or address. */
  function EmitBytes(node: A.AstNode): (r: seq<u8>)
    requires WellFormed(node)
  {
    E.Emit(node, map[], 0).value
  }

  lemma EmitsWhatTheAssemblerEmits(node: A.AstNode, labels: A.LabelTable, address: u32)
    requires WellFormed(node)
    ensures E.Emit(node, labels, address) == Some(EmitBytes(node))
  {
  }

  lemma OperandField(operand: A.Operand, size: Size)
    requires OperandFits(operand, size)
    ensures |EmitOperandBytes(operand)| == R.OperandWidth(OperandOf(operand, size))
  {
  }

  /** An encoded operand reads back as its value. */
  lemma OperandReads(operand: A.Operand, size: Size, bytes: seq<u8>, at: nat)
    requires OperandFits(operand, size)
    requires at + |EmitOperandBytes(operand)| <= |bytes|
    requires bytes[at..at + |EmitOperandBytes(operand)|] == EmitOperandBytes(operand)
    ensures RawOperand(OperandOf(operand, size), bytes, at) == Some(ValueOf(operand))
  {
    var field := EmitOperandBytes(operand);
    assert forall k {:trigger field[k]} :: 0 <= k < |field| ==> bytes[at + k] == bytes[at..at + |field|][k];
    match operand
    case Immediate16(half) => LoadLe(Half, bytes, at, half);
    case Immediate32(word) => LoadLe(Word, bytes, at, word);
    case ImmediatePointer(pointer) => LoadLe(Word, bytes, at, pointer);
    case Register(_) => assert bytes[at] == field[0];
    case RegisterPointer(_) => assert bytes[at] == field[0];
    case Immediate8(_) => assert bytes[at] == field[0];
  }

  lemma OperandsOfNode(node: A.AstNode)
    requires A.IsOperation(node)
    ensures
      OperandsOf(InstructionOf(node)) ==
      match node
      case OperationZero(_, _) => []
      case OperationOne(size, _, _, operand) => [OperandOf(operand, size)]
      case OperationTwo(size, _, _, lhs, rhs) => [OperandOf(rhs, size), OperandOf(lhs, size)]
    ensures
      N.DecodedLength(InstructionOf(node)) ==
      match node
      case OperationZero(_, _) => 2
      case OperationOne(size, _, _, operand) => 2 + R.OperandWidth(OperandOf(operand, size))
      case OperationTwo(size, _, _, lhs, rhs) =>
        2 + R.OperandWidth(OperandOf(rhs, size)) + R.OperandWidth(OperandOf(lhs, size))
  {
    hide OperandOf, R.OperandWidth, ConditionOf;
  }

  /** A run of bytes inside a run. */
  lemma Inside(bytes: seq<u8>, at: nat, run: seq<u8>, from: nat, to: nat)
    requires at + |run| <= |bytes| && bytes[at..at + |run|] == run && from <= to <= |run|
    ensures bytes[at + from..at + to] == run[from..to]
  {
    forall k | from <= k < to
      ensures bytes[at + k] == run[k]
    {
      assert bytes[at + k] == bytes[at..at + |run|][k];
    }
  }

  /** A well-formed node's bytes: the opcode half, then each operand field. */
  lemma NodeBytes(node: A.AstNode)
    requires WellFormed(node)
    ensures HalfOf(node).Some?
    ensures
      var first := A.ConditionSourceDestinationToByte(node).value;
      EmitBytes(node) == [first, A.InstructionToByte(node)] + (
        match node
        case OperationZero(_, _) => []
        case OperationOne(_, _, _, operand) => EmitOperandBytes(operand)
        case OperationTwo(_, _, _, lhs, rhs) => EmitOperandBytes(rhs) + EmitOperandBytes(lhs))
  {
    hide A.InstructionToByte;
  }

  /** The opcode half of a node inside a program. */
  lemma HalfSweeps(node: A.AstNode, bytes: seq<u8>, at: nat)
    requires WellFormed(node)
    requires at + |EmitBytes(node)| <= |bytes|
    requires bytes[at..at + |EmitBytes(node)|] == EmitBytes(node)
    ensures |EmitBytes(node)| >= 2
    ensures R.FromHalf(Load(Half, bytes, at)) == Some(InstructionOf(node))
  {
    hide R.FromHalf, InstructionOf, EmitBytes, EmitOperandBytes;
    hide A.InstructionToByte, A.ConditionSourceDestinationToByte;
    NodeBytes(node);
    Inside(bytes, at, EmitBytes(node), 0, 2);
    assert bytes[at] == bytes[at..at + 2][0] && bytes[at + 1] == bytes[at..at + 2][1];
    HalfDecodes(node);
  }

  /** One operand behind an opcode half. */
  lemma OneSweeps(run: seq<u8>, operand: A.Operand, size: Size, bytes: seq<u8>, at: nat)
    requires OperandFits(operand, size) && |run| == 2 + |EmitOperandBytes(operand)|
    requires run[2..] == EmitOperandBytes(operand)
    requires at + |run| <= |bytes| && bytes[at..at + |run|] == run
    ensures RawOperands([OperandOf(operand, size)], bytes, at + 2) == Some([ValueOf(operand)])
    ensures 2 + R.OperandWidth(OperandOf(operand, size)) == |run|
  {
    hide OperandOf, EmitOperandBytes, RawOperand, RawOperands, R.OperandWidth, ValueOf, OperandFits;
    OperandField(operand, size);
    Inside(bytes, at, run, 2, |run|);
    OperandReads(operand, size, bytes, at + 2);
    OneRaw(OperandOf(operand, size), bytes, at + 2);
  }

  /** Two operands behind an opcode half, the source first. */
  lemma TwoSweeps(run: seq<u8>, lhs: A.Operand, rhs: A.Operand, size: Size, bytes: seq<u8>, at: nat)
    requires OperandFits(lhs, size) && OperandFits(rhs, size)
    requires |run| == 2 + |EmitOperandBytes(rhs)| + |EmitOperandBytes(lhs)|
    requires run[2..] == EmitOperandBytes(rhs) + EmitOperandBytes(lhs)
    requires at + |run| <= |bytes| && bytes[at..at + |run|] == run
    ensures
      RawOperands([OperandOf(rhs, size), OperandOf(lhs, size)], bytes, at + 2) == Some([ValueOf(rhs), ValueOf(lhs)])
    ensures 2 + R.OperandWidth(OperandOf(rhs, size)) + R.OperandWidth(OperandOf(lhs, size)) == |run|
  {
    hide OperandOf, EmitOperandBytes, RawOperand, RawOperands, R.OperandWidth, ValueOf;
    var w := |EmitOperandBytes(rhs)|;
    OperandField(rhs, size);
    OperandField(lhs, size);
    Inside(bytes, at, run, 2, 2 + w);
    Inside(bytes, at, run, 2 + w, |run|);
    assert run[2..2 + w] == run[2..][..w] && run[2 + w..] == run[2..][w..];
    OperandReads(rhs, size, bytes, at + 2);
    OperandReads(lhs, size, bytes, at + 2 + w);
    TwoRaw(OperandOf(rhs, size), OperandOf(lhs, size), bytes, at + 2);
  }

  /** One node inside a program is decoded as itself. */
  lemma NodeSweeps(node: A.AstNode, bytes: seq<u8>, at: nat)
    requires WellFormed(node)
    requires at + |EmitBytes(node)| <= |bytes|
    requires bytes[at..at + |EmitBytes(node)|] == EmitBytes(node)
    ensures |EmitBytes(node)| >= 2
    ensures R.FromHalf(Load(Half, bytes, at)) == Some(InstructionOf(node))
    ensures RawOperands(OperandsOf(InstructionOf(node)), bytes, at + 2) == Some(ValuesOf(node))
    ensures N.DecodedLength(InstructionOf(node)) == |EmitBytes(node)|
  {
    hide R.FromHalf, InstructionOf, OperandsOf, N.DecodedLength, EmitBytes, OperandOf, A.InstructionToByte, Load;
    hide EmitOperandBytes, RawOperand, R.OperandWidth, ValueOf, A.ConditionSourceDestinationToByte, OperandFits;
    HalfSweeps(node, bytes, at);
    NodeBytes(node);
    OperandsOfNode(node);
    var run := EmitBytes(node);
    match node
    case OperationZero(_, _) =>
    case OperationOne(size, _, _, operand) => OneSweeps(run, operand, size, bytes, at);
    case OperationTwo(size, _, _, lhs, rhs) => TwoSweeps(run, lhs, rhs, size, bytes, at);
  }

  lemma OneRaw(a: R.Operand, bytes: seq<u8>, at: nat)
    requires RawOperand(a, bytes, at).Some?
    ensures RawOperands([a], bytes, at) == Some([RawOperand(a, bytes, at).value])
  {
    assert [a][1..] == [];
    assert RawOperands([], bytes, at + R.OperandWidth(a)) == Some([]);
    var value := RawOperand(a, bytes, at).value;
    assert [value] + [] == [value];
  }

  lemma TwoRaw(a: R.Operand, b: R.Operand, bytes: seq<u8>, at: nat)
    requires RawOperand(a, bytes, at).Some? && RawOperand(b, bytes, at + R.OperandWidth(a)).Some?
    ensures
      RawOperands([a, b], bytes, at)
      == Some([RawOperand(a, bytes, at).value, RawOperand(b, bytes, at + R.OperandWidth(a)).value])
  {
    assert [a, b][1..] == [b];
    OneRaw(b, bytes, at + R.OperandWidth(a));
    var v, w := RawOperand(a, bytes, at).value, RawOperand(b, bytes, at + R.OperandWidth(a)).value;
    assert [v] + [w] == [v, w];
  }

  lemma Parts(bytes: seq<u8>, at: nat, first: seq<u8>, rest: seq<u8>)
    requires at <= |bytes| && bytes[at..] == first + rest
    ensures at + |first| <= |bytes|
    ensures bytes[at..at + |first|] == first && bytes[at + |first|..] == rest
  {
    assert |bytes[at..]| == |first| + |rest|;
    assert bytes[at..at + |first|] == bytes[at..][..|first|];
    assert bytes[at + |first|..] == bytes[at..][|first|..];
  }

  /** Sweeping the emitted bytes of well-formed nodes, wherever they begin. */
  lemma {:induction false} SweepEmitted(nodes: seq<A.AstNode>, bytes: seq<u8>, at: nat)
    requires forall i :: 0 <= i < |nodes| ==> WellFormed(nodes[i])
    requires at <= |bytes| && bytes[at..] == EmitAll(nodes)
    ensures Sweep(bytes, at) == Some(DecodedAll(nodes))
    decreases |nodes|
  {
    hide EmitBytes, DecodedOf, InstructionOf, R.FromHalf, N.DecodedLength, ValuesOf, RawOperands, OperandsOf;
    hide WellFormed, Sweep;
    AreOperations(nodes);
    if nodes == [] {
      assert |bytes[at..]| == 0;
      SweepEnd(bytes);
    } else {
      var first, rest := EmitBytes(nodes[0]), EmitAll(nodes[1..]);
      Parts(bytes, at, first, rest);
      NodeSweeps(nodes[0], bytes, at);
      SweepEmitted(nodes[1..], bytes, at + |first|);
      SweepOne(nodes[0], bytes, at, DecodedAll(nodes[1..]));
    }
  }

  lemma AreOperations(nodes: seq<A.AstNode>)
    requires forall i :: 0 <= i < |nodes| ==> WellFormed(nodes[i])
    ensures forall i :: 0 <= i < |nodes| ==> A.IsOperation(nodes[i])
  {
  }

  lemma SweepEnd(bytes: seq<u8>)
    ensures Sweep(bytes, |bytes|) == Some([])
  {
  }

  lemma SweepOne(node: A.AstNode, bytes: seq<u8>, at: nat, rest: seq<Decoded>)
    requires A.IsOperation(node) && at + 2 <= |bytes|
    requires R.FromHalf(Load(Half, bytes, at)) == Some(InstructionOf(node))
    requires RawOperands(OperandsOf(InstructionOf(node)), bytes, at + 2) == Some(ValuesOf(node))
    requires
      var next := at + N.DecodedLength(InstructionOf(node));
      next <= |bytes| && Sweep(bytes, next) == Some(rest)
    ensures Sweep(bytes, at) == Some([DecodedOf(node)] + rest)
  {
    hide InstructionOf, R.FromHalf, N.DecodedLength, ValuesOf, RawOperands, OperandsOf, Load;
  }

  lemma {:induction false} EmitAllAppend(nodes: seq<A.AstNode>, more: seq<A.AstNode>)
    requires forall i :: 0 <= i < |nodes| ==> WellFormed(nodes[i])
    requires forall i :: 0 <= i < |more| ==> WellFormed(more[i])
    ensures EmitAll(nodes + more) == EmitAll(nodes) + EmitAll(more)
    decreases |nodes|
  {
    hide WellFormed, EmitBytes;
    if nodes == [] {
      assert nodes + more == more;
    } else {
      EmitAllAppend(nodes[1..], more);
      assert (nodes + more)[1..] == nodes[1..] + more;
      assert (nodes + more)[0] == nodes[0];
    }
  }

  // ----- programs with labels

  /** Immediates and label fields are as wide as the instruction. */
  predicate SizesMatch(node: A.AstNode) {
    match node
    case OperationOne(size, _, _, operand) => WidthMatches(operand, size)
    case OperationTwo(size, _, _, lhs, rhs) => WidthMatches(lhs, size) && WidthMatches(rhs, size)
    case _ => true
  }

  predicate WidthMatches(operand: A.Operand, size: Size) {
    match operand
    case LabelOperand(_, s, _) => s == size
    case LabelOperandPointer(_, _) => true
    case _ => OperandFits(operand, size)
  }

  /** What the linear sweep is about: instructions, with labels and constants between
      them. */
  predicate IsCode(node: A.AstNode) {
    (A.IsOperation(node) && SizesMatch(node)) || node.LabelDefine? || node.Constant?
  }

  /** The immediate of a size that holds a value cut to it. */
  function ImmediateOf(size: Size, value: u32): A.Operand {
    match size
    case Byte => A.Immediate8(Trunc(Byte, value))
    case Half => A.Immediate16(Trunc(Half, value))
    case Word => A.Immediate32(value)
  }

  /** The address an operand naming a label stands for: the label's own, or its distance
      from the instruction. */
  function Meant(name: string, isRelative: bool, labels: A.LabelTable, at: u32): u32 {
    var address := if name in labels then labels[name].address else 0;
    if isRelative then Sub32(address, at) else address
  }

  /** The operand with its label, if it names one, replaced by what it stands for. */
  function ResolvedOperand(operand: A.Operand, labels: A.LabelTable, at: u32): A.Operand {
    match operand
    case LabelOperand(name, size, isRelative) => ImmediateOf(size, Meant(name, isRelative, labels, at))
    case LabelOperandPointer(name, isRelative) => A.ImmediatePointer(Meant(name, isRelative, labels, at))
    case _ => operand
  }

  /** The instruction with its labels replaced, standing at an address. */
  function ResolvedNode(node: A.AstNode, labels: A.LabelTable, at: u32): A.AstNode {
    match node
    case OperationOne(size, condition, one, operand) =>
      A.OperationOne(size, condition, one, ResolvedOperand(operand, labels, at))
    case OperationTwo(size, condition, two, lhs, rhs) =>
      A.OperationTwo(size, condition, two, ResolvedOperand(lhs, labels, at), ResolvedOperand(rhs, labels, at))
    case _ => node
  }

  /** The instructions of a program, each resolved at the address the pass gave it. */
  function Resolved(start: u32, ast: seq<A.AstNode>, labels: A.LabelTable): (r: seq<A.AstNode>)
    requires A.FirstPass(start, ast).Some?
    ensures forall i :: 0 <= i < |r| ==> A.IsOperation(r[i])
    decreases |ast|
  {
    if ast == [] then []
    else
      var init, node := ast[..|ast| - 1], ast[|ast| - 1];
      Resolved(start, init, labels)
      + if A.IsOperation(node) then [ResolvedNode(node, labels, A.FirstPass(start, init).value.address)] else []
  }

  /** The names an instruction uses. */
  function OperandUses(operand: A.Operand): set<string> {
    match operand
    case LabelOperand(name, _, _) => {name}
    case LabelOperandPointer(name, _) => {name}
    case _ => {}
  }

  function Uses(node: A.AstNode): set<string> {
    match node
    case OperationOne(_, _, _, operand) => OperandUses(operand)
    case OperationTwo(_, _, _, lhs, rhs) => OperandUses(lhs) + OperandUses(rhs)
    case _ => {}
  }

  /** The names a program defines. */
  function NamesOf(ast: seq<A.AstNode>): set<string> {
    if ast == [] then {}
    else
      match ast[|ast| - 1]
      case LabelDefine(name) => NamesOf(ast[..|ast| - 1]) + {name}
      case Constant(name, _) => NamesOf(ast[..|ast| - 1]) + {name}
      case _ => NamesOf(ast[..|ast| - 1])
  }

  /** The destination, if there is one, can be written. */
  predicate Writable(node: A.AstNode) {
    A.IsOperation(node) ==> HalfOf(node).Some?
  }

  lemma OperandResolves(operand: A.Operand, size: Size, labels: A.LabelTable, at: u32)
    requires WidthMatches(operand, size)
    ensures
      var r, e := ResolvedOperand(operand, labels, at), E.EmitOperand(operand, labels, at);
      && OperandFits(r, size) && OperandOf(r, size) == OperandOf(operand, size)
      && A.SourceBits(r) == A.SourceBits(operand) && A.DestinationBits(r) == A.DestinationBits(operand)
      && E.EmitOperand(r, map[], 0) == Some(EmitOperandBytes(r))
      && (e.Some? <==> OperandUses(operand) <= labels.Keys)
      && (e.Some? ==> e == Some(EmitOperandBytes(r)))
  {
    if operand.LabelOperand? {
      var value := Meant(operand.name, operand.isRelative, labels, at);
      LeTrunc(size, value, Trunc(size, value));
    }
  }

  /** A resolved instruction has no labels left, decodes to the same instruction, and its
      bytes are what the assembler emits for the instruction. */
  lemma NodeResolves(node: A.AstNode, labels: A.LabelTable, at: u32)
    requires A.IsOperation(node) && SizesMatch(node)
    ensures
      var r, e := ResolvedNode(node, labels, at), E.Emit(node, labels, at);
      && InstructionOf(r) == InstructionOf(node)
      && (e.Some? <==> Writable(node) && Uses(node) <= labels.Keys)
      && (e.Some? ==> WellFormed(r) && e == Some(EmitBytes(r)))
  {
    hide OperandFits, OperandOf, ResolvedOperand, WidthMatches, OperandUses, E.EmitOperand;
    hide A.SourceBits, A.DestinationBits, ConditionOf, OneOf, TwoOf, ZeroOf, A.OpcodeZero, A.OpcodeOne, A.OpcodeTwo;
    match node
    case OperationZero(_, _) =>
    case OperationOne(size, _, _, operand) =>
      OperandResolves(operand, size, labels, at);
    case OperationTwo(size, _, _, lhs, rhs) =>
      OperandResolves(lhs, size, labels, at);
      OperandResolves(rhs, size, labels, at);
  }

  /** One more node: it is emitted where the pass stands. */
  lemma DirectSnoc(start: u32, init: seq<A.AstNode>, last: A.AstNode, labels: A.LabelTable)
    requires A.FirstPass(start, init).Some?
    ensures
      var before, after := E.Direct(start, init, labels), E.Direct(start, init + [last], labels);
      var e := E.Emit(last, labels, A.FirstPass(start, init).value.address);
      && (after.Some? <==> before.Some? && e.Some?)
      && (after.Some? ==> after.value.bytes == before.value.bytes + e.value)
  {
    hide E.Emit, A.FirstPass, A.Output, A.Defined;
    var ast := init + [last];
    assert ast[..|ast| - 1] == init && ast[|ast| - 1] == last;
    E.BackpatchingIsDirectEmission(start, init, labels);
  }

  /** Every destination can be written and every name used is a known one. */
  predicate Emittable(ast: seq<A.AstNode>, names: set<string>) {
    forall i :: 0 <= i < |ast| ==> Writable(ast[i]) && Uses(ast[i]) <= names
  }

  lemma EmittableSnoc(init: seq<A.AstNode>, last: A.AstNode, names: set<string>)
    ensures Emittable(init + [last], names) <==> Emittable(init, names) && Writable(last) && Uses(last) <= names
  {
    hide Writable, Uses;
    var ast := init + [last];
    assert ast[|init|] == last && forall i :: 0 <= i < |init| ==> ast[i] == init[i];
  }

  lemma EmitAllOne(nodes: seq<A.AstNode>, node: A.AstNode)
    requires forall i :: 0 <= i < |nodes| ==> WellFormed(nodes[i])
    requires WellFormed(node)
    ensures forall i :: 0 <= i < |nodes + [node]| ==> WellFormed((nodes + [node])[i])
    ensures EmitAll(nodes + [node]) == EmitAll(nodes) + EmitBytes(node)
  {
    hide WellFormed, EmitBytes;
    EmitAllAppend(nodes, [node]);
    assert [node][1..] == [] && EmitBytes(node) + [] == EmitBytes(node);
  }

  /** Direct emission of a program succeeds exactly when every instruction's does, and
      gives the bytes of the resolved instructions. */
  lemma {:induction false} DirectIsEmitAll(start: u32, ast: seq<A.AstNode>, labels: A.LabelTable)
    requires forall i :: 0 <= i < |ast| ==> IsCode(ast[i])
    requires A.FirstPass(start, ast).Some?
    ensures E.Direct(start, ast, labels).Some? <==> Emittable(ast, labels.Keys)
    ensures E.Direct(start, ast, labels).Some? ==>
      var r := Resolved(start, ast, labels);
      && (forall i :: 0 <= i < |r| ==> WellFormed(r[i]))
      && E.Direct(start, ast, labels).value.bytes == EmitAll(r)
    decreases |ast|
  {
    hide WellFormed, EmitBytes, E.Emit, E.Direct, A.PassNode, SizesMatch, Writable, Uses, InstructionOf, ResolvedNode;
    hide EmitAll, Emittable;
    if ast == [] {
      NothingEmitted(start, labels);
    } else {
      var init, last := ast[..|ast| - 1], ast[|ast| - 1];
      assert init + [last] == ast;
      DirectIsEmitAll(start, init, labels);
      var at := A.FirstPass(start, init).value.address;
      DirectSnoc(start, init, last, labels);
      EmittableSnoc(init, last, labels.Keys);
      if A.IsOperation(last) {
        NodeResolves(last, labels, at);
        if E.Direct(start, ast, labels).Some? {
          EmitAllOne(Resolved(start, init, labels), ResolvedNode(last, labels, at));
        }
      } else {
        NameEmitsNothing(last, labels, at);
        if E.Direct(start, init, labels).Some? {
          var bytes, resolved := E.Direct(start, init, labels).value.bytes, Resolved(start, init, labels);
          assert bytes + [] == bytes && resolved + [] == resolved;
        }
      }
    }
  }

  lemma NothingEmitted(start: u32, labels: A.LabelTable)
    ensures E.Direct(start, [], labels) == Some(E.Image([], start)) && Emittable([], labels.Keys) && EmitAll([]) == []
  {
  }

  /** A name between instructions. */
  lemma NameEmitsNothing(node: A.AstNode, labels: A.LabelTable, at: u32)
    requires node.LabelDefine? || node.Constant?
    ensures E.Emit(node, labels, at) == Some([]) && Writable(node) && Uses(node) == {}
  {
  }

  /** The pass over a program succeeds exactly when every destination can be written, and
      records the names the program defines. */
  lemma {:induction false} PassOfCode(start: u32, ast: seq<A.AstNode>)
    requires forall i :: 0 <= i < |ast| ==> IsCode(ast[i])
    ensures A.FirstPass(start, ast).Some? <==> forall i :: 0 <= i < |ast| ==> Writable(ast[i])
    ensures A.FirstPass(start, ast).Some? ==> A.FirstPass(start, ast).value.labels.Keys == NamesOf(ast)
    decreases |ast|
  {
    hide Writable, A.PassNode, IsCode;
    if ast != [] {
      var init, last := ast[..|ast| - 1], ast[|ast| - 1];
      assert init + [last] == ast;
      PassOfCode(start, init);
      if A.FirstPass(start, init).Some? {
        NodeOfCode(A.FirstPass(start, init).value, last);
      }
    }
  }

  lemma NodeOfCode(p: A.Pass, node: A.AstNode)
    requires IsCode(node)
    ensures A.PassNode(p, node).Some? <==> Writable(node)
    ensures A.PassNode(p, node).Some? ==>
      A.PassNode(p, node).value.labels.Keys
      == p.labels.Keys + if node.LabelDefine? || node.Constant? then {node.name} else {}
  {
    hide A.OperandsCode, A.InstructionToByte, A.ConditionSourceDestinationToByte;
  }

  /** Every destination can be written and every name used is defined in the program. */
  predicate Resolvable(ast: seq<A.AstNode>) {
    Emittable(ast, NamesOf(ast))
  }

  /** What the assembler writes for a program: it writes something exactly when the
      program can be resolved, and then the bytes of the resolved instructions. */
  lemma OutputIsEmitAll(start: u32, ast: seq<A.AstNode>)
    requires forall i :: 0 <= i < |ast| ==> IsCode(ast[i])
    ensures
      var p := A.FirstPass(start, ast);
      && (p.Some? && A.Defined(p.value.chunks, p.value.labels) <==> Resolvable(ast))
      && (Resolvable(ast) ==>
           var r := Resolved(start, ast, p.value.labels);
           && (forall i :: 0 <= i < |r| ==> WellFormed(r[i]))
           && A.Output(p.value.chunks, p.value.labels) == EmitAll(r))
  {
    hide A.Output, A.FirstPass, A.Defined, E.Direct, IsCode, WellFormed, EmitAll, Resolved, Writable, Uses, NamesOf;
    PassOfCode(start, ast);
    if A.FirstPass(start, ast).Some? {
      var p := A.FirstPass(start, ast).value;
      E.BackpatchingIsDirectEmission(start, ast, p.labels);
      DirectIsEmitAll(start, ast, p.labels);
    }
  }

  /** Round trip on programs, labels and all: a list of instructions, label definitions and
      constants assembles exactly when every destination can be written and every name
      used is defined, and then sweeping the assembler's output recovers every
      instruction in order, with each label operand read as the label's address or its
      distance from the instruction. */
  lemma SweepRecovers(start: u32, ast: seq<A.AstNode>)
    requires forall i :: 0 <= i < |ast| ==> IsCode(ast[i])
    ensures
      var p := A.FirstPass(start, ast);
      && (p.Some? && A.Defined(p.value.chunks, p.value.labels) <==> Resolvable(ast))
      && (Resolvable(ast) ==>
           Sweep(A.Output(p.value.chunks, p.value.labels), 0)
           == Some(DecodedAll(Resolved(start, ast, p.value.labels))))
  {
    hide A.Output, A.FirstPass, A.Defined, Sweep, IsCode, WellFormed, EmitAll, Resolved, Resolvable, DecodedAll;
    OutputIsEmitAll(start, ast);
    if Resolvable(ast) {
      var p := A.FirstPass(start, ast).value;
      var bytes := A.Output(p.chunks, p.labels);
      assert bytes[0..] == bytes;
      SweepEmitted(Resolved(start, ast, p.labels), bytes, 0);
    }
  }

  /** Well-formed instructions without labels are resolved as they are. */
  lemma {:induction false} NothingToResolve(start: u32, nodes: seq<A.AstNode>, labels: A.LabelTable)
    requires forall i :: 0 <= i < |nodes| ==> WellFormed(nodes[i])
    ensures forall i :: 0 <= i < |nodes| ==> IsCode(nodes[i]) && Writable(nodes[i]) && Uses(nodes[i]) == {}
    ensures A.FirstPass(start, nodes).Some? && Resolved(start, nodes, labels) == nodes
    decreases |nodes|
  {
    hide A.PassNode, A.FirstPass, ResolvedNode, IsCode, Writable, Uses, WellFormed;
    forall i | 0 <= i < |nodes|
      ensures IsCode(nodes[i]) && Writable(nodes[i]) && Uses(nodes[i]) == {}
    {
      NodeStays(nodes[i], labels, 0);
    }
    PassOfCode(start, nodes);
    if nodes != [] {
      var init, last := nodes[..|nodes| - 1], nodes[|nodes| - 1];
      NothingToResolve(start, init, labels);
      NodeStays(last, labels, A.FirstPass(start, init).value.address);
      assert init + [last] == nodes;
    }
  }

  lemma NodeStays(node: A.AstNode, labels: A.LabelTable, at: u32)
    requires WellFormed(node)
    ensures A.IsOperation(node) && IsCode(node) && Writable(node) && Uses(node) == {}
    ensures ResolvedNode(node, labels, at) == node
  {
    hide A.InstructionToByte;
  }

  /** The label-free case: what was swept is what was written. */
  lemma LabelFreeSweepRecovers(start: u32, nodes: seq<A.AstNode>)
    requires forall i :: 0 <= i < |nodes| ==> WellFormed(nodes[i])
    ensures
      var p := A.FirstPass(start, nodes);
      && p.Some? && A.Defined(p.value.chunks, p.value.labels)
      && (forall i :: 0 <= i < |nodes| ==> A.IsOperation(nodes[i]))
      && Sweep(A.Output(p.value.chunks, p.value.labels), 0) == Some(DecodedAll(nodes))
  {
    hide A.Output, A.FirstPass, A.Defined, Sweep, WellFormed, IsCode, Writable, Uses, Resolved, DecodedAll;
    AreOperations(nodes);
    NothingToResolve(start, nodes, map[]);
    SweepRecovers(start, nodes);
    NothingToResolve(start, nodes, A.FirstPass(start, nodes).value.labels);
  }

  // ----- sweeping from a label

  /** What a prefix resolves to begins what the whole does. */
  lemma {:induction false} ResolvedPrefix(start: u32, ast: seq<A.AstNode>, k: nat, labels: A.LabelTable)
    requires k <= |ast| && A.FirstPass(start, ast).Some?
    ensures A.FirstPass(start, ast[..k]).Some?
    ensures Resolved(start, ast[..k], labels) <= Resolved(start, ast, labels)
    decreases |ast|
  {
    hide A.PassNode, ResolvedNode;
    P.PrefixPass(start, ast, k);
    if k == |ast| {
      assert ast[..k] == ast;
    } else {
      var init := ast[..|ast| - 1];
      assert init[..k] == ast[..k];
      ResolvedPrefix(start, init, k, labels);
    }
  }

  /** The instructions from the k-th node on. */
  function ResolvedFrom(start: u32, ast: seq<A.AstNode>, k: nat, labels: A.LabelTable): (r: seq<A.AstNode>)
    requires k <= |ast| && A.FirstPass(start, ast).Some?
    ensures forall i :: 0 <= i < |r| ==> A.IsOperation(r[i])
  {
    ResolvedPrefix(start, ast, k, labels);
    Resolved(start, ast, labels)[|Resolved(start, ast[..k], labels)|..]
  }

  /** A label's address is where its code can be decoded: sweeping the output from the
      address less the start recovers the instructions behind the label. */
  lemma LabelsReachTheirCode(start: u32, ast: seq<A.AstNode>, k: nat, name: string)
    requires forall i :: 0 <= i < |ast| ==> IsCode(ast[i])
    requires Resolvable(ast) && k < |ast|
    requires ast[k] == A.LabelDefine(name) && P.NotRedefined(name, ast[k + 1..])
    ensures A.FirstPass(start, ast).Some? && A.FirstPass(start, ast[..k]).Some?
    ensures
      var p := A.FirstPass(start, ast).value;
      var offset := P.OffsetOf(start, ast, k);
      && A.Defined(p.chunks, p.labels) && name in p.labels
      && p.labels[name].address == A.Plus(start, offset)
      && offset <= |A.Output(p.chunks, p.labels)|
      && Sweep(A.Output(p.chunks, p.labels), offset) == Some(DecodedAll(ResolvedFrom(start, ast, k, p.labels)))
  {
    hide A.Output, A.FirstPass, A.Defined, Sweep, IsCode, WellFormed, EmitAll, Resolved, Resolvable, DecodedAll;
    hide A.Patched, A.Total, A.Plus, P.NotRedefined;
    OutputIsEmitAll(start, ast);
    NoOriginInCode(ast);
    P.LabelsAreTrueOffsets(start, ast, k, name);
    var p := A.FirstPass(start, ast).value;
    var bytes, offset := A.Output(p.chunks, p.labels), P.OffsetOf(start, ast, k);
    var before := A.FirstPass(start, ast[..k]).value;
    PrefixIsEmitAll(start, ast, k, p.labels);
    A.OutputLength(before.chunks, p.labels);
    ResolvedPrefix(start, ast, k, p.labels);
    var r, s := Resolved(start, ast[..k], p.labels), ResolvedFrom(start, ast, k, p.labels);
    assert r + s == Resolved(start, ast, p.labels);
    assert forall i :: 0 <= i < |s| ==> s[i] == (r + s)[|r| + i];
    EmitAllAppend(r, s);
    assert (EmitAll(r) + EmitAll(s))[offset..] == EmitAll(s);
    SweepEmitted(s, bytes, offset);
  }

  lemma NoOriginInCode(ast: seq<A.AstNode>)
    requires forall i :: 0 <= i < |ast| ==> IsCode(ast[i])
    ensures P.NoOrigin(ast)
  {
  }

  /** A prefix's own output, with the whole program's labels. */
  lemma PrefixIsEmitAll(start: u32, ast: seq<A.AstNode>, k: nat, labels: A.LabelTable)
    requires forall i :: 0 <= i < |ast| ==> IsCode(ast[i])
    requires k <= |ast| && A.FirstPass(start, ast[..k]).Some?
    requires A.Defined(A.FirstPass(start, ast[..k]).value.chunks, labels)
    ensures
      var r := Resolved(start, ast[..k], labels);
      && (forall i :: 0 <= i < |r| ==> WellFormed(r[i]))
      && A.Output(A.FirstPass(start, ast[..k]).value.chunks, labels) == EmitAll(r)
  {
    hide A.Output, A.FirstPass, A.Defined, E.Direct, IsCode, WellFormed, EmitAll, Resolved, Writable, Uses;
    E.BackpatchingIsDirectEmission(start, ast[..k], labels);
    DirectIsEmitAll(start, ast[..k], labels);
  }

  // ----- what the decoded form determines

  predicate Sizeless(two: A.InstructionTwo) {
    two.Rta? || two.In? || two.Out?
  }

  predicate IsJump(one: A.InstructionOne) {
    one.Jmp? || one.Call? || one.Loop? || one.Rjmp? || one.Rcall? || one.Rloop?
  }

  predicate InRegister(operand: A.Operand) {
    operand.Register? || operand.RegisterPointer?
  }

  /** A node without what the decoder discards: NOP's condition, and the size of a
      jump or port instruction whose operands are all registers. */
  function Normal(node: A.AstNode): A.AstNode {
    match node
    case OperationZero(_, Nop) => A.OperationZero(A.Always, A.Nop)
    case OperationOne(_, condition, one, operand) =>
      if IsJump(one) && InRegister(operand) then A.OperationOne(Word, condition, one, operand) else node
    case OperationTwo(_, condition, two, lhs, rhs) =>
      if Sizeless(two) && InRegister(lhs) && InRegister(rhs) then A.OperationTwo(Word, condition, two, lhs, rhs)
      else node
    case _ => node
  }

  /** Two well-formed operands with equal decoded form and raw value are equal. */
  lemma OperandsDetermined(a: A.Operand, b: A.Operand, size: Size, other: Size)
    requires OperandFits(a, size) && OperandFits(b, other)
    ensures OperandOf(a, size) == OperandOf(b, other) && ValueOf(a) == ValueOf(b) ==> a == b
    ensures OperandOf(a, size) == OperandOf(b, other) ==> size == other || (InRegister(a) && InRegister(b))
    ensures a == b && InRegister(a) ==> OperandOf(a, size) == OperandOf(b, other)
  {
  }

  lemma OnesDetermined(
    one: A.InstructionOne, other: A.InstructionOne, s: Size, t: Size, c: R.Condition, d: R.Condition,
    x: R.Operand, y: R.Operand)
    ensures
      OneOf(one, s, c, x) == OneOf(other, t, d, y)
      <==> one == other && c == d && x == y && (s == t || IsJump(one))
  {
  }

  /** The instruction an operation came from. */
  function TwoKind(op: R.TwoOp): A.InstructionTwo {
    match op
    case Add => A.Add
    case Sub => A.Sub
    case Mul => A.Mul
    case Div => A.Div
    case Rem => A.Rem
    case And => A.And
    case Or => A.Or
    case Xor => A.Xor
    case Sla => A.Sla
    case Sra => A.Sra
    case Srl => A.Srl
    case Rol => A.Rol
    case Ror => A.Ror
    case Bse => A.Bse
    case Bcl => A.Bcl
    case Bts => A.Bts
    case Cmp => A.Cmp
  }

  lemma KindOfOp(two: A.InstructionTwo)
    ensures TwoOpOf(two).None? <==> two.Mov? || two.Movz? || two.Rta? || two.In? || two.Out?
    ensures TwoOpOf(two).Some? ==> TwoKind(TwoOpOf(two).value) == two
  {
  }

  lemma TwosDetermined(
    two: A.InstructionTwo, other: A.InstructionTwo, s: Size, t: Size, c: R.Condition, d: R.Condition,
    p: R.Operand, q: R.Operand, x: R.Operand, y: R.Operand)
    ensures
      TwoOf(two, s, c, p, x) == TwoOf(other, t, d, q, y)
      <==> two == other && c == d && p == q && x == y && (s == t || Sizeless(two))
  {
    hide TwoOpOf, TwoKind;
    KindOfOp(two);
    KindOfOp(other);
  }

  lemma ConditionsDetermined(a: A.Condition, b: A.Condition)
    ensures ConditionOf(a) == ConditionOf(b) <==> a == b
  {
  }

  /** Nothing else is lost: two well-formed nodes decode alike exactly when they are
      equal up to what the decoder discards. */
  lemma DecodingIsFaithful(n: A.AstNode, m: A.AstNode)
    requires WellFormed(n) && WellFormed(m)
    ensures DecodedOf(n) == DecodedOf(m) <==> Normal(n) == Normal(m)
  {
    hide OneOf, TwoOf, OperandOf, ConditionOf, ValueOf, A.DestinationBits, IsJump, Sizeless, InRegister, OperandFits;
    match (n, m)
    case (OperationZero(c, _), OperationZero(d, _)) =>
      ConditionsDetermined(c, d);
    case (OperationOne(s, c, a, x), OperationOne(t, d, b, y)) =>
      ConditionsDetermined(c, d);
      OnesDetermined(a, b, s, t, ConditionOf(c), ConditionOf(d), OperandOf(x, s), OperandOf(y, t));
      OperandsDetermined(x, y, s, t);
    case (OperationTwo(s, c, a, l, x), OperationTwo(t, d, b, k, y)) =>
      ConditionsDetermined(c, d);
      TwosDetermined(
        a, b, s, t, ConditionOf(c), ConditionOf(d), OperandOf(l, s), OperandOf(k, t), OperandOf(x, s), OperandOf(y, t));
      OperandsDetermined(x, y, s, t);
      OperandsDetermined(l, k, s, t);
    case (OperationZero(_, _), OperationOne(_, _, _, _)) =>
    case (OperationZero(_, _), OperationTwo(_, _, _, _, _)) =>
    case (OperationOne(_, _, _, _), OperationZero(_, _)) =>
    case (OperationOne(_, _, _, _), OperationTwo(_, _, _, _, _)) =>
    case (OperationTwo(_, _, _, _, _), OperationZero(_, _)) =>
    case (OperationTwo(_, _, _, _, _), OperationOne(_, _, _, _)) =>
  }

  /** The bytes assembled for any operation node are as many as its decoded
      instruction takes, so labels do not change lengths. */
  lemma AssembledLength(node: A.AstNode, labels: A.LabelTable, address: u32)
    requires A.IsOperation(node) && E.Emit(node, labels, address).Some?
    requires SizesMatch(node)
    ensures |E.Emit(node, labels, address).value| == N.DecodedLength(InstructionOf(node))
  {
    hide InstructionOf, N.DecodedLength, A.Field;
    OperandsOfNode(node);
  }
}
