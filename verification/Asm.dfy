/** The assembler (fox32asm/src/main.rs) from its syntax tree onwards, as functions:
    what one pass over the tree records, and what resolving its labels gives. */
module Asm {
  import opened Words

  datatype InstructionZero = Nop | Halt | Brk | Ret | Reti | Ise | Icl

  datatype InstructionOne = Inc | Dec | Not | Jmp | Call | Loop | Rjmp | Rcall | Rloop | Push | Pop

  datatype InstructionTwo =
    | Add | Sub | Mul | Div | Rem
    | And | Or | Xor
    | Sla | Sra | Srl | Rol | Ror
    | Bse | Bcl | Bts
    | Cmp | Mov | Movz | Rta | In | Out

  datatype Condition = Always | Zero | NotZero | Carry | NotCarry | GreaterThan | LessThanEqualTo

  /** The syntax nodes that can stand as operands. */
  datatype Operand =
    | Immediate8(byte: u8)
    | Immediate16(half: u16)
    | Immediate32(word: u32)
    | Register(register: u8)
    | ImmediatePointer(pointer: u32)
    | RegisterPointer(register: u8)
    | LabelOperand(name: string, size: Size, isRelative: bool)
    | LabelOperandPointer(name: string, isRelative: bool)

  datatype AstNode =
    | OperationZero(condition: Condition, zero: InstructionZero)
    | OperationOne(size: Size, condition: Condition, one: InstructionOne, operand: Operand)
    | OperationTwo(size: Size, condition: Condition, two: InstructionTwo, lhs: Operand, rhs: Operand)
    | Constant(name: string, address: u32)
    | LabelDefine(name: string)
    | LabelData(name: string, size: Size, isRelative: bool) // a label operand standing on its own
    | DataByte(byte: u8)
    | DataHalf(half: u16)
    | DataWord(word: u32)
    | DataStr(bytes: seq<u8>)
    | DataFill(value: u8, count: u32)
    | IncludedBinary(bytes: seq<u8>)
    | Origin(address: u32)
    | OriginPadded(address: u32)

  predicate IsOperation(node: AstNode) {
    node.OperationZero? || node.OperationOne? || node.OperationTwo?
  }

  // ----- opcode bytes; the bit fields they combine are disjoint, so sums are unions

  function SizeToByte(size: Size): u8 {
    match size
    case Byte => 0x00
    case Half => 0x40
    case Word => 0x80
  }

  function OpcodeZero(instruction: InstructionZero): u8 {
    match instruction
    case Nop => 0x00
    case Halt => 0x10
    case Brk => 0x20
    case Ret => 0x2A
    case Reti => 0x3A
    case Ise => 0x0C
    case Icl => 0x1C
  }

  function OpcodeOne(instruction: InstructionOne): u8 {
    match instruction
    case Inc => 0x11
    case Dec => 0x31
    case Not => 0x33
    case Jmp => 0x08
    case Call => 0x18
    case Loop => 0x28
    case Rjmp => 0x09
    case Rcall => 0x19
    case Rloop => 0x29
    case Push => 0x0A
    case Pop => 0x1A
  }

  function OpcodeTwo(instruction: InstructionTwo): u8 {
    match instruction
    case Add => 0x01
    case Sub => 0x21
    case Mul => 0x02
    case Div => 0x22
    case Rem => 0x32
    case And => 0x03
    case Or => 0x13
    case Xor => 0x23
    case Sla => 0x04
    case Sra => 0x05
    case Srl => 0x15
    case Rol => 0x24
    case Ror => 0x25
    case Bse => 0x06
    case Bcl => 0x16
    case Bts => 0x26
    case Cmp => 0x07
    case Mov => 0x17
    case Movz => 0x27
    case Rta => 0x39
    case In => 0x0B
    case Out => 0x1B
  }

  function InstructionToByte(node: AstNode): (b: u8)
    requires IsOperation(node)
  {
    match node
    case OperationZero(_, instruction) => OpcodeZero(instruction) + SizeToByte(Word)
    case OperationOne(size, _, instruction, _) => OpcodeOne(instruction) + SizeToByte(size)
    case OperationTwo(size, _, instruction, _, _) => OpcodeTwo(instruction) + SizeToByte(size)
  }

  function SourceBits(operand: Operand): u8 {
    match operand
    case Register(_) => 0x00
    case RegisterPointer(_) => 0x01
    case Immediate8(_) | Immediate16(_) | Immediate32(_) | LabelOperand(_, _, _) => 0x02
    case ImmediatePointer(_) | LabelOperandPointer(_, _) => 0x03
  }

  /** None where the source panics: an immediate cannot be written to. */
  function DestinationBits(operand: Operand): Option<u8> {
    match operand
    case Register(_) => Some(0x00)
    case RegisterPointer(_) => Some(0x04)
    case ImmediatePointer(_) | LabelOperandPointer(_, _) => Some(0x0C)
    case _ => None
  }

  function ConditionBits(condition: Condition): u8 {
    match condition
    case Always => 0x00
    case Zero => 0x10
    case NotZero => 0x20
    case Carry => 0x30
    case NotCarry => 0x40
    case GreaterThan => 0x50
    case LessThanEqualTo => 0x60
  }

  function ConditionSourceDestinationToByte(node: AstNode): Option<u8>
    requires IsOperation(node)
  {
    match node
    case OperationZero(condition, _) => Some(ConditionBits(condition))
    case OperationOne(_, condition, _, operand) => Some(ConditionBits(condition) + SourceBits(operand))
    case OperationTwo(_, condition, _, lhs, rhs) =>
      var destination :- DestinationBits(lhs);
      Some(ConditionBits(condition) + SourceBits(rhs) + destination)
  }

  // ----- labels and the holes they leave

  datatype Label = Label(address: u32, isConst: bool)

  type LabelTable = map<string, Label>

  /** A field to be filled in once the label's address is known. */
  datatype Hole = Hole(name: string, index: nat, size: Size, isRelative: bool)

  /** Assembled bytes, with placeholders at the holes. */
  datatype Code = Code(bytes: seq<u8>, holes: seq<Hole>)

  const PLACEHOLDER: u8 := 0xAB

  /** The bytes of a label field: the label's address, or its distance from the
      instruction's address, cut to the field. */
  function Field(size: Size, isRelative: bool, address: u32, instruction: u32): (r: seq<u8>)
    ensures |r| == Bytes(size)
  {
    Le(size, if isRelative then Sub32(address, instruction) else address)
  }

  function Resolve(hole: Hole, target: Label, instruction: u32): (r: seq<u8>)
    ensures |r| == Bytes(hole.size)
  {
    Field(hole.size, hole.isRelative, target.address, instruction)
  }

  function Placeholders(size: Size): (r: seq<u8>)
    ensures |r| == Bytes(size)
  {
    seq(Bytes(size), _ => PLACEHOLDER)
  }

  /** What an operand appends to an instruction that already has `at` bytes. */
  function OperandCode(operand: Operand, at: nat): (c: Code)
    ensures HolesFit(c.holes, at, at + |c.bytes|)
    ensures |c.bytes| <= 4
  {
    match operand
    case Register(register) => Code([register], [])
    case RegisterPointer(register) => Code([register], [])
    case Immediate8(byte) => Code([byte], [])
    case Immediate16(half) => Code(Le(Half, half), [])
    case Immediate32(word) => Code(Le(Word, word), [])
    case ImmediatePointer(pointer) => Code(Le(Word, pointer), [])
    case LabelOperand(name, size, isRelative) => Code(Placeholders(size), [Hole(name, at, size, isRelative)])
    case LabelOperandPointer(name, isRelative) => Code(Placeholders(Word), [Hole(name, at, Word, isRelative)])
  }

  /** The holes lie in a byte range, in order and without overlap. */
  ghost predicate HolesFit(holes: seq<Hole>, lo: nat, hi: nat) {
    && (forall i :: 0 <= i < |holes| ==> lo <= holes[i].index && holes[i].index + Bytes(holes[i].size) <= hi)
    && (forall i, j :: 0 <= i < j < |holes| ==> holes[i].index + Bytes(holes[i].size) <= holes[j].index)
  }

  /** What the operands append after the two opcode bytes: the source first. */
  function OperandsCode(node: AstNode): (c: Code)
    requires IsOperation(node)
    ensures HolesFit(c.holes, 2, 2 + |c.bytes|)
  {
    match node
    case OperationZero(_, _) => Code([], [])
    case OperationOne(_, _, _, operand) => OperandCode(operand, 2)
    case OperationTwo(_, _, _, lhs, rhs) =>
      var source := OperandCode(rhs, 2);
      var destination := OperandCode(lhs, 2 + |source.bytes|);
      Code(source.bytes + destination.bytes, source.holes + destination.holes)
  }

  /** One node's bytes and holes; None where the source panics. */
  function AssembleNode(node: AstNode): (c: Option<Code>)
    ensures c.Some? ==> HolesFit(c.value.holes, 0, |c.value.bytes|)
  {
    if IsOperation(node) then
      var first :- ConditionSourceDestinationToByte(node);
      var operands := OperandsCode(node);
      Some(Code([first, InstructionToByte(node)] + operands.bytes, operands.holes))
    else
      match node
      case DataByte(byte) => Some(Code([byte], []))
      case DataHalf(half) => Some(Code(Le(Half, half), []))
      case DataWord(word) => Some(Code(Le(Word, word), []))
      case DataStr(bytes) => Some(Code(bytes, []))
      case LabelData(name, size, isRelative) => Some(Code(Placeholders(size), [Hole(name, 0, size, isRelative)]))
      case _ => None
  }

  // ----- the pass over the tree

  /** One emitted block; the address is recorded for instructions and data only. */
  datatype Chunk = Chunk(code: Code, address: u32)

  datatype Pass = Pass(chunks: seq<Chunk>, labels: LabelTable, address: u32)

  function Plus(address: u32, n: nat): u32 {
    (address + n) % 0x1_0000_0000
  }

  function PassNode(p: Pass, node: AstNode): Option<Pass> {
    match node
    case LabelDefine(name) => Some(p.(labels := p.labels[name := Label(p.address, false)]))
    case Constant(name, address) => Some(p.(labels := p.labels[name := Label(address, true)]))
    case Origin(address) =>
      if address > p.address then Some(p.(address := address)) else None
    case OriginPadded(address) =>
      if address > p.address then
        Some(p.(
          chunks := p.chunks + [Chunk(Code(seq(address - p.address, _ => 0), []), 0)],
          address := address))
      else None
    case DataFill(value, count) =>
      Some(p.(chunks := p.chunks + [Chunk(Code(seq(count, _ => value), []), 0)], address := Plus(p.address, count)))
    case IncludedBinary(bytes) =>
      Some(p.(chunks := p.chunks + [Chunk(Code(bytes, []), 0)], address := Plus(p.address, |bytes|)))
    case _ =>
      var code :- AssembleNode(node);
      Some(p.(chunks := p.chunks + [Chunk(code, p.address)], address := Plus(p.address, |code.bytes|)))
  }

  /** The pass over a whole tree from a start address. */
  function FirstPass(start: u32, ast: seq<AstNode>): Option<Pass> {
    if ast == [] then Some(Pass([], map[], start))
    else
      var p :- FirstPass(start, ast[..|ast| - 1]);
      PassNode(p, ast[|ast| - 1])
  }

  // ----- resolution

  /** The hole covering a byte position, if any. */
  function HoleAt(holes: seq<Hole>, q: nat): (r: Option<nat>)
    ensures r.Some? ==>
      r.value < |holes| && holes[r.value].index <= q < holes[r.value].index + Bytes(holes[r.value].size)
    ensures r.None? ==>
      forall i :: 0 <= i < |holes| ==> !(holes[i].index <= q < holes[i].index + Bytes(holes[i].size))
  {
    if holes == [] then None
    else
      var last := |holes| - 1;
      if holes[last].index <= q < holes[last].index + Bytes(holes[last].size) then Some(last)
      else HoleAt(holes[..last], q)
  }

  /** Every label a chunk mentions is defined. */
  ghost predicate DefinedIn(chunk: Chunk, labels: LabelTable) {
    forall i :: 0 <= i < |chunk.code.holes| ==> chunk.code.holes[i].name in labels
  }

  ghost predicate Defined(chunks: seq<Chunk>, labels: LabelTable) {
    forall j :: 0 <= j < |chunks| ==> DefinedIn(chunks[j], labels)
  }

  /** The chunk's bytes with every hole filled. */
  ghost function Patched(chunk: Chunk, labels: LabelTable): (r: seq<u8>)
    requires DefinedIn(chunk, labels)
    ensures |r| == |chunk.code.bytes|
  {
    seq(|chunk.code.bytes|, q requires 0 <= q < |chunk.code.bytes| =>
      match HoleAt(chunk.code.holes, q)
      case None => chunk.code.bytes[q]
      case Some(i) =>
        var h := chunk.code.holes[i];
        Resolve(h, labels[h.name], chunk.address)[q - h.index])
  }

  /** All chunks' bytes in order, every hole filled. */
  ghost function Output(chunks: seq<Chunk>, labels: LabelTable): (r: seq<u8>)
    requires Defined(chunks, labels)
  {
    if chunks == [] then []
    else Output(chunks[..|chunks| - 1], labels) + Patched(chunks[|chunks| - 1], labels)
  }

  /** How many bytes the chunks take. */
  function Total(chunks: seq<Chunk>): nat {
    if chunks == [] then 0 else Total(chunks[..|chunks| - 1]) + |chunks[|chunks| - 1].code.bytes|
  }

  lemma {:induction false} OutputLength(chunks: seq<Chunk>, labels: LabelTable)
    requires Defined(chunks, labels)
    ensures |Output(chunks, labels)| == Total(chunks)
  {
    if chunks != [] {
      OutputLength(chunks[..|chunks| - 1], labels);
    }
  }

  // ----- relocation table

  /** Where in the address space a hole lies. */
  function Location(chunk: Chunk, hole: Hole): u32 {
    Plus(chunk.address, hole.index)
  }

  /** The locations of a chunk's holes whose labels are among `names` and not
      constants. */
  function HoleRelocs(chunk: Chunk, holes: seq<Hole>, labels: LabelTable, names: set<string>): seq<u32> {
    if holes == [] then []
    else
      var h := holes[|holes| - 1];
      HoleRelocs(chunk, holes[..|holes| - 1], labels, names)
      + (if h.name in names && h.name in labels && !labels[h.name].isConst then [Location(chunk, h)] else [])
  }

  function Relocs(chunks: seq<Chunk>, labels: LabelTable, names: set<string>): seq<u32> {
    if chunks == [] then []
    else
      var c := chunks[|chunks| - 1];
      Relocs(chunks[..|chunks| - 1], labels, names) + HoleRelocs(c, c.code.holes, labels, names)
  }
}
