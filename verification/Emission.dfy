/** Emitting a tree directly with a known label table, and the theorem that the
    assembler's placeholders and backpatching give the same bytes. */
module Emission {
  import opened Words
  import opened Asm

  // ----- direct emission: no placeholders, no holes

  function EmitOperand(operand: Operand, labels: LabelTable, instruction: u32): Option<seq<u8>> {
    match operand
    case Register(register) => Some([register])
    case RegisterPointer(register) => Some([register])
    case Immediate8(byte) => Some([byte])
    case Immediate16(half) => Some(Le(Half, half))
    case Immediate32(word) => Some(Le(Word, word))
    case ImmediatePointer(pointer) => Some(Le(Word, pointer))
    case LabelOperand(name, size, isRelative) =>
      if name in labels then Some(Field(size, isRelative, labels[name].address, instruction)) else None
    case LabelOperandPointer(name, isRelative) =>
      if name in labels then Some(Field(Word, isRelative, labels[name].address, instruction)) else None
  }

  function EmitOperands(node: AstNode, labels: LabelTable, instruction: u32): Option<seq<u8>>
    requires IsOperation(node)
  {
    match node
    case OperationZero(_, _) => Some([])
    case OperationOne(_, _, _, operand) => EmitOperand(operand, labels, instruction)
    case OperationTwo(_, _, _, lhs, rhs) =>
      var source :- EmitOperand(rhs, labels, instruction);
      var destination :- EmitOperand(lhs, labels, instruction);
      Some(source + destination)
  }

  /** The bytes of one node at an address. */
  function Emit(node: AstNode, labels: LabelTable, instruction: u32): Option<seq<u8>> {
    if IsOperation(node) then
      var first :- ConditionSourceDestinationToByte(node);
      var operands :- EmitOperands(node, labels, instruction);
      Some([first, InstructionToByte(node)] + operands)
    else
      match node
      case DataByte(byte) => Some([byte])
      case DataHalf(half) => Some(Le(Half, half))
      case DataWord(word) => Some(Le(Word, word))
      case DataStr(bytes) => Some(bytes)
      case DataFill(value, count) => Some(seq(count, _ => value))
      case IncludedBinary(bytes) => Some(bytes)
      case LabelData(name, size, isRelative) =>
        if name in labels then Some(Field(size, isRelative, labels[name].address, instruction)) else None
      case OriginPadded(address) =>
        if address > instruction then Some(seq(address - instruction, _ => 0)) else None
      case Origin(address) => if address > instruction then Some([]) else None
      case Constant(_, _) | LabelDefine(_) => Some([])
  }

  datatype Image = Image(bytes: seq<u8>, address: u32)

  /** Emit a whole tree from a start address in one pass. */
  function Direct(start: u32, ast: seq<AstNode>, labels: LabelTable): Option<Image> {
    if ast == [] then Some(Image([], start))
    else
      var before :- Direct(start, ast[..|ast| - 1], labels);
      var node := ast[|ast| - 1];
      var bytes :- Emit(node, labels, before.address);
      Some(Image(
        before.bytes + bytes,
        if node.Origin? then node.address else Plus(before.address, |bytes|)))
  }

  // ----- holes of one node

  /** In a range of ordered holes, the hole covering a position is the only one. */
  lemma {:induction false} HoleAtIs(holes: seq<Hole>, lo: nat, hi: nat, q: nat, i: nat)
    requires HolesFit(holes, lo, hi) && i < |holes|
    requires holes[i].index <= q < holes[i].index + Bytes(holes[i].size)
    ensures HoleAt(holes, q) == Some(i)
  {
    if i != |holes| - 1 {
      HoleAtIs(holes[..|holes| - 1], lo, hi, q, i);
    }
  }

  lemma HoleAtNone(holes: seq<Hole>, lo: nat, hi: nat, q: nat)
    requires HolesFit(holes, lo, hi) && (q < lo || hi <= q)
    ensures HoleAt(holes, q).None?
  {
  }

  /** An operand leaves no hole, or one hole that is all of its bytes. */
  predicate OperandShape(operand: Operand, at: nat, labels: LabelTable, instruction: u32) {
    var c := OperandCode(operand, at);
    var e := EmitOperand(operand, labels, instruction);
    || (c.holes == [] && e == Some(c.bytes))
    || (|c.holes| == 1 &&
        var h := c.holes[0];
        && h.index == at
        && |c.bytes| == Bytes(h.size)
        && e == if h.name in labels then Some(Resolve(h, labels[h.name], instruction)) else None)
  }

  lemma OperandShapes(operand: Operand, at: nat, labels: LabelTable, instruction: u32)
    ensures OperandShape(operand, at, labels, instruction)
  {
  }

  /** Filling the only hole of a block `head + field`. */
  lemma PatchOne(chunk: Chunk, labels: LabelTable, head: nat, emitted: seq<u8>)
    requires head <= |chunk.code.bytes| && DefinedIn(chunk, labels)
    requires HolesFit(chunk.code.holes, head, |chunk.code.bytes|)
    requires |emitted| == |chunk.code.bytes| - head
    requires
      || (chunk.code.holes == [] && emitted == chunk.code.bytes[head..])
      || (|chunk.code.holes| == 1 && chunk.code.holes[0].index == head
          && emitted == Resolve(chunk.code.holes[0], labels[chunk.code.holes[0].name], chunk.address))
    ensures Patched(chunk, labels) == chunk.code.bytes[..head] + emitted
  {
    hide Resolve, HoleAt;
    var p := Patched(chunk, labels);
    forall q | 0 <= q < |p|
      ensures p[q] == (chunk.code.bytes[..head] + emitted)[q]
    {
      if q >= head && chunk.code.holes != [] {
        HoleAtIs(chunk.code.holes, head, |p|, q, 0);
      } else {
        HoleAtNone(chunk.code.holes, if q < head then head else |p|, |p|, q);
      }
    }
  }

  /** A position left of the cut is covered by a left hole, right by a right one. */
  lemma HoleAtSplit(holes: seq<Hole>, n: nat, k: nat, hi: nat, q: nat)
    requires n <= |holes| && k <= hi && HolesFit(holes, 0, hi)
    requires HolesFit(holes[..n], 0, k) && HolesFit(holes[n..], k, hi)
    ensures q < k ==> HoleAt(holes, q) == HoleAt(holes[..n], q)
    ensures
      var r := HoleAt(holes[n..], q);
      k <= q ==> HoleAt(holes, q) == if r.None? then None else Some(n + r.value)
  {
    var i, l, r := HoleAt(holes, q), HoleAt(holes[..n], q), HoleAt(holes[n..], q);
    hide HoleAt;
    if l.Some? {
      assert holes[..n][l.value] == holes[l.value];
      HoleAtIs(holes, 0, hi, q, l.value);
    }
    if r.Some? {
      assert holes[n..][r.value] == holes[n + r.value];
      HoleAtIs(holes, 0, hi, q, n + r.value);
    }
    if i.Some? {
      if i.value < n {
        assert holes[..n][i.value] == holes[i.value];
      } else {
        assert holes[n..][i.value - n] == holes[i.value];
      }
    }
  }

  lemma DefinedSplit(chunk: Chunk, labels: LabelTable, n: nat, a: seq<u8>, b: seq<u8>)
    requires n <= |chunk.code.holes|
    ensures
      DefinedIn(chunk, labels)
      <==>
      && DefinedIn(Chunk(Code(a, chunk.code.holes[..n]), chunk.address), labels)
      && DefinedIn(Chunk(Code(b, chunk.code.holes[n..]), chunk.address), labels)
  {
    var holes := chunk.code.holes;
    var left, right := Chunk(Code(a, holes[..n]), chunk.address), Chunk(Code(b, holes[n..]), chunk.address);
    if DefinedIn(left, labels) && DefinedIn(right, labels) {
      forall i | 0 <= i < |holes|
        ensures holes[i].name in labels
      {
        if i < n {
          assert holes[..n][i] == holes[i];
        } else {
          assert holes[n..][i - n] == holes[i];
        }
      }
    }
  }

  /** Two groups of holes on either side of a cut are filled independently. */
  lemma PatchSplit(chunk: Chunk, labels: LabelTable, k: nat, n: nat)
    requires DefinedIn(chunk, labels) && k <= |chunk.code.bytes| && n <= |chunk.code.holes|
    requires HolesFit(chunk.code.holes, 0, |chunk.code.bytes|)
    requires HolesFit(chunk.code.holes[..n], 0, k)
    requires HolesFit(chunk.code.holes[n..], k, |chunk.code.bytes|)
    ensures
      var left := Chunk(Code(chunk.code.bytes[..k], chunk.code.holes[..n]), chunk.address);
      var right := Chunk(Code(chunk.code.bytes, chunk.code.holes[n..]), chunk.address);
      && DefinedIn(left, labels) && DefinedIn(right, labels)
      && Patched(chunk, labels) == Patched(left, labels) + Patched(right, labels)[k..]
  {
    hide Resolve, HoleAt, HolesFit;
    var bytes, holes := chunk.code.bytes, chunk.code.holes;
    DefinedSplit(chunk, labels, n, bytes[..k], bytes);
    var left := Chunk(Code(bytes[..k], holes[..n]), chunk.address);
    var right := Chunk(Code(bytes, holes[n..]), chunk.address);
    var p := Patched(chunk, labels);
    forall q | 0 <= q < |p|
      ensures p[q] == (Patched(left, labels) + Patched(right, labels)[k..])[q]
    {
      HoleAtSplit(holes, n, k, |bytes|, q);
    }
  }

  // ----- one node

  /** The node emits exactly when its code exists and its labels are defined, and
      then it emits the patched code. */
  ghost predicate NodeMatches(code: Option<Code>, emitted: Option<seq<u8>>, address: u32, labels: LabelTable) {
    if code.None? then emitted.None?
    else
      var chunk := Chunk(code.value, address);
      if DefinedIn(chunk, labels) then emitted == Some(Patched(chunk, labels)) else emitted.None?
  }

  lemma NoHoles(chunk: Chunk, labels: LabelTable)
    requires chunk.code.holes == []
    ensures DefinedIn(chunk, labels) && Patched(chunk, labels) == chunk.code.bytes
  {
    assert Patched(chunk, labels) == chunk.code.bytes;
  }

  /** The code of one operand behind a head of `at` bytes. */
  lemma OperandMatches(head: seq<u8>, operand: Operand, labels: LabelTable, address: u32)
    ensures
      var c := OperandCode(operand, |head|);
      var chunk := Chunk(Code(head + c.bytes, c.holes), address);
      var e := EmitOperand(operand, labels, address);
      && (e.Some? <==> DefinedIn(chunk, labels))
      && (e.Some? ==> |e.value| == |c.bytes| && Patched(chunk, labels) == head + e.value)
  {
    hide Patched, Resolve, OperandCode, EmitOperand;
    OperandShapes(operand, |head|, labels, address);
    var c := OperandCode(operand, |head|);
    var chunk := Chunk(Code(head + c.bytes, c.holes), address);
    var e := EmitOperand(operand, labels, address);
    assert chunk.code.bytes[|head|..] == c.bytes && chunk.code.bytes[..|head|] == head;
    if e.Some? {
      PatchOne(chunk, labels, |head|, e.value);
    } else {
      assert c.holes[0].name !in labels;
    }
  }

  lemma FitAppend(a: seq<Hole>, b: seq<Hole>, lo: nat, mid: nat, hi: nat)
    requires HolesFit(a, lo, mid) && HolesFit(b, mid, hi) && lo <= mid <= hi
    ensures HolesFit(a + b, 0, hi) && HolesFit(a, 0, mid)
  {
  }

  lemma TwoOperandsMatch(head: seq<u8>, lhs: Operand, rhs: Operand, labels: LabelTable, address: u32)
    ensures
      var source := OperandCode(rhs, |head|);
      var destination := OperandCode(lhs, |head| + |source.bytes|);
      var chunk := Chunk(
        Code(head + (source.bytes + destination.bytes), source.holes + destination.holes), address);
      var s, d := EmitOperand(rhs, labels, address), EmitOperand(lhs, labels, address);
      && (s.Some? && d.Some? <==> DefinedIn(chunk, labels))
      && (s.Some? && d.Some? ==> Patched(chunk, labels) == head + (s.value + d.value))
  {
    hide Patched, OperandCode, EmitOperand, DefinedIn, HolesFit;
    var source := OperandCode(rhs, |head|);
    var head2 := head + source.bytes;
    var destination := OperandCode(lhs, |head2|);
    var holes := source.holes + destination.holes;
    var bytes := head + (source.bytes + destination.bytes);
    var chunk := Chunk(Code(bytes, holes), address);
    OperandMatches(head, rhs, labels, address);
    OperandMatches(head2, lhs, labels, address);
    var n := |source.holes|;
    var left := Chunk(Code(bytes[..|head2|], holes[..n]), address);
    var right := Chunk(Code(bytes, holes[n..]), address);
    assert left == Chunk(Code(head2, source.holes), address);
    assert right == Chunk(Code(head2 + destination.bytes, destination.holes), address);
    DefinedSplit(chunk, labels, n, bytes[..|head2|], bytes);
    if DefinedIn(chunk, labels) {
      FitAppend(source.holes, destination.holes, |head|, |head2|, |bytes|);
      PatchSplit(chunk, labels, |head2|, n);
      var s, d := EmitOperand(rhs, labels, address).value, EmitOperand(lhs, labels, address).value;
      assert (head2 + d)[|head2|..] == d;
      assert head + s + d == head + (s + d);
    }
  }

  /** Assembling a node and patching its holes is emitting it. */
  lemma NodePatchesToEmission(node: AstNode, labels: LabelTable, address: u32)
    requires !node.Constant? && !node.LabelDefine? && !node.Origin? && !node.OriginPadded?
    requires !node.DataFill? && !node.IncludedBinary?
    ensures NodeMatches(AssembleNode(node), Emit(node, labels, address), address, labels)
  {
    hide Patched, OperandCode, EmitOperand, Resolve, Field;
    if IsOperation(node) {
      var first := ConditionSourceDestinationToByte(node);
      if first.Some? {
        var head := [first.value, InstructionToByte(node)];
        match node
        case OperationZero(_, _) => NoHoles(Chunk(AssembleNode(node).value, address), labels);
        case OperationOne(_, _, _, operand) => OperandMatches(head, operand, labels, address);
        case OperationTwo(_, _, _, lhs, rhs) => TwoOperandsMatch(head, lhs, rhs, labels, address);
      }
    } else if node.LabelData? {
      DataLabelMatches(node.name, node.size, node.isRelative, labels, address);
    } else {
      NoHoles(Chunk(AssembleNode(node).value, address), labels);
    }
  }

  /** A label standing on its own is an operand without a head. */
  lemma DataLabelMatches(name: string, size: Size, isRelative: bool, labels: LabelTable, address: u32)
    ensures
      var node := LabelData(name, size, isRelative);
      NodeMatches(AssembleNode(node), Emit(node, labels, address), address, labels)
  {
    hide Patched;
    OperandMatches([], LabelOperand(name, size, isRelative), labels, address);
    var c := OperandCode(LabelOperand(name, size, isRelative), 0);
    assert [] + c.bytes == c.bytes;
    assert [] + Field(size, isRelative, 0, 0) == Field(size, isRelative, 0, 0);
    var e := EmitOperand(LabelOperand(name, size, isRelative), labels, address);
    if e.Some? {
      assert [] + e.value == e.value;
    }
  }

  // ----- whole trees

  lemma OutputAppend(chunks: seq<Chunk>, c: Chunk, labels: LabelTable)
    ensures Defined(chunks + [c], labels) <==> Defined(chunks, labels) && DefinedIn(c, labels)
    ensures Defined(chunks, labels) && DefinedIn(c, labels) ==>
      Output(chunks + [c], labels) == Output(chunks, labels) + Patched(c, labels)
  {
    hide Patched, DefinedIn;
    var all := chunks + [c];
    assert all[..|all| - 1] == chunks && all[|all| - 1] == c;
    assert forall j :: 0 <= j < |chunks| ==> all[j] == chunks[j];
  }

  /** One more node keeps both views in step. */
  lemma PassNodeMatches(p: Pass, image: Image, node: AstNode, labels: LabelTable)
    requires Defined(p.chunks, labels)
    requires image == Image(Output(p.chunks, labels), p.address)
    ensures
      var p' := PassNode(p, node);
      var bytes := Emit(node, labels, image.address);
      && (bytes.Some? <==> p'.Some? && Defined(p'.value.chunks, labels))
      && (bytes.Some? ==>
           && p'.value.address == (if node.Origin? then node.address else Plus(image.address, |bytes.value|))
           && Output(p'.value.chunks, labels) == image.bytes + bytes.value)
  {
    hide Output, Patched, Defined, AssembleNode, Emit, NodeMatches;
    match node
    case LabelDefine(_) => Silent(p, image, node, labels);
    case Constant(_, _) => Silent(p, image, node, labels);
    case Origin(_) => Silent(p, image, node, labels);
    case OriginPadded(_) | DataFill(_, _) | IncludedBinary(_) => Bulk(p, image, node, labels);
    case _ =>
      NodePatchesToEmission(node, labels, p.address);
      CodeNode(p, image, node, labels);
  }

  /** Nodes that emit nothing. */
  lemma Silent(p: Pass, image: Image, node: AstNode, labels: LabelTable)
    requires node.LabelDefine? || node.Constant? || node.Origin?
    requires Defined(p.chunks, labels)
    requires image == Image(Output(p.chunks, labels), p.address)
    ensures
      var p', bytes := PassNode(p, node), Emit(node, labels, image.address);
      && (bytes.Some? <==> p'.Some? && Defined(p'.value.chunks, labels))
      && (bytes.Some? ==>
           && p'.value.address == (if node.Origin? then node.address else Plus(image.address, |bytes.value|))
           && Output(p'.value.chunks, labels) == image.bytes + bytes.value)
  {
    hide Output, Defined;
    assert image.bytes + [] == image.bytes;
  }

  /** Nodes that emit bytes without holes or address. */
  lemma Bulk(p: Pass, image: Image, node: AstNode, labels: LabelTable)
    requires node.OriginPadded? || node.DataFill? || node.IncludedBinary?
    requires Defined(p.chunks, labels)
    requires image == Image(Output(p.chunks, labels), p.address)
    ensures
      var p', bytes := PassNode(p, node), Emit(node, labels, image.address);
      && (bytes.Some? <==> p'.Some? && Defined(p'.value.chunks, labels))
      && (bytes.Some? ==>
           && p'.value.address == Plus(image.address, |bytes.value|)
           && Output(p'.value.chunks, labels) == image.bytes + bytes.value)
  {
    hide Output, Defined, Patched;
    var bytes := Emit(node, labels, image.address);
    if bytes.Some? {
      var c := Chunk(Code(bytes.value, []), 0);
      NoHoles(c, labels);
      OutputAppend(p.chunks, c, labels);
    }
  }

  /** Nodes that are assembled. */
  lemma CodeNode(p: Pass, image: Image, node: AstNode, labels: LabelTable)
    requires !node.Constant? && !node.LabelDefine? && !node.Origin? && !node.OriginPadded?
    requires !node.DataFill? && !node.IncludedBinary?
    requires Defined(p.chunks, labels)
    requires image == Image(Output(p.chunks, labels), p.address)
    requires NodeMatches(AssembleNode(node), Emit(node, labels, p.address), p.address, labels)
    ensures
      var p', bytes := PassNode(p, node), Emit(node, labels, image.address);
      && (bytes.Some? <==> p'.Some? && Defined(p'.value.chunks, labels))
      && (bytes.Some? ==>
           && p'.value.address == Plus(image.address, |bytes.value|)
           && Output(p'.value.chunks, labels) == image.bytes + bytes.value)
  {
    hide Output, Defined, Patched, AssembleNode, Emit, DefinedIn;
    var code := AssembleNode(node);
    if code.Some? {
      OutputAppend(p.chunks, Chunk(code.value, p.address), labels);
    }
  }

  /** Backpatching refines direct emission: for every tree, start address and label
      table, direct emission succeeds exactly when the pass succeeds and every label
      used is in the table, and then the patched chunks are the emitted bytes. */
  lemma {:induction false} BackpatchingIsDirectEmission(start: u32, ast: seq<AstNode>, labels: LabelTable)
    ensures
      var p, image := FirstPass(start, ast), Direct(start, ast, labels);
      && (image.Some? <==> p.Some? && Defined(p.value.chunks, labels))
      && (image.Some? ==> image == Some(Image(Output(p.value.chunks, labels), p.value.address)))
    decreases |ast|
  {
    if ast != [] {
      hide Output, PassNode, Emit, Patched;
      var init, node := ast[..|ast| - 1], ast[|ast| - 1];
      BackpatchingIsDirectEmission(start, init, labels);
      var p := FirstPass(start, init);
      if p.Some? && PassNode(p.value, node).Some? {
        DefinedGrows(p.value, node, labels);
        if Defined(p.value.chunks, labels) {
          PassNodeMatches(p.value, Direct(start, init, labels).value, node, labels);
        }
      }
    }
  }

  /** Chunks are only ever added. */
  lemma DefinedGrows(p: Pass, node: AstNode, labels: LabelTable)
    requires PassNode(p, node).Some?
    ensures Defined(PassNode(p, node).value.chunks, labels) ==> Defined(p.chunks, labels)
  {
    hide AssembleNode, DefinedIn;
    var after := PassNode(p, node).value.chunks;
    assert forall j :: 0 <= j < |p.chunks| ==> after[j] == p.chunks[j];
  }
}
