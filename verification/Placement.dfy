/** Label addresses are true offsets: what the pass records as an address is where
    the bytes come out. */
module Placement {
  import opened Words
  import opened Asm
  import opened Emission

  predicate NoOrigin(ast: seq<AstNode>) {
    forall i :: 0 <= i < |ast| ==> !ast[i].Origin?
  }

  lemma PlusPlus(address: u32, m: nat, n: nat)
    ensures Plus(Plus(address, m), n) == Plus(address, m + n)
  {
  }

  lemma TotalAppend(chunks: seq<Chunk>, c: Chunk)
    ensures Total(chunks + [c]) == Total(chunks) + |c.code.bytes|
  {
    var all := chunks + [c];
    assert all[..|all| - 1] == chunks && all[|all| - 1] == c;
  }

  /** One node moves the address by the bytes it adds. */
  lemma NodeMovesAddress(p: Pass, node: AstNode)
    requires !node.Origin? && PassNode(p, node).Some?
    ensures
      var after := PassNode(p, node).value;
      && Total(after.chunks) >= Total(p.chunks)
      && after.address == Plus(p.address, Total(after.chunks) - Total(p.chunks))
      && p.chunks <= after.chunks
  {
    hide AssembleNode, Total;
    var after := PassNode(p, node).value;
    if after.chunks != p.chunks {
      var c := after.chunks[|p.chunks|];
      assert after.chunks == p.chunks + [c];
      TotalAppend(p.chunks, c);
    }
  }

  lemma NothingPlaced(start: u32)
    ensures Plus(start, Total([])) == start
  {
  }

  /** The running address is the start plus the bytes so far. */
  lemma {:induction false} AddressIsOffset(start: u32, ast: seq<AstNode>)
    requires NoOrigin(ast) && FirstPass(start, ast).Some?
    ensures FirstPass(start, ast).value.address == Plus(start, Total(FirstPass(start, ast).value.chunks))
    decreases |ast|
  {
    hide PassNode, Plus, Total;
    if ast == [] {
      NothingPlaced(start);
    } else {
      var init := ast[..|ast| - 1];
      AddressIsOffset(start, init);
      var p := FirstPass(start, init).value;
      NodeMovesAddress(p, ast[|ast| - 1]);
      PlusPlus(start, Total(p.chunks), Total(FirstPass(start, ast).value.chunks) - Total(p.chunks));
    }
  }

  /** A leading origin just sets the start address. */
  lemma {:induction false} LeadingOrigin(start: u32, origin: u32, rest: seq<AstNode>)
    ensures
      FirstPass(start, [Origin(origin)] + rest)
      == if origin > start then FirstPass(origin, rest) else None
    decreases |rest|
  {
    var ast := [Origin(origin)] + rest;
    if rest == [] {
      assert ast[..0] == [];
      assert FirstPass(start, ast[..0]) == Some(Pass([], map[], start));
    } else {
      var init := rest[..|rest| - 1];
      assert ast[..|ast| - 1] == [Origin(origin)] + init;
      LeadingOrigin(start, origin, init);
    }
  }

  /** The pass over a prefix is where the pass over the whole has been. */
  lemma {:induction false} PrefixPass(start: u32, ast: seq<AstNode>, k: nat)
    requires k <= |ast| && FirstPass(start, ast).Some?
    ensures FirstPass(start, ast[..k]).Some?
    ensures FirstPass(start, ast[..k]).value.chunks <= FirstPass(start, ast).value.chunks
    decreases |ast|
  {
    if k == |ast| {
      assert ast[..k] == ast;
    } else {
      hide PassNode;
      var init := ast[..|ast| - 1];
      assert init[..k] == ast[..k];
      PrefixPass(start, init, k);
      ChunksGrow(FirstPass(start, init).value, ast[|ast| - 1]);
    }
  }

  lemma ChunksGrow(p: Pass, node: AstNode)
    requires PassNode(p, node).Some?
    ensures p.chunks <= PassNode(p, node).value.chunks
  {
    hide AssembleNode;
  }

  /** Earlier chunks' bytes start the output. */
  lemma {:induction false} OutputPrefix(chunks: seq<Chunk>, n: nat, labels: LabelTable)
    requires n <= |chunks| && Defined(chunks, labels)
    ensures Defined(chunks[..n], labels)
    ensures |Output(chunks[..n], labels)| == Total(chunks[..n]) <= |Output(chunks, labels)|
    ensures Output(chunks, labels)[..Total(chunks[..n])] == Output(chunks[..n], labels)
    decreases |chunks|
  {
    OutputLength(chunks[..n], labels);
    if n == |chunks| {
      assert chunks[..n] == chunks;
    } else {
      hide Patched;
      var init := chunks[..|chunks| - 1];
      assert init[..n] == chunks[..n];
      OutputPrefix(init, n, labels);
      var o := Output(init, labels);
      assert Output(chunks, labels) == o + Patched(chunks[|chunks| - 1], labels);
      assert (o + Patched(chunks[|chunks| - 1], labels))[..Total(chunks[..n])] == o[..Total(chunks[..n])];
    }
  }

  /** No node in the range redefines the name. */
  predicate NotRedefined(name: string, nodes: seq<AstNode>) {
    forall i :: 0 <= i < |nodes| ==> nodes[i] != LabelDefine(name) && !(nodes[i].Constant? && nodes[i].name == name)
  }

  lemma {:induction false} LabelStays(start: u32, ast: seq<AstNode>, k: nat, name: string)
    requires k < |ast| && FirstPass(start, ast).Some?
    requires ast[k] == LabelDefine(name) && NotRedefined(name, ast[k + 1..])
    ensures FirstPass(start, ast[..k]).Some?
    ensures name in FirstPass(start, ast).value.labels
    ensures FirstPass(start, ast).value.labels[name] == Label(FirstPass(start, ast[..k]).value.address, false)
    decreases |ast|
  {
    PrefixPass(start, ast, k);
    var init, node := ast[..|ast| - 1], ast[|ast| - 1];
    if k < |ast| - 1 {
      assert init[..k] == ast[..k];
      assert init[k + 1..] == ast[k + 1..][..|ast| - k - 2];
      LabelStays(start, init, k, name);
      assert node == ast[k + 1..][|ast| - k - 2];
    }
  }

  /** Where the bytes of the nodes from the k-th on begin in the output. */
  function OffsetOf(start: u32, ast: seq<AstNode>, k: nat): nat
    requires k <= |ast| && FirstPass(start, ast[..k]).Some?
  {
    Total(FirstPass(start, ast[..k]).value.chunks)
  }

  lemma NoOriginPrefix(ast: seq<AstNode>, k: nat)
    requires k <= |ast| && NoOrigin(ast)
    ensures NoOrigin(ast[..k])
  {
  }

  /** A label's address is the start plus the output offset where the bytes after
      it begin, and those bytes do begin there. */
  lemma LabelsAreTrueOffsets(start: u32, ast: seq<AstNode>, k: nat, name: string)
    requires NoOrigin(ast) && k < |ast| && FirstPass(start, ast).Some?
    requires ast[k] == LabelDefine(name) && NotRedefined(name, ast[k + 1..])
    requires Defined(FirstPass(start, ast).value.chunks, FirstPass(start, ast).value.labels)
    ensures FirstPass(start, ast[..k]).Some?
    ensures
      var p := FirstPass(start, ast).value;
      var before := FirstPass(start, ast[..k]).value.chunks;
      && name in p.labels
      && p.labels[name] == Label(Plus(start, OffsetOf(start, ast, k)), false)
      && Defined(before, p.labels)
      && OffsetOf(start, ast, k) <= |Output(p.chunks, p.labels)|
      && Output(p.chunks, p.labels)[..OffsetOf(start, ast, k)] == Output(before, p.labels)
  {
    hide Output, Patched, Total;
    var p := FirstPass(start, ast).value;
    PrefixPass(start, ast, k);
    NoOriginPrefix(ast, k);
    AddressIsOffset(start, ast[..k]);
    LabelStays(start, ast, k, name);
    var before := FirstPass(start, ast[..k]).value.chunks;
    assert p.chunks[..|before|] == before;
    OutputPrefix(p.chunks, |before|, p.labels);
  }

  /** The same with one leading origin: addresses count from the origin, while the
      output is that of the tree behind it. */
  lemma LabelsAreTrueOffsetsFromOrigin(origin: u32, rest: seq<AstNode>, k: nat, name: string)
    requires origin > 0 && NoOrigin(rest) && k < |rest|
    requires FirstPass(0, [Origin(origin)] + rest).Some?
    requires rest[k] == LabelDefine(name) && NotRedefined(name, rest[k + 1..])
    requires
      var p := FirstPass(0, [Origin(origin)] + rest).value;
      Defined(p.chunks, p.labels)
    ensures FirstPass(origin, rest[..k]).Some?
    ensures
      var p := FirstPass(0, [Origin(origin)] + rest).value;
      && name in p.labels
      && p.labels[name] == Label(Plus(origin, OffsetOf(origin, rest, k)), false)
      && OffsetOf(origin, rest, k) <= |Output(p.chunks, p.labels)|
      && Defined(FirstPass(origin, rest[..k]).value.chunks, p.labels)
      && Output(p.chunks, p.labels)[..OffsetOf(origin, rest, k)]
         == Output(FirstPass(origin, rest[..k]).value.chunks, p.labels)
  {
    hide Output, Patched, Total, PassNode;
    LeadingOrigin(0, origin, rest);
    LabelsAreTrueOffsets(origin, rest, k, name);
  }

  /** An assembled node's chunk: its address is the start plus its output offset,
      and its patched bytes stand at that offset. */
  lemma NodeStandsAtOffset(start: u32, ast: seq<AstNode>, k: nat)
    requires NoOrigin(ast) && k < |ast| && FirstPass(start, ast).Some?
    requires IsOperation(ast[k])
    requires Defined(FirstPass(start, ast).value.chunks, FirstPass(start, ast).value.labels)
    ensures FirstPass(start, ast[..k]).Some? && AssembleNode(ast[k]).Some?
    ensures
      var p := FirstPass(start, ast).value;
      var offset := OffsetOf(start, ast, k);
      var chunk := Chunk(AssembleNode(ast[k]).value, Plus(start, offset));
      && DefinedIn(chunk, p.labels)
      && offset + |chunk.code.bytes| <= |Output(p.chunks, p.labels)|
      && Output(p.chunks, p.labels)[offset..offset + |chunk.code.bytes|] == Patched(chunk, p.labels)
      && Emit(ast[k], p.labels, chunk.address) == Some(Patched(chunk, p.labels))
  {
    hide Output, Patched, Total, AssembleNode, Emit;
    var p := FirstPass(start, ast).value;
    var upto := ast[..k + 1];
    PrefixPass(start, ast, k + 1);
    assert upto[..|upto| - 1] == ast[..k] && upto[|upto| - 1] == ast[k];
    NoOriginPrefix(ast, k);
    AddressIsOffset(start, ast[..k]);
    var before := FirstPass(start, ast[..k]).value.chunks;
    var chunk := Chunk(AssembleNode(ast[k]).value, Plus(start, OffsetOf(start, ast, k)));
    assert FirstPass(start, upto).value.chunks == before + [chunk];
    var n := |before| + 1;
    assert p.chunks[..n] == before + [chunk];
    OutputPrefix(p.chunks, n, p.labels);
    OutputAppend(before, chunk, p.labels);
    OutputLength(before, p.labels);
    NodePatchesToEmission(ast[k], p.labels, chunk.address);
    var whole, head := Output(p.chunks, p.labels), Output(before, p.labels);
    TotalAppend(before, chunk);
    assert whole[..Total(p.chunks[..n])] == head + Patched(chunk, p.labels);
    SliceOfPrefix(whole, Total(p.chunks[..n]), head, Patched(chunk, p.labels));
  }

  lemma SliceOfPrefix(whole: seq<u8>, n: nat, head: seq<u8>, part: seq<u8>)
    requires n <= |whole| && whole[..n] == head + part
    ensures n == |head| + |part| && whole[|head|..n] == part
  {
    assert |whole[..n]| == |head + part|;
    assert whole[|head|..n] == whole[..n][|head|..];
  }
}
