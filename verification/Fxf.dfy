/** The FXF executable format, the kernel's relocating loader, and the theorem that
    loading an FXF file is assembling at its load address. */
module Fxf {
  import opened Words
  import opened Memory
  import opened Asm
  import opened Emission
  import opened Placement
  import opened Relocation
  import opened Linking

  const FXF_CODE_PTR: u32 := 0x08
  const FXF_RELOC_SIZE: u32 := 0x1C
  const FXF_RELOC_PTR: u32 := 0x20
  const HEADER_SIZE: u32 := 0x24

  /** The header: magic and version, code size and pointer, empty extern and global
      tables, relocation table size and pointer. */
  function Header(codeSize: u32, relocSize: u32, relocPtr: u32): (r: seq<u8>)
    ensures |r| == HEADER_SIZE
  {
    [0x46, 0x58, 0x46, 0x00] + Le(Word, codeSize) + Le(Word, HEADER_SIZE)
    + Le(Word, 0) + Le(Word, 0) + Le(Word, 0) + Le(Word, 0)
    + Le(Word, relocSize) + Le(Word, relocPtr)
  }

  function TableBytes(table: seq<u32>): (r: seq<u8>)
    ensures |r| == 4 * |table|
  {
    if table == [] then [] else TableBytes(table[..|table| - 1]) + Le(Word, table[|table| - 1])
  }

  /** An FXF file. */
  function FxfImage(code: seq<u8>, table: seq<u32>): (r: seq<u8>)
    ensures |r| == HEADER_SIZE + |code| + 4 * |table|
  {
    Header(Plus(0, |code|), Plus(0, 4 * |table|), Plus(HEADER_SIZE, |code|)) + code + TableBytes(table)
  }

  /** A little-endian field at a position of a longer byte run. */
  lemma FieldReads(bytes: seq<u8>, at: nat, before: seq<u8>, value: u32, after: seq<u8>)
    requires bytes == before + Le(Word, value) + after && at == |before|
    ensures Load(Word, bytes, at) == value
  {
    hide Load;
    assert bytes[at..at + 4] == Le(Word, value);
    LoadLe(Word, bytes, at, value);
  }

  lemma HeaderReads(codeSize: u32, relocSize: u32, relocPtr: u32)
    ensures
      var h := Header(codeSize, relocSize, relocPtr);
      && Load(Word, h, FXF_CODE_PTR) == HEADER_SIZE
      && Load(Word, h, FXF_RELOC_SIZE) == relocSize
      && Load(Word, h, FXF_RELOC_PTR) == relocPtr
  {
    hide Load, Le;
    var h := Header(codeSize, relocSize, relocPtr);
    var magic: seq<u8> := [0x46, 0x58, 0x46, 0x00];
    var zeros := Le(Word, 0) + Le(Word, 0) + Le(Word, 0) + Le(Word, 0);
    var a := magic + Le(Word, codeSize);
    assert h == a + Le(Word, HEADER_SIZE) + (zeros + Le(Word, relocSize) + Le(Word, relocPtr));
    FieldReads(h, FXF_CODE_PTR, a, HEADER_SIZE, zeros + Le(Word, relocSize) + Le(Word, relocPtr));
    var c := a + Le(Word, HEADER_SIZE) + zeros;
    assert h == c + Le(Word, relocSize) + Le(Word, relocPtr);
    FieldReads(h, FXF_RELOC_SIZE, c, relocSize, Le(Word, relocPtr));
    assert h == (c + Le(Word, relocSize)) + Le(Word, relocPtr) + [];
    FieldReads(h, FXF_RELOC_PTR, c + Le(Word, relocSize), relocPtr, []);
  }

  lemma {:induction false} TableReads(table: seq<u32>, k: nat)
    requires k < |table|
    ensures Load(Word, TableBytes(table), 4 * k) == table[k]
    decreases |table|
  {
    hide Load, Le;
    var init, last := table[..|table| - 1], table[|table| - 1];
    if k == |table| - 1 {
      FieldReads(TableBytes(table), 4 * k, TableBytes(init), last, []);
    } else {
      TableReads(init, k);
      LoadWithin(TableBytes(init), Le(Word, last), [], 4 * k);
      assert TableBytes(init) + Le(Word, last) + [] == TableBytes(table);
    }
  }

  /** A word read inside the first of three parts. */
  lemma LoadWithin(a: seq<u8>, b: seq<u8>, c: seq<u8>, at: nat)
    requires at + 4 <= |a|
    ensures Load(Word, a + b + c, at) == Load(Word, a, at)
  {
  }

  lemma LoadInSecond(a: seq<u8>, b: seq<u8>, c: seq<u8>, at: nat)
    requires at + 4 <= |b|
    ensures Load(Word, a + b + c, |a| + at) == Load(Word, b, at)
  {
  }

  lemma LoadInThird(a: seq<u8>, b: seq<u8>, c: seq<u8>, at: nat)
    requires at + 4 <= |c|
    ensures Load(Word, a + b + c, |a| + |b| + at) == Load(Word, c, at)
  {
  }

  /** The file lies in memory at a base. */
  predicate LoadedAt(mem: seq<u8>, base: u32, code: seq<u8>, table: seq<u32>) {
    var image := FxfImage(code, table);
    base + |image| <= |mem| <= RAM_SIZE && mem[base..base + |image|] == image
  }

  /** The whole header: magic and version, the code's length, and the places and sizes of
      the code and of the three tables, of which the extern and the global one are empty. */
  lemma HeaderFields(codeSize: u32, relocSize: u32, relocPtr: u32)
    ensures
      var h := Header(codeSize, relocSize, relocPtr);
      && h[..4] == [0x46, 0x58, 0x46, 0x00]
      && Load(Word, h, 0x04) == codeSize && Load(Word, h, 0x08) == HEADER_SIZE
      && Load(Word, h, 0x0C) == 0 && Load(Word, h, 0x10) == 0
      && Load(Word, h, 0x14) == 0 && Load(Word, h, 0x18) == 0
      && Load(Word, h, 0x1C) == relocSize && Load(Word, h, 0x20) == relocPtr
  {
    hide Load, Le;
    var h := Header(codeSize, relocSize, relocPtr);
    var magic: seq<u8> := [0x46, 0x58, 0x46, 0x00];
    var code, zero := magic + Le(Word, codeSize) + Le(Word, HEADER_SIZE), Le(Word, 0);
    var reloc := Le(Word, relocSize) + Le(Word, relocPtr);
    HeaderReads(codeSize, relocSize, relocPtr);
    assert h == code + zero + zero + zero + zero + reloc;
    assert h == magic + Le(Word, codeSize) + h[8..];
    FieldReads(h, 0x04, magic, codeSize, h[8..]);
    FieldReads(h, 0x0C, code, 0, h[0x10..]);
    FieldReads(h, 0x10, code + zero, 0, h[0x14..]);
    FieldReads(h, 0x14, code + zero + zero, 0, h[0x18..]);
    FieldReads(h, 0x18, code + zero + zero + zero, 0, h[0x1C..]);
  }

  /** A file begins with its header. */
  lemma FileBegins(code: seq<u8>, table: seq<u32>)
    requires HEADER_SIZE + |code| + 4 * |table| < 0x1_0000_0000
    ensures
      var file := FxfImage(code, table);
      && file[..4] == [0x46, 0x58, 0x46, 0x00]
      && Load(Word, file, 0x04) == |code|
      && Load(Word, file, 0x0C) == 0 && Load(Word, file, 0x10) == 0
      && Load(Word, file, 0x14) == 0 && Load(Word, file, 0x18) == 0
  {
    hide Load, Header, TableBytes;
    var h, t := Header(|code|, 4 * |table|, HEADER_SIZE + |code|), TableBytes(table);
    assert FxfImage(code, table) == h + code + t;
    HeaderFields(|code|, 4 * |table|, HEADER_SIZE + |code|);
    LoadWithin(h, code, t, 0x04);
    LoadWithin(h, code, t, 0x0C);
    LoadWithin(h, code, t, 0x10);
    LoadWithin(h, code, t, 0x14);
    LoadWithin(h, code, t, 0x18);
    assert (h + code + t)[..4] == h[..4];
  }

  /** What the loader reads from the file. */
  lemma ImageReads(mem: seq<u8>, base: u32, code: seq<u8>, table: seq<u32>)
    requires LoadedAt(mem, base, code, table)
    ensures Load(Word, mem, base + FXF_CODE_PTR) == HEADER_SIZE
    ensures Load(Word, mem, base + FXF_RELOC_SIZE) == 4 * |table|
    ensures Load(Word, mem, base + FXF_RELOC_PTR) == HEADER_SIZE + |code|
    ensures mem[base + HEADER_SIZE..base + HEADER_SIZE + |code|] == code
    ensures forall k {:trigger table[k]} :: 0 <= k < |table| ==>
      Load(Word, mem, base + HEADER_SIZE + |code| + 4 * k) == table[k]
  {
    hide Load, Header, TableBytes;
    var h := Header(Plus(0, |code|), Plus(0, 4 * |table|), Plus(HEADER_SIZE, |code|));
    var t := TableBytes(table);
    var image := FxfImage(code, table);
    var rest := mem[base + |image|..];
    assert mem == mem[..base] + image + rest;
    HeaderReads(Plus(0, |code|), Plus(0, 4 * |table|), Plus(HEADER_SIZE, |code|));
    LoadInSecond(mem[..base], image, rest, FXF_CODE_PTR);
    LoadInSecond(mem[..base], image, rest, FXF_RELOC_SIZE);
    LoadInSecond(mem[..base], image, rest, FXF_RELOC_PTR);
    LoadWithin(h, code, t, FXF_CODE_PTR);
    LoadWithin(h, code, t, FXF_RELOC_SIZE);
    LoadWithin(h, code, t, FXF_RELOC_PTR);
    assert image[HEADER_SIZE..HEADER_SIZE + |code|] == code;
    assert mem[base + HEADER_SIZE..base + HEADER_SIZE + |code|]
        == mem[base..base + |image|][HEADER_SIZE..HEADER_SIZE + |code|];
    forall k {:trigger table[k]} | 0 <= k < |table|
      ensures Load(Word, mem, base + HEADER_SIZE + |code| + 4 * k) == table[k]
    {
      TableReads(table, k);
      LoadInThird(h, code, t, 4 * k);
      LoadInSecond(mem[..base], image, rest, HEADER_SIZE + |code| + 4 * k);
    }
  }

  // ----- the theorem

  /** Every chunk's holes lie inside it, in order. */
  lemma {:induction false} ChunksFit(start: u32, ast: seq<AstNode>)
    requires FirstPass(start, ast).Some?
    ensures
      var chunks := FirstPass(start, ast).value.chunks;
      forall j :: 0 <= j < |chunks| ==> HolesFit(chunks[j].code.holes, 0, |chunks[j].code.bytes|)
    decreases |ast|
  {
    if ast != [] {
      ChunksFit(start, ast[..|ast| - 1]);
      hide HolesFit, AssembleNode;
      var p := FirstPass(start, ast[..|ast| - 1]).value;
      NodeFits(p, ast[|ast| - 1]);
    }
  }

  lemma NodeFits(p: Pass, node: AstNode)
    requires PassNode(p, node).Some?
    requires forall j :: 0 <= j < |p.chunks| ==> HolesFit(p.chunks[j].code.holes, 0, |p.chunks[j].code.bytes|)
    ensures
      var chunks := PassNode(p, node).value.chunks;
      forall j :: 0 <= j < |chunks| ==> HolesFit(chunks[j].code.holes, 0, |chunks[j].code.bytes|)
  {
    hide AssembleNode;
  }

  /** The hypotheses on a program: its layout floats, its labels are defined, and
      every field the loader will touch is a whole word. */
  ghost predicate Linkable(ast: seq<AstNode>) {
    && Floating(ast)
    && FirstPass(0, ast).Some?
    && var p := FirstPass(0, ast).value;
    forall j :: 0 <= j < |p.chunks| ==> Relocatable(p.chunks[j], p.labels)
  }

  lemma LinkableReady(ast: seq<AstNode>, o: u32)
    requires Linkable(ast)
    ensures FirstPass(0, ast).Some? && FirstPass(o, ast).Some?
    ensures
      var p, moved := FirstPass(0, ast).value, FirstPass(o, ast).value;
      |moved.chunks| == |p.chunks| && AllReady(p.chunks, moved.chunks, p.labels, moved.labels, o)
  {
    hide Relocatable, Ready, ChunkMoved, LabelsMoved, Total, HolesFit;
    PassesMoved(ast, o);
    ChunksFit(0, ast);
    var p, moved := FirstPass(0, ast).value, FirstPass(o, ast).value;
    forall j | 0 <= j < |p.chunks|
      ensures Ready(p.chunks[j], moved.chunks[j], p.labels, moved.labels, Total(p.chunks[..j]), o)
    {
      assert ChunkMoved(p.chunks[j], moved.chunks[j], Total(p.chunks[..j]), o);
      ReadyFrom(p.chunks[j], moved.chunks[j], p.labels, moved.labels, Total(p.chunks[..j]), o);
    }
  }

  lemma LinkableDefined(ast: seq<AstNode>)
    requires Linkable(ast)
    ensures Defined(FirstPass(0, ast).value.chunks, FirstPass(0, ast).value.labels)
  {
    var p := FirstPass(0, ast).value;
    forall j | 0 <= j < |p.chunks|
      ensures DefinedIn(p.chunks[j], p.labels)
    {
      assert Relocatable(p.chunks[j], p.labels);
    }
  }

  /** The code an FXF file carries. */
  ghost function CodeOf(ast: seq<AstNode>): seq<u8>
    requires Linkable(ast)
  {
    LinkableDefined(ast);
    Output(FirstPass(0, ast).value.chunks, FirstPass(0, ast).value.labels)
  }

  /** The relocation table in source order; the assembler writes some permutation
      of it. */
  function TableOf(ast: seq<AstNode>): seq<u32>
    requires FirstPass(0, ast).Some?
  {
    var p := FirstPass(0, ast).value;
    Relocs(p.chunks, p.labels, p.labels.Keys)
  }

  /** Relocation commutes with assembly.  For a linkable program, loading its FXF
      file at any base and relocating it gives at base+0x24 exactly the raw binary
      assembled with `org base+0x24`, if and only if no field that holds a
      distance notices the move; header, table and everything else are untouched; and the
      order of the table is irrelevant. */
  lemma RelocationCommutesWithAssembly(ast: seq<AstNode>, base: u32, mem: seq<u8>, table: seq<u32>)
    requires Linkable(ast) && multiset(table) == multiset(TableOf(ast))
    requires LoadedAt(mem, base, CodeOf(ast), table)
    ensures EntriesFit(table, |CodeOf(ast)|)
    ensures
      var o := base + HEADER_SIZE;
      var raw := FirstPass(0, [Origin(o)] + ast);
      var after := Relocate(mem, o, table, o);
      && raw.Some? && Defined(raw.value.chunks, raw.value.labels)
      && |Output(raw.value.chunks, raw.value.labels)| == |CodeOf(ast)|
      && after[..o] == mem[..o]
      && after[o + |CodeOf(ast)|..] == mem[o + |CodeOf(ast)|..]
      && (after[o..o + |CodeOf(ast)|] == Output(raw.value.chunks, raw.value.labels)
          <==> AllUnmoved(FirstPass(0, ast).value.chunks, o))
  {
    hide Output, Relocate, Relocs, Linkable, AllUnmoved, Spaced, EntriesFit, PassNode, FxfImage, AllReady, Defined;
    var o := base + HEADER_SIZE;
    var code := CodeOf(ast);
    LinkableDefined(ast);
    LinkableReady(ast, o);
    var p, moved := FirstPass(0, ast).value, FirstPass(o, ast).value;
    OutputLength(p.chunks, p.labels);
    CodeRelocates(p.chunks, moved.chunks, p.labels, moved.labels, o);
    LeadingOrigin(0, o, ast);
    OrderDoesNotMatter(code, 0, TableOf(ast), table, o);
    LoadedCode(mem, base, code, table);
    InMemory(mem, o, code, table, o);
  }

  /** The program holds a whole-word distance: an rjmp, rcall, rloop or rta to a label. */
  ghost predicate HasWordDistance(ast: seq<AstNode>)
    requires FirstPass(0, ast).Some?
  {
    exists c, h :: c in FirstPass(0, ast).value.chunks && h in c.code.holes && h.isRelative && h.size.Word?
  }

  /** A program with a whole-word distance, to whatever label, is relocated wrongly at
      every base. */
  lemma WordDistanceBreaks(ast: seq<AstNode>, base: u32, mem: seq<u8>, table: seq<u32>)
    requires Linkable(ast) && multiset(table) == multiset(TableOf(ast))
    requires LoadedAt(mem, base, CodeOf(ast), table)
    requires HasWordDistance(ast)
    ensures EntriesFit(table, |CodeOf(ast)|)
    ensures
      var o := base + HEADER_SIZE;
      var raw := FirstPass(0, [Origin(o)] + ast);
      && raw.Some? && Defined(raw.value.chunks, raw.value.labels)
      && Relocate(mem, o, table, o)[o..o + |CodeOf(ast)|] != Output(raw.value.chunks, raw.value.labels)
  {
    hide Output, Relocate, Linkable, FxfImage, Defined, EntriesFit, FirstPass, TableOf, AllReady;
    LinkableReady(ast, base + HEADER_SIZE);
    RelocationCommutesWithAssembly(ast, base, mem, table);
    var chunks := FirstPass(0, ast).value.chunks;
    var c, h :| c in chunks && h in c.code.holes && h.isRelative && h.size.Word?;
    assert !DistancesUnmoved(c, base + HEADER_SIZE);
  }

  /** Relocating the loaded file is relocating its code in place. */
  lemma InMemory(mem: seq<u8>, o: nat, code: seq<u8>, table: seq<nat>, delta: u32)
    requires o + |code| <= |mem| && mem[o..o + |code|] == code && EntriesFit(table, |code|)
    ensures EntriesFit(table, |mem| - o)
    ensures
      var after := Relocate(mem, o, table, delta);
      && after[..o] == mem[..o]
      && after[o..o + |code|] == Relocate(code, 0, table, delta)
      && after[o + |code|..] == mem[o + |code|..]
  {
    hide *;
    SplitInThree(mem, o, code);
    RelocateThree(mem, o, mem[..o], code, mem[o + |code|..], table, delta);
  }

  lemma RelocateThree(
    mem: seq<u8>, o: nat, before: seq<u8>, code: seq<u8>, rest: seq<u8>, table: seq<nat>, delta: u32)
    requires mem == before + code + rest && o == |before| && EntriesFit(table, |code|)
    ensures EntriesFit(table, |mem| - o)
    ensures
      var after := Relocate(mem, o, table, delta);
      && after[..o] == before
      && after[o..o + |code|] == Relocate(code, 0, table, delta)
      && after[o + |code|..] == rest
  {
    hide *;
    RelocateInside(before, code, rest, table, delta);
    ThreeParts(before, Relocate(code, 0, table, delta), rest);
  }

  lemma LoadedCode(mem: seq<u8>, base: u32, code: seq<u8>, table: seq<u32>)
    requires LoadedAt(mem, base, code, table)
    ensures base + HEADER_SIZE + |code| <= |mem|
    ensures mem[base + HEADER_SIZE..base + HEADER_SIZE + |code|] == code
  {
    hide Load, FxfImage;
    ImageReads(mem, base, code, table);
  }

  lemma SplitInThree(mem: seq<u8>, at: nat, part: seq<u8>)
    requires at + |part| <= |mem| && mem[at..at + |part|] == part
    ensures mem == mem[..at] + part + mem[at + |part|..]
  {
  }

  lemma ThreeParts(before: seq<u8>, inner: seq<u8>, rest: seq<u8>)
    ensures
      var after := before + inner + rest;
      && after[..|before|] == before
      && after[|before|..|before| + |inner|] == inner
      && after[|before| + |inner|..] == rest
  {
  }

  /** const c: 0, a label l, data.32 l, and rjmp c. */
  function DistanceToConstant(): seq<AstNode> {
    [Constant("c", 0), LabelDefine("l"), LabelData("l", Word, false),
     OperationOne(Word, Always, Rjmp, LabelOperand("c", Word, true))]
  }

  lemma DistanceToConstantCode() returns (code: Code)
    ensures AssembleNode(OperationOne(Word, Always, Rjmp, LabelOperand("c", Word, true))) == Some(code)
    ensures code.bytes == [0x02, 0x89] + Placeholders(Word) && code.holes == [Hole("c", 2, Word, true)]
  {
    code := Code([0x02, 0x89] + Placeholders(Word), [Hole("c", 2, Word, true)]);
  }

  lemma DistanceToConstantPass() returns (p: Pass)
    ensures FirstPass(0, DistanceToConstant()) == Some(p)
    ensures p.labels == map["c" := Label(0, true), "l" := Label(0, false)]
    ensures p.chunks == [
      Chunk(Code(Placeholders(Word), [Hole("l", 0, Word, false)]), 0),
      Chunk(Code([0x02, 0x89] + Placeholders(Word), [Hole("c", 2, Word, true)]), 4)]
  {
    var ast := DistanceToConstant();
    assert ast[..4][..3][..2][..1][..0] == [];
    assert ast[..4] == ast && ast[..3][..2] == ast[..2] && ast[..2][..1] == ast[..1];
    var p1 := Pass([], map["c" := Label(0, true)], 0);
    assert FirstPass(0, ast[..1]) == Some(p1);
    var p2 := p1.(labels := p1.labels["l" := Label(0, false)]);
    assert FirstPass(0, ast[..2]) == Some(p2);
    var c3 := Chunk(Code(Placeholders(Word), [Hole("l", 0, Word, false)]), 0);
    var p3 := Pass([c3], p2.labels, 4);
    assert [] + [c3] == [c3];
    assert FirstPass(0, ast[..3]) == Some(p3);
    var code := DistanceToConstantCode();
    hide AssembleNode;
    var c4 := Chunk(code, 4);
    p := Pass([c3, c4], p2.labels, 10);
    assert [c3] + [c4] == [c3, c4];
    assert PassNode(p3, ast[3]) == Some(p);
  }

  lemma DistanceToConstantLinks()
    ensures
      var ast := DistanceToConstant();
      && Linkable(ast) && FirstPass(0, ast).Some?
      && !AllUnmoved(FirstPass(0, ast).value.chunks, HEADER_SIZE)
  {
    var p := DistanceToConstantPass();
    hide FirstPass;
    var c, d := p.chunks[0], p.chunks[1];
    assert !DistancesUnmoved(d, HEADER_SIZE) by {
      assert d.code.holes[0].isRelative;
    }
    assert Relocatable(c, p.labels) && Relocatable(d, p.labels);
  }

  lemma DistanceToConstantTable()
    ensures FirstPass(0, DistanceToConstant()).Some? && TableOf(DistanceToConstant()) == [0]
  {
    var p := DistanceToConstantPass();
    hide FirstPass;
    var c, d := p.chunks[0], p.chunks[1];
    assert p.chunks == ([] + [c]) + [d];
    assert c.code.holes[..0] == [] && d.code.holes[..0] == [];
    assert HoleRelocs(c, c.code.holes, p.labels, p.labels.Keys) == [0];
    assert HoleRelocs(d, d.code.holes, p.labels, p.labels.Keys) == [];
    hide HoleRelocs;
    RelocsAppend([] + [c], d, p.labels);
    RelocsAppend([], c, p.labels);
  }

  /** The condition is not idle: this program meets the other hypotheses, and its FXF
      file, loaded at address 0 and relocated, is not the program assembled for where it
      lies. */
  lemma DistanceToConstantBreaks()
    ensures
      var ast := DistanceToConstant();
      && Linkable(ast) && TableOf(ast) == [0]
      && var code := CodeOf(ast);
      var mem := FxfImage(code, TableOf(ast));
      && LoadedAt(mem, 0, code, TableOf(ast)) && EntriesFit(TableOf(ast), |code|)
      && EntriesFit(TableOf(ast), |mem| - HEADER_SIZE)
      && var raw := FirstPass(0, [Origin(HEADER_SIZE)] + ast);
      && raw.Some? && Defined(raw.value.chunks, raw.value.labels)
      && Relocate(mem, HEADER_SIZE, TableOf(ast), HEADER_SIZE)[HEADER_SIZE..HEADER_SIZE + |code|]
         != Output(raw.value.chunks, raw.value.labels)
  {
    hide FirstPass, Output, Relocate, Linkable, AllUnmoved, FxfImage, Defined, DistanceToConstant, EntriesFit;
    var ast := DistanceToConstant();
    DistanceToConstantLinks();
    DistanceToConstantTable();
    var code := CodeOf(ast);
    DistanceToConstantSize();
    var mem := FxfImage(code, TableOf(ast));
    assert mem[0..|mem|] == mem;
    RelocationCommutesWithAssembly(ast, 0, mem, TableOf(ast));
    FitMore(TableOf(ast), |code|, |mem| - HEADER_SIZE);
  }

  lemma DistanceToConstantSize()
    requires Linkable(DistanceToConstant())
    ensures |CodeOf(DistanceToConstant())| == 10
  {
    var ast := DistanceToConstant();
    var p := DistanceToConstantPass();
    hide FirstPass;
    LinkableDefined(ast);
    OutputLength(p.chunks, p.labels);
    assert p.chunks[..1] == [p.chunks[0]] && p.chunks[..1][..0] == [];
  }
}
