/** Relocation commutes with assembly: relocating an assembled image at a base gives
    the bytes that assembling at that base would have given. */
module Linking {
  import opened Words
  import opened Asm
  import opened Emission
  import opened Placement
  import opened Relocation

  // ----- assembling the same tree at two start addresses

  /** A tree whose layout does not depend on where it starts. */
  predicate Floating(ast: seq<AstNode>) {
    forall i :: 0 <= i < |ast| ==> !ast[i].Origin? && !ast[i].OriginPadded?
  }

  /** The label's address moved by o, unless it is a constant. */
  function MovedLabel(l: Label, o: u32): Label {
    if l.isConst then l else Label(Add32(l.address, o), false)
  }

  /** The tables define the same names, moved by o. */
  ghost predicate LabelsMoved(labels: LabelTable, moved: LabelTable, o: u32) {
    && moved.Keys == labels.Keys
    && forall name :: name in labels ==> moved[name] == MovedLabel(labels[name], o)
  }

  /** The chunk keeps its code and stands o further on. */
  ghost predicate ChunkMoved(chunk: Chunk, moved: Chunk, offset: nat, o: u32) {
    && moved.code == chunk.code
    && (chunk.code.holes != [] ==> chunk.address == Plus(0, offset) && moved.address == Plus(o, offset))
  }

  ghost predicate ChunksMoved(chunks: seq<Chunk>, moved: seq<Chunk>, o: u32) {
    && |moved| == |chunks|
    && forall j :: 0 <= j < |chunks| ==> ChunkMoved(chunks[j], moved[j], Total(chunks[..j]), o)
  }

  ghost predicate PassMoved(p: Pass, moved: Pass, o: u32) {
    && ChunksMoved(p.chunks, moved.chunks, o)
    && LabelsMoved(p.labels, moved.labels, o)
    && p.address == Plus(0, Total(p.chunks))
    && moved.address == Plus(o, Total(p.chunks))
  }

  lemma AddIsPlus(a: u32, o: u32, n: nat)
    ensures Add32(a, o) == Plus(a, o)
    ensures a == Plus(0, n) ==> Add32(a, o) == Plus(o, n)
  {
  }

  /** Adding one chunk on both sides. */
  lemma ChunksMovedSnoc(chunks: seq<Chunk>, moved: seq<Chunk>, c: Chunk, d: Chunk, o: u32)
    requires ChunksMoved(chunks, moved, o) && ChunkMoved(c, d, Total(chunks), o)
    ensures ChunksMoved(chunks + [c], moved + [d], o)
  {
    hide ChunkMoved, Total;
    var all, other := chunks + [c], moved + [d];
    forall j | 0 <= j < |all|
      ensures ChunkMoved(all[j], other[j], Total(all[..j]), o)
    {
      if j < |chunks| {
        assert all[..j] == chunks[..j];
      } else {
        assert all[..j] == chunks;
      }
    }
  }

  lemma LabelDefinedMoved(p: Pass, moved: Pass, o: u32, name: string, l: Label)
    requires PassMoved(p, moved, o)
    ensures LabelsMoved(p.labels[name := l], moved.labels[name := MovedLabel(l, o)], o)
  {
  }

  lemma NodeMoved(p: Pass, moved: Pass, o: u32, node: AstNode)
    requires PassMoved(p, moved, o) && !node.Origin? && !node.OriginPadded?
    ensures PassNode(p, node).Some? <==> PassNode(moved, node).Some?
    ensures PassNode(p, node).Some? ==> PassMoved(PassNode(p, node).value, PassNode(moved, node).value, o)
  {
    hide AssembleNode, ChunksMoved, LabelsMoved, Total;
    if node.LabelDefine? {
      AddIsPlus(p.address, o, Total(p.chunks));
      LabelDefinedMoved(p, moved, o, node.name, Label(p.address, false));
    } else if node.Constant? {
      LabelDefinedMoved(p, moved, o, node.name, Label(node.address, true));
    } else if node.DataFill? {
      BulkMoved(p, moved, o, Code(seq(node.count, _ => node.value), []));
    } else if node.IncludedBinary? {
      BulkMoved(p, moved, o, Code(node.bytes, []));
    } else if AssembleNode(node).Some? {
      var code := AssembleNode(node).value;
      var c, d := Chunk(code, p.address), Chunk(code, moved.address);
      ChunksMovedSnoc(p.chunks, moved.chunks, c, d, o);
      TotalAppend(p.chunks, c);
      PlusPlus(0, Total(p.chunks), |code.bytes|);
      PlusPlus(o, Total(p.chunks), |code.bytes|);
    }
  }

  lemma BulkMoved(p: Pass, moved: Pass, o: u32, code: Code)
    requires PassMoved(p, moved, o) && code.holes == []
    ensures
      var c := Chunk(code, 0);
      PassMoved(
        p.(chunks := p.chunks + [c], address := Plus(p.address, |code.bytes|)),
        moved.(chunks := moved.chunks + [c], address := Plus(moved.address, |code.bytes|)), o)
  {
    hide ChunksMoved, LabelsMoved, Total;
    var c := Chunk(code, 0);
    ChunksMovedSnoc(p.chunks, moved.chunks, c, c, o);
    TotalAppend(p.chunks, c);
    PlusPlus(0, Total(p.chunks), |code.bytes|);
    PlusPlus(o, Total(p.chunks), |code.bytes|);
  }

  /** The pass from o is the pass from 0, moved by o. */
  lemma {:induction false} PassesMoved(ast: seq<AstNode>, o: u32)
    requires Floating(ast)
    ensures FirstPass(0, ast).Some? <==> FirstPass(o, ast).Some?
    ensures FirstPass(0, ast).Some? ==> PassMoved(FirstPass(0, ast).value, FirstPass(o, ast).value, o)
    decreases |ast|
  {
    if ast != [] {
      hide PassNode, PassMoved;
      PassesMoved(ast[..|ast| - 1], o);
      if FirstPass(0, ast[..|ast| - 1]).Some? {
        NodeMoved(FirstPass(0, ast[..|ast| - 1]).value, FirstPass(o, ast[..|ast| - 1]).value, o, ast[|ast| - 1]);
      }
    }
  }

  // ----- one chunk

  /** Labels are defined, and fields the loader will relocate are whole words. */
  ghost predicate Relocatable(chunk: Chunk, labels: LabelTable) {
    forall i :: 0 <= i < |chunk.code.holes| ==>
      var h := chunk.code.holes[i];
      h.name in labels && (!labels[h.name].isConst ==> h.size.Word?)
  }

  /** Every field that holds a distance is too narrow to hold any bit of o. */
  ghost predicate DistancesUnmoved(chunk: Chunk, o: u32) {
    forall i :: 0 <= i < |chunk.code.holes| && chunk.code.holes[i].isRelative ==>
      o % Modulus(chunk.code.holes[i].size) == 0
  }

  /** The positions of a chunk's relocatable fields. */
  function LocalTable(holes: seq<Hole>, labels: LabelTable): seq<nat> {
    if holes == [] then []
    else
      var h := holes[|holes| - 1];
      LocalTable(holes[..|holes| - 1], labels)
      + (if h.name in labels && !labels[h.name].isConst then [h.index] else [])
  }

  predicate IsMoving(h: Hole, labels: LabelTable) {
    h.name in labels && !labels[h.name].isConst
  }

  lemma {:induction false} LocalTableHas(holes: seq<Hole>, labels: LabelTable, i: nat)
    requires i < |holes| && IsMoving(holes[i], labels)
    ensures holes[i].index in LocalTable(holes, labels)
    decreases |holes|
  {
    if i < |holes| - 1 {
      LocalTableHas(holes[..|holes| - 1], labels, i);
    }
  }

  lemma {:induction false} LocalTableOnly(holes: seq<Hole>, labels: LabelTable, e: nat)
    requires e in LocalTable(holes, labels)
    ensures exists i :: 0 <= i < |holes| && IsMoving(holes[i], labels) && holes[i].index == e
    decreases |holes|
  {
    var init, last := holes[..|holes| - 1], holes[|holes| - 1];
    if e in LocalTable(init, labels) {
      LocalTableOnly(init, labels, e);
      var i :| 0 <= i < |init| && IsMoving(init[i], labels) && init[i].index == e;
      assert holes[i] == init[i];
    } else {
      assert IsMoving(holes[|holes| - 1], labels);
    }
  }

  lemma {:induction false} LocalTableFits(holes: seq<Hole>, labels: LabelTable, size: nat)
    requires HolesFit(holes, 0, size)
    requires forall i :: 0 <= i < |holes| && IsMoving(holes[i], labels) ==> holes[i].size.Word?
    ensures EntriesFit(LocalTable(holes, labels), size)
    ensures Spaced(LocalTable(holes, labels))
    ensures forall k :: 0 <= k < |LocalTable(holes, labels)| ==>
      LocalTable(holes, labels)[k] + 4
      <= if holes == [] then 0 else holes[|holes| - 1].index + Bytes(holes[|holes| - 1].size)
    decreases |holes|
  {
    if holes != [] {
      var init, last := holes[..|holes| - 1], holes[|holes| - 1];
      LocalTableFits(init, labels, size);
      if init != [] {
        assert init[|init| - 1] == holes[|holes| - 2];
      }
    }
  }

  lemma FieldMoves(size: Size, c: u32, a: u32, o: u32)
    ensures Field(size, true, c, Add32(a, o)) == Field(size, true, c, a) <==> o % Modulus(size) == 0
  {
    var x, y := Sub32(c, a), Sub32(c, Add32(a, o));
    hide Load;
    LoadLe(size, Le(size, x), 0, x);
    LoadLe(size, Le(size, y), 0, y);
    assert y == Sub32(x, o);
    TruncSub(size, x, o);
    if Trunc(size, x) == Trunc(size, y) {
      LeTrunc(size, x, y);
    }
  }

  lemma AbsoluteField(size: Size, c: u32, a: u32, b: u32)
    ensures Field(size, false, c, a) == Field(size, false, c, b)
  {
  }

  lemma TruncSub(size: Size, x: u32, o: u32)
    ensures Trunc(size, Sub32(x, o)) == Trunc(size, x) <==> o % Modulus(size) == 0
  {
    match size
    case Byte => TruncSubByte(x, o);
    case Half => TruncSubHalf(x, o);
    case Word =>
  }

  lemma TruncSubByte(x: u32, o: u32)
    ensures Sub32(x, o) % 0x100 == x % 0x100 <==> o % 0x100 == 0
  {
    var a: int, r: int, b: int, s: int := x / 0x100, x % 0x100, o / 0x100, o % 0x100;
    assert x - o == 0x100 * (a - b) + (r - s);
    assert Sub32(x, o) == x - o || Sub32(x, o) == x - o + 0x100 * 0x100_0000;
  }

  lemma TruncSubHalf(x: u32, o: u32)
    ensures Sub32(x, o) % 0x1_0000 == x % 0x1_0000 <==> o % 0x1_0000 == 0
  {
    var a: int, r: int, b: int, s: int := x / 0x1_0000, x % 0x1_0000, o / 0x1_0000, o % 0x1_0000;
    assert x - o == 0x1_0000 * (a - b) + (r - s);
    assert Sub32(x, o) == x - o || Sub32(x, o) == x - o + 0x1_0000 * 0x1_0000;
  }

  /** A byte of a chunk, after relocating it locally and after moving it. */
  ghost predicate ByteMoves(chunk: Chunk, moved: Chunk, labels: LabelTable, movedLabels: LabelTable, o: u32, q: nat)
    requires DefinedIn(chunk, labels) && DefinedIn(moved, movedLabels)
    requires EntriesFit(LocalTable(chunk.code.holes, labels), |chunk.code.bytes|)
    requires |moved.code.bytes| == |chunk.code.bytes| && q < |chunk.code.bytes|
  {
    Relocate(Patched(chunk, labels), 0, LocalTable(chunk.code.holes, labels), o)[q] == Patched(moved, movedLabels)[q]
  }

  /** The standing assumptions about one chunk. */
  ghost predicate Ready(
    chunk: Chunk, moved: Chunk, labels: LabelTable, movedLabels: LabelTable, offset: nat, o: u32)
  {
    && HolesFit(chunk.code.holes, 0, |chunk.code.bytes|)
    && ChunkMoved(chunk, moved, offset, o)
    && LabelsMoved(labels, movedLabels, o)
    && Relocatable(chunk, labels)
    && DefinedIn(chunk, labels) && DefinedIn(moved, movedLabels)
    && EntriesFit(LocalTable(chunk.code.holes, labels), |chunk.code.bytes|)
    && Spaced(LocalTable(chunk.code.holes, labels))
  }

  lemma ReadyFrom(chunk: Chunk, moved: Chunk, labels: LabelTable, movedLabels: LabelTable, offset: nat, o: u32)
    requires HolesFit(chunk.code.holes, 0, |chunk.code.bytes|)
    requires ChunkMoved(chunk, moved, offset, o) && LabelsMoved(labels, movedLabels, o) && Relocatable(chunk, labels)
    ensures Ready(chunk, moved, labels, movedLabels, offset, o)
  {
    LocalTableFits(chunk.code.holes, labels, |chunk.code.bytes|);
  }

  /** The bytes a hole was patched with. */
  lemma PatchedField(chunk: Chunk, labels: LabelTable, i: nat)
    requires HolesFit(chunk.code.holes, 0, |chunk.code.bytes|) && DefinedIn(chunk, labels) && i < |chunk.code.holes|
    ensures
      var h := chunk.code.holes[i];
      Patched(chunk, labels)[h.index..h.index + Bytes(h.size)] == Resolve(h, labels[h.name], chunk.address)
  {
    hide HoleAt, Resolve;
    var h := chunk.code.holes[i];
    var field := Patched(chunk, labels)[h.index..h.index + Bytes(h.size)];
    forall k | 0 <= k < |field|
      ensures field[k] == Resolve(h, labels[h.name], chunk.address)[k]
    {
      HoleAtIs(chunk.code.holes, 0, |chunk.code.bytes|, h.index + k, i);
    }
  }

  /** A byte outside every moving field is not covered by the local table. */
  lemma NotCovered(holes: seq<Hole>, labels: LabelTable, size: nat, q: nat)
    requires HolesFit(holes, 0, size)
    requires forall i :: 0 <= i < |holes| && IsMoving(holes[i], labels) ==> holes[i].size.Word?
    requires HoleAt(holes, q).Some? ==> !IsMoving(holes[HoleAt(holes, q).value], labels)
    ensures !Covers(LocalTable(holes, labels), q)
  {
    var table := LocalTable(holes, labels);
    forall k | 0 <= k < |table|
      ensures !(table[k] <= q < table[k] + 4)
    {
      LocalTableOnly(holes, labels, table[k]);
      var i :| 0 <= i < |holes| && IsMoving(holes[i], labels) && holes[i].index == table[k];
      assert HoleAt(holes, q) != Some(i);
      if HoleAt(holes, q).Some? {
        assert holes[HoleAt(holes, q).value].index <= q;
      }
    }
  }

  /** Bytes of code and constant fields: relocation leaves them alone. */
  lemma FixedByte(
    chunk: Chunk, moved: Chunk, labels: LabelTable, movedLabels: LabelTable, offset: nat, o: u32, q: nat)
    requires Ready(chunk, moved, labels, movedLabels, offset, o) && q < |chunk.code.bytes|
    requires
      var r := HoleAt(chunk.code.holes, q);
      r.Some? ==> !IsMoving(chunk.code.holes[r.value], labels)
    requires DistancesUnmoved(chunk, o)
    ensures ByteMoves(chunk, moved, labels, movedLabels, o, q)
  {
    hide Relocate, LocalTable, Field, HoleAt;
    var holes := chunk.code.holes;
    NotCovered(holes, labels, |chunk.code.bytes|, q);
    RelocateOutside(Patched(chunk, labels), 0, LocalTable(holes, labels), o, q);
    var r := HoleAt(holes, q);
    if r.Some? {
      var h := holes[r.value];
      AddIsPlus(chunk.address, o, offset);
      FieldMoves(h.size, labels[h.name].address, chunk.address, o);
      AbsoluteField(h.size, labels[h.name].address, chunk.address, moved.address);
      assert movedLabels[h.name] == labels[h.name];
      assert Resolve(h, movedLabels[h.name], moved.address) == Resolve(h, labels[h.name], chunk.address);
    }
  }

  /** A moving field after relocation and in the moved chunk: both are o further on if it
      holds an address; if it holds a distance, only the loader adds o. */
  lemma MovingField(
    chunk: Chunk, moved: Chunk, labels: LabelTable, movedLabels: LabelTable, offset: nat, o: u32, i: nat)
    requires Ready(chunk, moved, labels, movedLabels, offset, o)
    requires i < |chunk.code.holes| && IsMoving(chunk.code.holes[i], labels)
    ensures
      var h := chunk.code.holes[i];
      var field := if h.isRelative then Sub32(labels[h.name].address, chunk.address) else labels[h.name].address;
      && h.size.Word?
      && Relocate(Patched(chunk, labels), 0, LocalTable(chunk.code.holes, labels), o)[h.index..h.index + 4]
         == Le(Word, Add32(field, o))
      && Patched(moved, movedLabels)[h.index..h.index + 4]
         == Le(Word, if h.isRelative then field else Add32(field, o))
  {
    hide Relocate, LocalTable, HoleAt, Load, Le, Patched, Spaced, EntriesFit;
    var holes := chunk.code.holes;
    var h := holes[i];
    LocalTableHas(holes, labels, i);
    var table := LocalTable(holes, labels);
    var k :| 0 <= k < |table| && table[k] == h.index;
    var p := Patched(chunk, labels);
    PatchedField(chunk, labels, i);
    var address := labels[h.name].address;
    LoadLe(Word, p, h.index, if h.isRelative then Sub32(address, chunk.address) else address);
    RelocateWord(p, 0, table, o, k);
    LeLoad(Word, Relocate(p, 0, table, o), h.index);
    PatchedField(moved, movedLabels, i);
    AddIsPlus(chunk.address, o, offset);
    SameDistance(labels[h.name].address, chunk.address, o);
  }

  lemma SameDistance(a: u32, b: u32, o: u32)
    ensures Sub32(Add32(a, o), Add32(b, o)) == Sub32(a, b)
  {
  }

  /** A byte of a moving field. */
  lemma MovingByte(
    chunk: Chunk, moved: Chunk, labels: LabelTable, movedLabels: LabelTable, offset: nat, o: u32, q: nat)
    requires Ready(chunk, moved, labels, movedLabels, offset, o) && q < |chunk.code.bytes|
    requires
      var r := HoleAt(chunk.code.holes, q);
      r.Some? && IsMoving(chunk.code.holes[r.value], labels)
    requires DistancesUnmoved(chunk, o)
    ensures ByteMoves(chunk, moved, labels, movedLabels, o, q)
  {
    hide Relocate, LocalTable, HoleAt, Load, Le, Patched, Spaced, EntriesFit;
    var i := HoleAt(chunk.code.holes, q).value;
    var h := chunk.code.holes[i];
    MovingField(chunk, moved, labels, movedLabels, offset, o, i);
    var a := Relocate(Patched(chunk, labels), 0, LocalTable(chunk.code.holes, labels), o);
    var b := Patched(moved, movedLabels);
    assert a[q] == a[h.index..h.index + 4][q - h.index] && b[q] == b[h.index..h.index + 4][q - h.index];
  }

  /** One chunk: relocating its fields gives the moved chunk exactly when its distances
      do not notice the move. */
  lemma ChunkRelocates(
    chunk: Chunk, moved: Chunk, labels: LabelTable, movedLabels: LabelTable, offset: nat, o: u32)
    requires Ready(chunk, moved, labels, movedLabels, offset, o)
    ensures
      Relocate(Patched(chunk, labels), 0, LocalTable(chunk.code.holes, labels), o) == Patched(moved, movedLabels)
      <==> DistancesUnmoved(chunk, o)
  {
    hide Relocate, LocalTable, Patched, HoleAt;
    var holes := chunk.code.holes;
    var a := Relocate(Patched(chunk, labels), 0, LocalTable(holes, labels), o);
    var b := Patched(moved, movedLabels);
    if DistancesUnmoved(chunk, o) {
      forall q | 0 <= q < |a|
        ensures a[q] == b[q]
      {
        var r := HoleAt(holes, q);
        if r.Some? && IsMoving(holes[r.value], labels) {
          MovingByte(chunk, moved, labels, movedLabels, offset, o, q);
        } else {
          FixedByte(chunk, moved, labels, movedLabels, offset, o, q);
        }
      }
    } else {
      var i :| 0 <= i < |holes| && holes[i].isRelative && o % Modulus(holes[i].size) != 0;
      if IsMoving(holes[i], labels) {
        MovedDistance(chunk, moved, labels, movedLabels, offset, o, i);
      } else {
        MissedConstant(chunk, moved, labels, movedLabels, offset, o, i);
      }
    }
  }

  /** A distance to an ordinary label comes out wrong: the loader adds o to it. */
  lemma MovedDistance(
    chunk: Chunk, moved: Chunk, labels: LabelTable, movedLabels: LabelTable, offset: nat, o: u32, i: nat)
    requires Ready(chunk, moved, labels, movedLabels, offset, o) && i < |chunk.code.holes|
    requires
      var h := chunk.code.holes[i];
      IsMoving(h, labels) && h.isRelative && o != 0
    ensures
      Relocate(Patched(chunk, labels), 0, LocalTable(chunk.code.holes, labels), o) != Patched(moved, movedLabels)
  {
    hide Relocate, LocalTable, Patched, Le, Load, Spaced, EntriesFit;
    var h := chunk.code.holes[i];
    var distance := Sub32(labels[h.name].address, chunk.address);
    MovingField(chunk, moved, labels, movedLabels, offset, o, i);
    LoadLe(Word, Le(Word, distance), 0, distance);
    LoadLe(Word, Le(Word, Add32(distance, o)), 0, Add32(distance, o));
  }

  /** A distance to a constant that does notice the move comes out wrong. */
  lemma MissedConstant(
    chunk: Chunk, moved: Chunk, labels: LabelTable, movedLabels: LabelTable, offset: nat, o: u32, i: nat)
    requires Ready(chunk, moved, labels, movedLabels, offset, o) && i < |chunk.code.holes|
    requires
      var h := chunk.code.holes[i];
      labels[h.name].isConst && h.isRelative && o % Modulus(h.size) != 0
    ensures
      Relocate(Patched(chunk, labels), 0, LocalTable(chunk.code.holes, labels), o) != Patched(moved, movedLabels)
  {
    hide Relocate, LocalTable, Patched, HoleAt, Field;
    var holes := chunk.code.holes;
    var h := holes[i];
    var p := Patched(chunk, labels);
    var a := Relocate(p, 0, LocalTable(holes, labels), o);
    var b := Patched(moved, movedLabels);
    forall q | h.index <= q < h.index + Bytes(h.size)
      ensures a[q] == p[q]
    {
      HoleAtIs(holes, 0, |p|, q, i);
      NotCovered(holes, labels, |p|, q);
      RelocateOutside(p, 0, LocalTable(holes, labels), o, q);
    }
    assert a[h.index..h.index + Bytes(h.size)] == p[h.index..h.index + Bytes(h.size)];
    PatchedField(chunk, labels, i);
    PatchedField(moved, movedLabels, i);
    AddIsPlus(chunk.address, o, offset);
    FieldMoves(h.size, labels[h.name].address, chunk.address, o);
  }

  // ----- whole images

  /** Every chunk of the two passes is in order for relocation. */
  ghost predicate AllReady(chunks: seq<Chunk>, moved: seq<Chunk>, labels: LabelTable, movedLabels: LabelTable, o: u32) {
    && |moved| == |chunks|
    && forall j :: 0 <= j < |chunks| ==> Ready(chunks[j], moved[j], labels, movedLabels, Total(chunks[..j]), o)
  }

  ghost predicate AllUnmoved(chunks: seq<Chunk>, o: u32) {
    forall j :: 0 <= j < |chunks| ==> DistancesUnmoved(chunks[j], o)
  }

  lemma ReadyLast(chunks: seq<Chunk>, moved: seq<Chunk>, labels: LabelTable, movedLabels: LabelTable, o: u32)
    requires chunks != [] && AllReady(chunks, moved, labels, movedLabels, o)
    ensures |moved| == |chunks|
    ensures
      var init := chunks[..|chunks| - 1];
      && AllReady(init, moved[..|moved| - 1], labels, movedLabels, o)
      && Ready(chunks[|chunks| - 1], moved[|moved| - 1], labels, movedLabels, Total(init), o)
      && Total(chunks) == Total(init) + |chunks[|chunks| - 1].code.bytes|
  {
    hide Ready, Total;
    var init, minit := chunks[..|chunks| - 1], moved[..|moved| - 1];
    forall j | 0 <= j < |init|
      ensures Ready(init[j], minit[j], labels, movedLabels, Total(init[..j]), o)
    {
      assert init[..j] == chunks[..j] && init[j] == chunks[j] && minit[j] == moved[j];
    }
    TotalAppend(init, chunks[|chunks| - 1]);
    assert init + [chunks[|chunks| - 1]] == chunks;
  }

  lemma LocationIsOffset(chunk: Chunk, h: Hole, offset: nat)
    requires chunk.address == Plus(0, offset) && offset + h.index < 0x1_0000_0000
    ensures Location(chunk, h) == offset + h.index
  {
  }

  lemma HolesFitInit(holes: seq<Hole>, size: nat)
    requires holes != [] && HolesFit(holes, 0, size)
    ensures HolesFit(holes[..|holes| - 1], 0, size)
    ensures holes[|holes| - 1].index < size
  {
  }

  /** A chunk's entries in the relocation table are its local table, moved to where
      the chunk begins. */
  lemma {:induction false} RelocsAreLifted(chunk: Chunk, holes: seq<Hole>, labels: LabelTable, offset: nat)
    requires offset + |chunk.code.bytes| < 0x1_0000_0000
    requires holes != [] ==> chunk.address == Plus(0, offset)
    requires HolesFit(holes, 0, |chunk.code.bytes|)
    ensures HoleRelocs(chunk, holes, labels, labels.Keys) == Lifted(LocalTable(holes, labels), offset)
    decreases |holes|
  {
    if holes != [] {
      hide Lifted, HolesFit, Location, Plus;
      var init, h := holes[..|holes| - 1], holes[|holes| - 1];
      HolesFitInit(holes, |chunk.code.bytes|);
      RelocsAreLifted(chunk, init, labels, offset);
      LocationIsOffset(chunk, h, offset);
      LiftedSnoc(LocalTable(init, labels), h.index, offset);
      assert LocalTable(init, labels) + [] == LocalTable(init, labels);
    }
  }

  lemma LiftedSpaced(table: seq<nat>, local: seq<nat>, n: nat, size: nat)
    requires EntriesFit(table, n) && Spaced(table) && EntriesFit(local, size) && Spaced(local)
    ensures EntriesFit(table + Lifted(local, n), n + size)
    ensures Spaced(table + Lifted(local, n))
  {
    hide Lifted;
  }

  /** Appending one chunk's bytes and entries. */
  lemma RelocateOneMore(a: seq<u8>, b: seq<u8>, table: seq<nat>, local: seq<nat>, o: u32)
    requires EntriesFit(table, |a|) && EntriesFit(local, |b|)
    ensures EntriesFit(table + Lifted(local, |a|), |a + b|)
    ensures
      Relocate(a + b, 0, table + Lifted(local, |a|), o)
      == Relocate(a, 0, table, o) + Relocate(b, 0, local, o)
  {
    hide Relocate, EntriesFit, Lifted;
    FitMore(table, |a|, |a + b|);
    LiftedFit(local, |a|, |b|);
    RelocateAppend(a + b, 0, table, Lifted(local, |a|), o);
    RelocateLeft(a, b, table, o);
    RelocateRight(Relocate(a, 0, table, o), b, local, o);
  }

  /** The whole code: relocating the assembled bytes by the table gives the bytes
      assembled at o exactly when no distance notices the move. */
  lemma {:induction false} CodeRelocates(
    chunks: seq<Chunk>, moved: seq<Chunk>, labels: LabelTable, movedLabels: LabelTable, o: u32)
    requires |moved| == |chunks| && AllReady(chunks, moved, labels, movedLabels, o) && Total(chunks) < 0x1_0000_0000
    ensures Defined(chunks, labels) && Defined(moved, movedLabels)
    ensures
      var table := Relocs(chunks, labels, labels.Keys);
      && EntriesFit(table, |Output(chunks, labels)|)
      && Spaced(table)
      && |Output(chunks, labels)| == |Output(moved, movedLabels)| == Total(chunks)
      && (Relocate(Output(chunks, labels), 0, table, o) == Output(moved, movedLabels) <==> AllUnmoved(chunks, o))
    decreases |chunks|
  {
    hide *;
    if chunks == [] {
      NoChunksRelocate(labels, movedLabels, o);
    } else {
      var init, minit := chunks[..|chunks| - 1], moved[..|moved| - 1];
      var c, d := chunks[|chunks| - 1], moved[|moved| - 1];
      ReadyLast(chunks, moved, labels, movedLabels, o);
      CodeRelocates(init, minit, labels, movedLabels, o);
      CodeRelocatesStep(init, minit, c, d, labels, movedLabels, o);
      assert init + [c] == chunks && minit + [d] == moved;
    }
  }

  lemma NoChunksRelocate(labels: LabelTable, movedLabels: LabelTable, o: u32)
    ensures Defined([], labels) && Defined([], movedLabels)
    ensures
      var table := Relocs([], labels, labels.Keys);
      && EntriesFit(table, |Output([], labels)|)
      && Spaced(table)
      && |Output([], labels)| == |Output([], movedLabels)| == Total([])
      && Relocate(Output([], labels), 0, table, o) == Output([], movedLabels)
      && AllUnmoved([], o)
  {
  }

  lemma CodeRelocatesStep(
    init: seq<Chunk>, minit: seq<Chunk>, c: Chunk, d: Chunk, labels: LabelTable, movedLabels: LabelTable, o: u32)
    requires |init| == |minit|
    requires Ready(c, d, labels, movedLabels, Total(init), o) && Total(init) + |c.code.bytes| < 0x1_0000_0000
    requires Defined(init, labels) && Defined(minit, movedLabels)
    requires
      var table := Relocs(init, labels, labels.Keys);
      && EntriesFit(table, |Output(init, labels)|)
      && Spaced(table)
      && |Output(init, labels)| == |Output(minit, movedLabels)| == Total(init)
      && (Relocate(Output(init, labels), 0, table, o) == Output(minit, movedLabels) <==> AllUnmoved(init, o))
    ensures
      var chunks, moved := init + [c], minit + [d];
      && Defined(chunks, labels) && Defined(moved, movedLabels)
      && var table := Relocs(chunks, labels, labels.Keys);
      && EntriesFit(table, |Output(chunks, labels)|)
      && Spaced(table)
      && |Output(chunks, labels)| == |Output(moved, movedLabels)| == Total(chunks)
      && (Relocate(Output(chunks, labels), 0, table, o) == Output(moved, movedLabels) <==> AllUnmoved(chunks, o))
  {
    hide Output, Patched, Relocate, Total, Defined, DefinedIn, DistancesUnmoved, EntriesFit, Spaced, HoleRelocs;
    hide LocalTable, Lifted;
    var a, b := Output(init, labels), Patched(c, labels);
    var table, local := Relocs(init, labels, labels.Keys), LocalTable(c.code.holes, labels);
    OutputAppend(init, c, labels);
    OutputAppend(minit, d, movedLabels);
    TotalAppend(init, c);
    RelocsAppend(init, c, labels);
    RelocsAreLifted(c, c.code.holes, labels, Total(init));
    LiftedSpaced(table, local, |a|, |b|);
    RelocateOneMore(a, b, table, local, o);
    ChunkRelocates(c, d, labels, movedLabels, Total(init), o);
    AllUnmovedAppend(init, c, o);
    SplitEqual(Relocate(a, 0, table, o), Relocate(b, 0, local, o), Output(minit, movedLabels), Patched(d, movedLabels));
  }

  lemma RelocsAppend(init: seq<Chunk>, c: Chunk, labels: LabelTable)
    ensures
      Relocs(init + [c], labels, labels.Keys)
      == Relocs(init, labels, labels.Keys) + HoleRelocs(c, c.code.holes, labels, labels.Keys)
  {
    assert (init + [c])[..|init + [c]| - 1] == init;
  }

  lemma AllUnmovedAppend(init: seq<Chunk>, c: Chunk, o: u32)
    ensures AllUnmoved(init + [c], o) <==> AllUnmoved(init, o) && DistancesUnmoved(c, o)
  {
    hide DistancesUnmoved;
    var all := init + [c];
    assert forall j :: 0 <= j < |init| ==> all[j] == init[j];
    assert all[|init|] == c;
  }

  lemma SplitEqual(a: seq<u8>, b: seq<u8>, c: seq<u8>, d: seq<u8>)
    requires |a| == |c| && |b| == |d|
    ensures a + b == c + d <==> a == c && b == d
  {
    if a + b == c + d {
      assert a == (a + b)[..|a|] && c == (c + d)[..|c|];
      assert b == (a + b)[|a|..] && d == (c + d)[|c|..];
    }
  }
}
