/** The kernel's relocating loader, fxf_reloc: a loop over the relocation table that
    adds the relocation address to words of the loaded code, in place. */
module Loader {
  import opened Words
  import opened WordArrays
  import opened Asm
  import opened Relocation
  import opened Linking
  import opened Fxf

  /** The words behind the code do not change while the code is relocated. */
  lemma BehindCode(mem: seq<u8>, o: nat, size: nat, table: seq<nat>, delta: u32, at: nat)
    requires o + size <= at && at + 4 <= |mem| && EntriesFit(table, size)
    ensures EntriesFit(table, |mem| - o)
    ensures Load(Word, Relocate(mem, o, table, delta), at) == Load(Word, mem, at)
  {
    hide Relocate, Load;
    FitMore(table, size, |mem| - o);
    var after := Relocate(mem, o, table, delta);
    forall q | at <= q < at + 4
      ensures after[q] == mem[q]
    {
      RelocateOutside(mem, o, table, delta, q);
    }
    SameWord(after, mem, at);
  }

  /** Relocates the FXF file at r0; gives the relocation address.  The loop tests
      after decrementing, so the table must not be empty. */
  method FxfReloc(ram: array<u8>, r0: u32, ghost code: seq<u8>, ghost table: seq<u32>) returns (address: u32)
    requires LoadedAt(ram[..], r0, code, table)
    requires table != [] && EntriesFit(table, |code|)
    modifies ram
    ensures address == r0 + HEADER_SIZE
    ensures ram.Length >= address && EntriesFit(table, ram.Length - address)
    ensures ram[..] == Relocate(old(ram[..]), address, table, address)
  {
    hide Load, Relocate, LoadedAt, Store;
    ghost var mem := ram[..];
    FileFits(mem, r0, code, table);
    var r5 := ReadWord(ram, Add32(r0, FXF_CODE_PTR));
    r5 := Add32(r5, r0);
    var r1 := ReadWord(ram, Add32(r0, FXF_RELOC_SIZE));
    var r31: u32 := r1 / 4;
    r1 := ReadWord(ram, Add32(r0, FXF_RELOC_PTR));
    r1 := Add32(r1, r0);
    var r2 := ReadWord(ram, Add32(r0, FXF_CODE_PTR));
    r2 := Add32(r2, r0);
    ghost var k := 0;
    NoEntries(mem, r5, table, r5);
    while true
      invariant r5 == r2 == r0 + HEADER_SIZE
      invariant 0 <= k < |table| && r31 == |table| - k
      invariant r1 == r5 + |code| + 4 * k
      invariant EntriesFit(table[..k], |mem| - r5)
      invariant ram[..] == Relocate(mem, r5, table[..k], r5)
      decreases r31
    {
      EntryInside(mem, r5, code, table, k);
      BehindCode(mem, r5, |code|, table[..k], r5, r1);
      var r3 := ReadWord(ram, r1);
      assert r3 == table[k];
      var r4 := Add32(r2, r3);
      RelocateSnoc(mem, r5, table[..k], r3, r5);
      assert table[..k] + [table[k]] == table[..k + 1];
      var word := ReadWord(ram, r4);
      WriteWord(ram, r4, Add32(word, r5));
      k := k + 1;
      r1 := Add32(r1, 4);
      r31 := Sub32(r31, 1);
      if r31 == 0 {
        break;
      }
    }
    assert table[..k] == table;
    address := r5;
  }

  /** parse_fxf_binary, on an assembled program: after loading, the code at the returned
      address is the raw binary assembled for that address, exactly when no field that
      holds a distance notices the move; nothing outside the code has changed. */
  method ParseFxfBinary(ram: array<u8>, r0: u32, ghost ast: seq<AstNode>, ghost table: seq<u32>) returns (address: u32)
    requires Linkable(ast) && multiset(table) == multiset(TableOf(ast)) && table != []
    requires LoadedAt(ram[..], r0, CodeOf(ast), table)
    modifies ram
    ensures address == r0 + HEADER_SIZE && address + |CodeOf(ast)| <= ram.Length
    ensures ram[..address] == old(ram[..])[..address]
    ensures ram[address + |CodeOf(ast)|..] == old(ram[..])[address + |CodeOf(ast)|..]
    ensures
      var raw := FirstPass(0, [Origin(address)] + ast);
      && raw.Some? && Defined(raw.value.chunks, raw.value.labels)
      && (ram[address..address + |CodeOf(ast)|] == Output(raw.value.chunks, raw.value.labels)
          <==> AllUnmoved(FirstPass(0, ast).value.chunks, address))
  {
    hide Linkable, CodeOf, TableOf, LoadedAt, Relocate, FirstPass, Output, Defined, AllUnmoved, EntriesFit;
    ghost var mem := ram[..];
    RelocationCommutesWithAssembly(ast, r0, mem, table);
    LoadedCode(mem, r0, CodeOf(ast), table);
    address := FxfReloc(ram, r0, CodeOf(ast), table);
    ghost var after := ram[..];
    assert ram[..address] == after[..address];
    assert ram[address..address + |CodeOf(ast)|] == after[address..address + |CodeOf(ast)|];
    assert ram[address + |CodeOf(ast)|..] == after[address + |CodeOf(ast)|..];
  }

  lemma FileFits(mem: seq<u8>, base: u32, code: seq<u8>, table: seq<u32>)
    requires LoadedAt(mem, base, code, table)
    ensures base + HEADER_SIZE + |code| + 4 * |table| <= |mem| < 0x1_0000_0000
    ensures Load(Word, mem, base + FXF_CODE_PTR) == HEADER_SIZE
    ensures Load(Word, mem, base + FXF_RELOC_SIZE) == 4 * |table|
    ensures Load(Word, mem, base + FXF_RELOC_PTR) == HEADER_SIZE + |code|
    ensures forall k {:trigger table[k]} :: 0 <= k < |table| ==>
      Load(Word, mem, base + HEADER_SIZE + |code| + 4 * k) == table[k]
  {
    hide Load, FxfImage;
    ImageReads(mem, base, code, table);
  }

  lemma NoEntries(mem: seq<u8>, o: nat, table: seq<nat>, delta: u32)
    requires o <= |mem|
    ensures EntriesFit(table[..0], |mem| - o)
    ensures Relocate(mem, o, table[..0], delta) == mem
  {
  }

  lemma EntryInside(mem: seq<u8>, o: nat, code: seq<u8>, table: seq<u32>, k: nat)
    requires k < |table| && EntriesFit(table, |code|) && o + |code| <= |mem|
    ensures EntriesFit(table[..k], |code|) && EntriesFit(table[..k], |mem| - o)
    ensures table[k] + 4 <= |code| && table[k] + 4 <= |mem| - o
  {
  }
}
