/** The effect of relocating an image in memory: a word at each table entry grows by
    the relocation address. */
module Relocation {
  import opened Words

  function AddAt(mem: seq<u8>, at: nat, delta: u32): (r: seq<u8>)
    requires at + 4 <= |mem|
    ensures |r| == |mem|
  {
    Store(Word, mem, at, Add32(Load(Word, mem, at), delta))
  }

  /** Every entry addresses a word inside `size` bytes of code. */
  predicate EntriesFit(table: seq<nat>, size: nat) {
    forall k :: 0 <= k < |table| ==> table[k] + 4 <= size
  }

  /** Memory after relocating the code at `code` by the table, entry by entry. */
  function Relocate(mem: seq<u8>, code: nat, table: seq<nat>, delta: u32): (r: seq<u8>)
    requires code <= |mem| && EntriesFit(table, |mem| - code)
    ensures |r| == |mem|
  {
    if table == [] then mem
    else AddAt(Relocate(mem, code, table[..|table| - 1], delta), code + table[|table| - 1], delta)
  }

  /** The words the entries address do not overlap. */
  predicate Spaced(table: seq<nat>) {
    forall i, j :: 0 <= i < j < |table| ==> table[i] + 4 <= table[j] || table[j] + 4 <= table[i]
  }

  /** The position belongs to the word of some entry. */
  predicate Covers(table: seq<nat>, at: nat) {
    exists k :: 0 <= k < |table| && table[k] <= at < table[k] + 4
  }

  lemma AddAtWord(mem: seq<u8>, at: nat, delta: u32)
    requires at + 4 <= |mem|
    ensures Load(Word, AddAt(mem, at, delta), at) == Add32(Load(Word, mem, at), delta)
  {
    hide Load;
    LoadStore(Word, mem, at, Add32(Load(Word, mem, at), delta));
  }

  /** Bytes outside every entry's word are untouched. */
  lemma {:induction false} RelocateOutside(mem: seq<u8>, code: nat, table: seq<nat>, delta: u32, q: nat)
    requires code <= |mem| && EntriesFit(table, |mem| - code) && q < |mem|
    requires q < code || !Covers(table, q - code)
    ensures Relocate(mem, code, table, delta)[q] == mem[q]
    decreases |table|
  {
    if table != [] {
      var init, last := table[..|table| - 1], table[|table| - 1];
      if q >= code {
        forall k | 0 <= k < |init|
          ensures !(init[k] <= q - code < init[k] + 4)
        {
          assert init[k] == table[k];
        }
        assert table[|table| - 1] == last;
      }
      RelocateOutside(mem, code, init, delta, q);
      hide Load;
    }
  }

  lemma InitSpaced(table: seq<nat>, size: nat)
    requires table != [] && Spaced(table) && EntriesFit(table, size)
    ensures Spaced(table[..|table| - 1]) && EntriesFit(table[..|table| - 1], size)
  {
  }

  /** Every entry's word has grown once. */
  lemma {:induction false} RelocateWord(mem: seq<u8>, code: nat, table: seq<nat>, delta: u32, k: nat)
    requires code <= |mem| && EntriesFit(table, |mem| - code) && Spaced(table) && k < |table|
    ensures
      Load(Word, Relocate(mem, code, table, delta), code + table[k])
      == Add32(Load(Word, mem, code + table[k]), delta)
    decreases |table|
  {
    hide Load;
    var init, last := table[..|table| - 1], table[|table| - 1];
    InitSpaced(table, |mem| - code);
    var before := Relocate(mem, code, init, delta);
    if k == |table| - 1 {
      forall q | code + last <= q < code + last + 4
        ensures before[q] == mem[q]
      {
        assert !Covers(init, q - code) by {
          assert forall i :: 0 <= i < |init| ==> init[i] == table[i];
        }
        RelocateOutside(mem, code, init, delta, q);
      }
      SameWord(before, mem, code + last);
      AddAtWord(before, code + last, delta);
    } else {
      assert init[k] == table[k];
      RelocateWord(mem, code, init, delta, k);
      LoadStoreDisjoint(
        Word, Word, before, code + last, Add32(Load(Word, before, code + last), delta), code + table[k]);
    }
  }

  lemma SameWord(a: seq<u8>, b: seq<u8>, at: nat)
    requires at + 4 <= |a| == |b|
    requires forall q :: at <= q < at + 4 ==> a[q] == b[q]
    ensures Load(Word, a, at) == Load(Word, b, at)
  {
  }

  /** The whole effect, byte by byte, for non-overlapping entries. */
  lemma RelocateByte(mem: seq<u8>, code: nat, table: seq<nat>, delta: u32, k: nat, i: nat)
    requires code <= |mem| && EntriesFit(table, |mem| - code) && Spaced(table) && k < |table| && i < 4
    ensures
      Relocate(mem, code, table, delta)[code + table[k] + i]
      == Le(Word, Add32(Load(Word, mem, code + table[k]), delta))[i]
  {
    hide Load, Le, Relocate;
    RelocateWord(mem, code, table, delta, k);
    var after := Relocate(mem, code, table, delta);
    LeLoad(Word, after, code + table[k]);
    assert after[code + table[k]..code + table[k] + 4][i] == after[code + table[k] + i];
  }

  lemma SameByte(mem: seq<u8>, code: nat, table: seq<nat>, other: seq<nat>, delta: u32, q: nat)
    requires code <= |mem| && EntriesFit(table, |mem| - code) && EntriesFit(other, |mem| - code)
    requires Spaced(table) && Spaced(other) && q < |mem|
    requires forall k :: 0 <= k < |table| ==> table[k] in other
    requires forall l :: 0 <= l < |other| ==> other[l] in table
    ensures Relocate(mem, code, other, delta)[q] == Relocate(mem, code, table, delta)[q]
  {
    hide Relocate, Load, Le, Spaced, EntriesFit;
    if q >= code && Covers(table, q - code) {
      var k :| 0 <= k < |table| && table[k] <= q - code < table[k] + 4;
      var l :| 0 <= l < |other| && other[l] == table[k];
      RelocateByte(mem, code, table, delta, k, q - code - table[k]);
      RelocateByte(mem, code, other, delta, l, q - code - table[k]);
    } else {
      RelocateOutside(mem, code, table, delta, q);
      RelocateOutside(mem, code, other, delta, q);
    }
  }

  /** The order of the table does not matter: tables with the same entries have the
      same effect. */
  lemma OrderDoesNotMatter(mem: seq<u8>, code: nat, table: seq<nat>, other: seq<nat>, delta: u32)
    requires code <= |mem| && EntriesFit(table, |mem| - code) && Spaced(table)
    requires multiset(table) == multiset(other)
    ensures EntriesFit(other, |mem| - code) && Spaced(other)
    ensures Relocate(mem, code, other, delta) == Relocate(mem, code, table, delta)
  {
    SameEntries(table, other);
    PermutedSpaced(table, other);
    PermutedFit(table, other, |mem| - code);
    hide Relocate, Spaced;
    forall q | 0 <= q < |mem|
      ensures Relocate(mem, code, other, delta)[q] == Relocate(mem, code, table, delta)[q]
    {
      SameByte(mem, code, table, other, delta, q);
    }
  }

  lemma SameEntries(table: seq<nat>, other: seq<nat>)
    requires multiset(table) == multiset(other)
    ensures forall k :: 0 <= k < |table| ==> table[k] in other
    ensures forall l :: 0 <= l < |other| ==> other[l] in table
  {
    assert forall k :: 0 <= k < |table| ==> table[k] in multiset(other);
    assert forall l :: 0 <= l < |other| ==> other[l] in multiset(table);
  }

  /** In a spaced table every entry occurs once. */
  lemma {:induction false} SpacedOnce(table: seq<nat>, e: nat)
    requires Spaced(table)
    ensures multiset(table)[e] <= 1
    decreases |table|
  {
    if table != [] {
      var init, last := table[..|table| - 1], table[|table| - 1];
      assert table == init + [last];
      InitOnlySpaced(table);
      SpacedOnce(init, e);
      assert forall k :: 0 <= k < |init| ==> init[k] == table[k] && init[k] != last;
      assert last !in init;
    }
  }

  lemma InitOnlySpaced(table: seq<nat>)
    requires table != [] && Spaced(table)
    ensures Spaced(table[..|table| - 1])
  {
  }

  lemma PermutedFit(table: seq<nat>, other: seq<nat>, size: nat)
    requires EntriesFit(table, size) && multiset(table) == multiset(other)
    ensures EntriesFit(other, size)
  {
    SameEntries(table, other);
  }

  lemma PermutedSpaced(table: seq<nat>, other: seq<nat>)
    requires Spaced(table) && multiset(table) == multiset(other)
    ensures Spaced(other)
  {
    SameEntries(table, other);
    forall i, j | 0 <= i < j < |other|
      ensures other[i] + 4 <= other[j] || other[j] + 4 <= other[i]
    {
      if other[i] == other[j] {
        SpacedOnce(table, other[i]);
        Twice(other, i, j);
      } else {
        var k :| 0 <= k < |table| && table[k] == other[i];
        var l :| 0 <= l < |table| && table[l] == other[j];
      }
    }
  }

  lemma Twice(s: seq<nat>, i: nat, j: nat)
    requires i < j < |s| && s[i] == s[j]
    ensures multiset(s)[s[i]] >= 2
  {
    assert s == s[..j] + s[j..];
    assert s[i] in s[..j] && s[j] in s[j..];
  }

  // ----- relocating parts

  /** Entries inside the first part leave the second alone. */
  lemma RelocateLeft(a: seq<u8>, b: seq<u8>, table: seq<nat>, delta: u32)
    requires EntriesFit(table, |a|)
    ensures EntriesFit(table, |a + b|)
    ensures Relocate(a + b, 0, table, delta) == Relocate(a, 0, table, delta) + b
    decreases |table|
  {
    if table != [] {
      hide Load, Store;
      var init, last := table[..|table| - 1], table[|table| - 1];
      RelocateLeft(a, b, init, delta);
      AddAtLeft(Relocate(a, 0, init, delta), b, last, delta);
    }
  }

  lemma AddAtLeft(a: seq<u8>, b: seq<u8>, at: nat, delta: u32)
    requires at + 4 <= |a|
    ensures AddAt(a + b, at, delta) == AddAt(a, at, delta) + b
  {
  }

  lemma AddAtRight(a: seq<u8>, b: seq<u8>, at: nat, delta: u32)
    requires at + 4 <= |b|
    ensures AddAt(a + b, |a| + at, delta) == a + AddAt(b, at, delta)
  {
  }

  /** The entries moved up by n. */
  function Lifted(table: seq<nat>, n: nat): (r: seq<nat>)
    ensures |r| == |table| && forall k :: 0 <= k < |table| ==> r[k] == table[k] + n
  {
    seq(|table|, k requires 0 <= k < |table| => table[k] + n)
  }

  lemma LiftedSnoc(table: seq<nat>, last: nat, n: nat)
    ensures Lifted(table + [last], n) == Lifted(table, n) + [n + last]
  {
  }

  lemma LiftedFit(table: seq<nat>, n: nat, size: nat)
    requires EntriesFit(table, size)
    ensures EntriesFit(Lifted(table, n), n + size)
  {
  }

  lemma RelocateSnoc(mem: seq<u8>, code: nat, table: seq<nat>, last: nat, delta: u32)
    requires code <= |mem| && EntriesFit(table, |mem| - code) && last + 4 <= |mem| - code
    ensures EntriesFit(table + [last], |mem| - code)
    ensures
      Relocate(mem, code, table + [last], delta)
      == AddAt(Relocate(mem, code, table, delta), code + last, delta)
  {
    hide AddAt;
    assert (table + [last])[..|table + [last]| - 1] == table;
  }

  lemma FitParts(s: seq<nat>, t: seq<nat>, size: nat)
    ensures EntriesFit(s + t, size) <==> EntriesFit(s, size) && EntriesFit(t, size)
    ensures t != [] && EntriesFit(t, size) ==> EntriesFit(t[..|t| - 1], size) && t[|t| - 1] + 4 <= size
  {
    if EntriesFit(s + t, size) {
      assert forall k :: 0 <= k < |s| ==> s[k] == (s + t)[k];
      assert forall k :: 0 <= k < |t| ==> t[k] == (s + t)[|s| + k];
    }
  }

  /** Relocating by one table and then another is relocating by both. */
  lemma RelocateAppend(mem: seq<u8>, code: nat, s: seq<nat>, t: seq<nat>, delta: u32)
    requires code <= |mem| && EntriesFit(s, |mem| - code) && EntriesFit(t, |mem| - code)
    ensures EntriesFit(s + t, |mem| - code)
    ensures Relocate(mem, code, s + t, delta) == Relocate(Relocate(mem, code, s, delta), code, t, delta)
    decreases |t|
  {
    hide AddAt, EntriesFit;
    FitParts(s, t, |mem| - code);
    if t == [] {
      assert s + t == s;
    } else {
      var init, last := t[..|t| - 1], t[|t| - 1];
      RelocateAppend(mem, code, s, init, delta);
      assert s + t == (s + init) + [last];
      RelocateSnoc(mem, code, s + init, last, delta);
      hide Relocate;
      assert t == init + [last];
      RelocateSnoc(Relocate(mem, code, s, delta), code, init, last, delta);
    }
  }

  lemma FitMore(table: seq<nat>, size: nat, more: nat)
    requires EntriesFit(table, size) && size <= more
    ensures EntriesFit(table, more)
  {
  }

  /** Entries inside the second part leave the first alone. */
  lemma RelocateRight(a: seq<u8>, b: seq<u8>, table: seq<nat>, delta: u32)
    requires EntriesFit(table, |b|)
    ensures EntriesFit(Lifted(table, |a|), |a + b|)
    ensures Relocate(a + b, 0, Lifted(table, |a|), delta) == a + Relocate(b, 0, table, delta)
    decreases |table|
  {
    LiftedFit(table, |a|, |b|);
    if table == [] {
      assert Lifted(table, |a|) == [];
    } else {
      hide AddAt, Lifted, EntriesFit, Relocate;
      var init, last := table[..|table| - 1], table[|table| - 1];
      FitParts([], table, |b|);
      RelocateRight(a, b, init, delta);
      assert table == init + [last];
      LiftedSnoc(init, last, |a|);
      RelocateSnoc(b, 0, init, last, delta);
      RelocateSnoc(a + b, 0, Lifted(init, |a|), |a| + last, delta);
      AddAtRight(a, Relocate(b, 0, init, delta), last, delta);
    }
  }

  /** A base address can be folded into the table. */
  lemma Rebase(mem: seq<u8>, code: nat, table: seq<nat>, delta: u32)
    requires code <= |mem| && EntriesFit(table, |mem| - code)
    ensures EntriesFit(Lifted(table, code), |mem|)
    ensures Relocate(mem, code, table, delta) == Relocate(mem, 0, Lifted(table, code), delta)
    decreases |table|
  {
    LiftedFit(table, code, |mem| - code);
    if table == [] {
      assert Lifted(table, code) == [];
    } else {
      hide AddAt, Lifted, EntriesFit, Relocate;
      var init, last := table[..|table| - 1], table[|table| - 1];
      FitParts([], table, |mem| - code);
      Rebase(mem, code, init, delta);
      assert table == init + [last];
      LiftedSnoc(init, last, code);
      RelocateSnoc(mem, code, init, last, delta);
      RelocateSnoc(mem, 0, Lifted(init, code), code + last, delta);
    }
  }

  /** Relocating code inside a larger memory changes the code only. */
  lemma RelocateInside(before: seq<u8>, code: seq<u8>, after: seq<u8>, table: seq<nat>, delta: u32)
    requires EntriesFit(table, |code|)
    ensures EntriesFit(table, |before + code + after| - |before|)
    ensures
      Relocate(before + code + after, |before|, table, delta)
      == before + Relocate(code, 0, table, delta) + after
  {
    hide Relocate, EntriesFit, Lifted;
    FitMore(table, |code|, |before + code + after| - |before|);
    LiftedFit(table, |before|, |code|);
    Rebase(before + code + after, |before|, table, delta);
    RelocateLeft(before + code, after, Lifted(table, |before|), delta);
    RelocateRight(before, code, table, delta);
  }
}
