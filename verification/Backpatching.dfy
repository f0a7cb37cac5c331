/** What the per-label target lists hold, and what filling some of the holes gives:
    the value side of the assembler's in-place backpatching. */
module Backpatching {
  import opened Words
  import opened Asm
  import opened Emission

  /** A hole, by the chunk it is in and its place among that chunk's holes. */
  datatype Id = Id(chunk: nat, hole: nat)

  predicate IsId(chunks: seq<Chunk>, id: Id) {
    id.chunk < |chunks| && id.hole < |chunks[id.chunk].code.holes|
  }

  function HoleOf(chunks: seq<Chunk>, id: Id): Hole
    requires IsId(chunks, id)
  {
    chunks[id.chunk].code.holes[id.hole]
  }

  /** The holes of one name, in source order. */
  function HoleIds(name: string, holes: seq<Hole>, chunk: nat): seq<Id> {
    if holes == [] then []
    else
      HoleIds(name, holes[..|holes| - 1], chunk)
      + if holes[|holes| - 1].name == name then [Id(chunk, |holes| - 1)] else []
  }

  function Ids(name: string, chunks: seq<Chunk>): seq<Id> {
    if chunks == [] then []
    else
      Ids(name, chunks[..|chunks| - 1])
      + HoleIds(name, chunks[|chunks| - 1].code.holes, |chunks| - 1)
  }

  // ----- every hole is listed once under its name, and nothing else is

  lemma {:induction false} HoleIdsListed(name: string, holes: seq<Hole>, chunk: nat)
    ensures forall id :: id in HoleIds(name, holes, chunk) <==>
      id.chunk == chunk && id.hole < |holes| && holes[id.hole].name == name
    decreases |holes|
  {
    if holes != [] {
      HoleIdsListed(name, holes[..|holes| - 1], chunk);
    }
  }

  lemma {:induction false} IdsListed(name: string, chunks: seq<Chunk>)
    ensures forall id :: id in Ids(name, chunks) <==> IsId(chunks, id) && HoleOf(chunks, id).name == name
    decreases |chunks|
  {
    if chunks != [] {
      hide HoleIds;
      IdsListed(name, chunks[..|chunks| - 1]);
      HoleIdsListed(name, chunks[|chunks| - 1].code.holes, |chunks| - 1);
    }
  }

  // ----- filling

  /** The chunk's bytes with the chosen holes filled and the others as assembled. */
  ghost function Filled(chunk: Chunk, j: nat, labels: LabelTable, filled: set<Id>): (r: seq<u8>)
    ensures |r| == |chunk.code.bytes|
  {
    seq(|chunk.code.bytes|, q requires 0 <= q < |chunk.code.bytes| =>
      match HoleAt(chunk.code.holes, q)
      case None => chunk.code.bytes[q]
      case Some(i) =>
        var h := chunk.code.holes[i];
        if Id(j, i) in filled && h.name in labels
        then Resolve(h, labels[h.name], chunk.address)[q - h.index]
        else chunk.code.bytes[q])
  }

  lemma NothingFilled(chunk: Chunk, j: nat, labels: LabelTable)
    ensures Filled(chunk, j, labels, {}) == chunk.code.bytes
  {
  }

  /** Once every hole is filled the chunk is patched. */
  lemma AllFilled(chunk: Chunk, j: nat, labels: LabelTable, filled: set<Id>)
    requires DefinedIn(chunk, labels)
    requires forall i :: 0 <= i < |chunk.code.holes| ==> Id(j, i) in filled
    ensures Filled(chunk, j, labels, filled) == Patched(chunk, labels)
  {
    hide HoleAt, Resolve;
  }

  /** Filling holes of other chunks changes nothing here. */
  lemma OtherFilled(chunk: Chunk, j: nat, labels: LabelTable, filled: set<Id>, id: Id)
    requires id.chunk != j
    ensures Filled(chunk, j, labels, filled + {id}) == Filled(chunk, j, labels, filled)
  {
    hide HoleAt, Resolve;
  }

  /** Writing the resolved bytes at a hole fills exactly that hole. */
  lemma FillOne(chunk: Chunk, j: nat, labels: LabelTable, filled: set<Id>, i: nat)
    requires i < |chunk.code.holes| && chunk.code.holes[i].name in labels
    requires HolesFit(chunk.code.holes, 0, |chunk.code.bytes|)
    ensures
      var h := chunk.code.holes[i];
      var address := labels[h.name].address;
      Store(h.size, Filled(chunk, j, labels, filled), h.index,
        if h.isRelative then Sub32(address, chunk.address) else address)
      == Filled(chunk, j, labels, filled + {Id(j, i)})
  {
    hide HoleAt, Le, Store;
    var h := chunk.code.holes[i];
    var address := labels[h.name].address;
    var value := if h.isRelative then Sub32(address, chunk.address) else address;
    var before := Filled(chunk, j, labels, filled);
    var after := Filled(chunk, j, labels, filled + {Id(j, i)});
    StoreIsSplice(h.size, before, h.index, value);
    var stored := Store(h.size, before, h.index, value);
    forall q | 0 <= q < |after|
      ensures stored[q] == after[q]
    {
      if h.index <= q < h.index + Bytes(h.size) {
        HoleAtIs(chunk.code.holes, 0, |after|, q, i);
      }
    }
  }

  // ----- relocation entries

  function LocationOf(chunks: seq<Chunk>, id: Id): u32
    requires IsId(chunks, id)
  {
    Location(chunks[id.chunk], HoleOf(chunks, id))
  }

  /** Where the listed holes lie. */
  function Locations(chunks: seq<Chunk>, ids: seq<Id>): (r: seq<u32>)
    requires forall k :: 0 <= k < |ids| ==> IsId(chunks, ids[k])
    ensures |r| == |ids|
  {
    seq(|ids|, k requires 0 <= k < |ids| => LocationOf(chunks, ids[k]))
  }

  lemma IdsAreIds(name: string, chunks: seq<Chunk>)
    ensures forall k :: 0 <= k < |Ids(name, chunks)| ==>
      IsId(chunks, Ids(name, chunks)[k]) && HoleOf(chunks, Ids(name, chunks)[k]).name == name
  {
    IdsListed(name, chunks);
    assert forall k :: 0 <= k < |Ids(name, chunks)| ==> Ids(name, chunks)[k] in Ids(name, chunks);
  }

  /** One label's entries are its holes' locations. */
  lemma {:induction false} HoleRelocsOfOne(
    chunks: seq<Chunk>, j: nat, holes: seq<Hole>, labels: LabelTable, name: string)
    requires j < |chunks| && holes <= chunks[j].code.holes && name in labels
    ensures forall k :: 0 <= k < |HoleIds(name, holes, j)| ==> IsId(chunks, HoleIds(name, holes, j)[k])
    ensures HoleRelocs(chunks[j], holes, labels, {name})
      == if labels[name].isConst then [] else Locations(chunks, HoleIds(name, holes, j))
    decreases |holes|
  {
    hide Location;
    if holes != [] {
      HoleRelocsOfOne(chunks, j, holes[..|holes| - 1], labels, name);
    }
  }

  lemma {:induction false} RelocsOfOne(chunks: seq<Chunk>, n: nat, labels: LabelTable, name: string)
    requires n <= |chunks| && name in labels
    ensures forall k :: 0 <= k < |Ids(name, chunks[..n])| ==> IsId(chunks, Ids(name, chunks[..n])[k])
    ensures Relocs(chunks[..n], labels, {name})
      == if labels[name].isConst then [] else Locations(chunks, Ids(name, chunks[..n]))
    decreases n
  {
    hide LocationOf, HoleIds, HoleRelocs, Locations, IsId, Ids, Relocs;
    if n == 0 {
      NothingOfOne(chunks, labels, name);
    } else {
      LastOfOne(chunks, n, labels, name);
      RelocsOfOne(chunks, n - 1, labels, name);
      HoleRelocsOfOne(chunks, n - 1, chunks[n - 1].code.holes, labels, name);
      LocationsAppend(chunks, Ids(name, chunks[..n - 1]), HoleIds(name, chunks[n - 1].code.holes, n - 1));
    }
  }

  lemma NothingOfOne(chunks: seq<Chunk>, labels: LabelTable, name: string)
    ensures Ids(name, chunks[..0]) == [] && Relocs(chunks[..0], labels, {name}) == [] && Locations(chunks, []) == []
  {
  }

  lemma LastOfOne(chunks: seq<Chunk>, n: nat, labels: LabelTable, name: string)
    requires 0 < n <= |chunks|
    ensures
      var c := chunks[n - 1];
      && Ids(name, chunks[..n]) == Ids(name, chunks[..n - 1]) + HoleIds(name, c.code.holes, n - 1)
      && Relocs(chunks[..n], labels, {name})
         == Relocs(chunks[..n - 1], labels, {name}) + HoleRelocs(c, c.code.holes, labels, {name})
  {
    hide HoleIds, HoleRelocs;
    assert chunks[..n][..n - 1] == chunks[..n - 1];
  }

  lemma LocationsAppend(chunks: seq<Chunk>, a: seq<Id>, b: seq<Id>)
    requires forall k :: 0 <= k < |a| ==> IsId(chunks, a[k])
    requires forall k :: 0 <= k < |b| ==> IsId(chunks, b[k])
    ensures forall k :: 0 <= k < |a + b| ==> IsId(chunks, (a + b)[k])
    ensures Locations(chunks, a + b) == Locations(chunks, a) + Locations(chunks, b)
  {
    hide LocationOf, IsId;
  }

  lemma {:induction false} HoleRelocsAdd(
    chunk: Chunk, holes: seq<Hole>, labels: LabelTable, names: set<string>, name: string)
    requires name !in names
    ensures multiset(HoleRelocs(chunk, holes, labels, names + {name}))
      == multiset(HoleRelocs(chunk, holes, labels, names)) + multiset(HoleRelocs(chunk, holes, labels, {name}))
    decreases |holes|
  {
    hide Location;
    if holes != [] {
      HoleRelocsAdd(chunk, holes[..|holes| - 1], labels, names, name);
    }
  }

  /** Entries can be gathered label by label, in any order. */
  lemma {:induction false} RelocsAdd(chunks: seq<Chunk>, labels: LabelTable, names: set<string>, name: string)
    requires name !in names
    ensures multiset(Relocs(chunks, labels, names + {name}))
      == multiset(Relocs(chunks, labels, names)) + multiset(Relocs(chunks, labels, {name}))
    decreases |chunks|
  {
    hide HoleRelocs;
    if chunks != [] {
      var c := chunks[|chunks| - 1];
      RelocsAdd(chunks[..|chunks| - 1], labels, names, name);
      HoleRelocsAdd(c, c.code.holes, labels, names, name);
    }
  }

  lemma {:induction false} HoleRelocsNone(chunk: Chunk, holes: seq<Hole>, labels: LabelTable)
    ensures HoleRelocs(chunk, holes, labels, {}) == []
    decreases |holes|
  {
    if holes != [] {
      HoleRelocsNone(chunk, holes[..|holes| - 1], labels);
    }
  }

  lemma {:induction false} RelocsNone(chunks: seq<Chunk>, labels: LabelTable)
    ensures Relocs(chunks, labels, {}) == []
    decreases |chunks|
  {
    if chunks != [] {
      hide HoleRelocs;
      RelocsNone(chunks[..|chunks| - 1], labels);
      HoleRelocsNone(chunks[|chunks| - 1], chunks[|chunks| - 1].code.holes, labels);
    }
  }

  /** Only names that occur and are defined matter. */
  lemma {:induction false} HoleRelocsSame(
    chunk: Chunk, holes: seq<Hole>, labels: LabelTable, names: set<string>, other: set<string>)
    requires forall i :: 0 <= i < |holes| && holes[i].name in labels ==>
      (holes[i].name in names <==> holes[i].name in other)
    ensures HoleRelocs(chunk, holes, labels, names) == HoleRelocs(chunk, holes, labels, other)
    decreases |holes|
  {
    hide Location;
    if holes != [] {
      assert holes[|holes| - 1].name in labels ==>
        (holes[|holes| - 1].name in names <==> holes[|holes| - 1].name in other);
      HoleRelocsSame(chunk, holes[..|holes| - 1], labels, names, other);
    }
  }

  lemma {:induction false} RelocsSame(
    chunks: seq<Chunk>, labels: LabelTable, names: set<string>, other: set<string>)
    requires forall id :: IsId(chunks, id) && HoleOf(chunks, id).name in labels ==>
      (HoleOf(chunks, id).name in names <==> HoleOf(chunks, id).name in other)
    ensures Relocs(chunks, labels, names) == Relocs(chunks, labels, other)
    decreases |chunks|
  {
    hide HoleRelocs;
    if chunks != [] {
      var init, c := chunks[..|chunks| - 1], chunks[|chunks| - 1];
      forall id | IsId(init, id) && HoleOf(init, id).name in labels
        ensures HoleOf(init, id).name in names <==> HoleOf(init, id).name in other
      {
        assert IsId(chunks, id) && HoleOf(chunks, id) == HoleOf(init, id);
      }
      RelocsSame(init, labels, names, other);
      forall i | 0 <= i < |c.code.holes| && c.code.holes[i].name in labels
        ensures c.code.holes[i].name in names <==> c.code.holes[i].name in other
      {
        assert IsId(chunks, Id(|chunks| - 1, i)) && HoleOf(chunks, Id(|chunks| - 1, i)) == c.code.holes[i];
      }
      HoleRelocsSame(c, c.code.holes, labels, names, other);
    }
  }
}
