/** Reading a whole file from a RYFS disk (fox32rom/ryfs.asm): a loop over a linked
    chain of sectors, through a sector buffer in memory. */
module Ryfs {
  import opened Words
  import opened Memory

  const SECTOR_BYTES: nat := 512
  const HEADER_BYTES: nat := 6
  const PAYLOAD_BYTES: nat := 506
  const TEMP_SECTOR_BUF: u32 := 0x01FF_F808
  const FILE_STRUCT_BYTES: nat := 8

  type Sector = s: seq<u8> | |s| == SECTOR_BYTES witness seq(SECTOR_BYTES, _ => 0)

  /** The sectors of all disks, by disk ID and sector number. */
  type Disks = (u8, u32) -> Sector

  // ----- what a file is

  function Payload(s: Sector): (r: seq<u8>)
    ensures |r| == PAYLOAD_BYTES
  {
    s[HEADER_BYTES..]
  }

  /** The number of the next sector, from bytes 2 and 3 of the header; 0 ends a file. */
  function NextSector(s: Sector): u16 {
    Load(Half, s, 2)
  }

  /** A chain of sectors from its first to one that has no next. */
  predicate IsChain(disks: Disks, disk: u8, chain: seq<u16>) {
    && chain != []
    && var next := NextSector(disks(disk, chain[0]));
    if |chain| == 1 then next == 0 else next == chain[1] && next != 0 && IsChain(disks, disk, chain[1..])
  }

  /** The file's bytes: the payloads in chain order. */
  function Contents(disks: Disks, disk: u8, chain: seq<u16>): (r: seq<u8>)
    ensures |r| == PAYLOAD_BYTES * |chain|
  {
    if chain == [] then []
    else Contents(disks, disk, chain[..|chain| - 1]) + Payload(disks(disk, chain[|chain| - 1]))
  }

  /** The first sector determines the file. */
  lemma {:induction false} ChainIsUnique(disks: Disks, disk: u8, chain: seq<u16>, other: seq<u16>)
    requires IsChain(disks, disk, chain) && IsChain(disks, disk, other) && chain[0] == other[0]
    ensures chain == other
    decreases |chain|
  {
    hide NextSector;
    if |chain| > 1 {
      ChainIsUnique(disks, disk, chain[1..], other[1..]);
      assert chain == [chain[0]] + chain[1..] && other == [other[0]] + other[1..];
    }
  }

  // ----- a file as it is laid out on a disk

  /** The payloads one after the other. */
  function Joined(payloads: seq<seq<u8>>): seq<u8> {
    if payloads == [] then [] else Joined(payloads[..|payloads| - 1]) + payloads[|payloads| - 1]
  }

  /** A file written to the sectors of a list: each holds the number of the next, or 0 at
      the end, low byte first, in its third and fourth byte, and 506 bytes of the file
      behind its first six. */
  predicate LaidOut(disks: Disks, disk: u8, chain: seq<u16>, payloads: seq<seq<u8>>) {
    && |payloads| == |chain|
    && (forall i :: 0 < i < |chain| ==> chain[i] != 0)
    && forall i :: 0 <= i < |chain| ==>
      Written(disks(disk, chain[i]), Following(chain, i), payloads[i])
  }

  /** The sector after the i-th, or 0. */
  function Following(chain: seq<u16>, i: nat): u16 {
    if i + 1 < |chain| then chain[i + 1] else 0
  }

  predicate Written(s: Sector, next: u16, payload: seq<u8>) {
    |payload| == 506 && s == [s[0], s[1], next % 0x100, next / 0x100, s[4], s[5]] + payload
  }

  lemma SectorReads(s: Sector, next: u16, payload: seq<u8>)
    requires Written(s, next, payload)
    ensures NextSector(s) == next && Payload(s) == payload
  {
    hide Join;
    JoinSplit(next);
    assert s[2] == next % 0x100 && s[3] == next / 0x100;
    assert next / 0x100 % 0x100 == next / 0x100;
  }

  /** What was laid out on the disk is the file that is read. */
  lemma {:induction false} WrittenFileReads(disks: Disks, disk: u8, chain: seq<u16>, payloads: seq<seq<u8>>)
    requires chain != [] && LaidOut(disks, disk, chain, payloads)
    ensures IsChain(disks, disk, chain) && Contents(disks, disk, chain) == Joined(payloads)
  {
    WrittenChain(disks, disk, chain, payloads);
    WrittenContents(disks, disk, chain, payloads, |chain|);
    assert chain[..|chain|] == chain && payloads[..|payloads|] == payloads;
  }

  lemma {:induction false} WrittenChain(disks: Disks, disk: u8, chain: seq<u16>, payloads: seq<seq<u8>>)
    requires chain != [] && LaidOut(disks, disk, chain, payloads)
    ensures IsChain(disks, disk, chain)
    decreases |chain|
  {
    hide NextSector, Payload, Written;
    SectorReads(disks(disk, chain[0]), Following(chain, 0), payloads[0]);
    if |chain| > 1 {
      var rest, behind := chain[1..], payloads[1..];
      forall i | 0 <= i < |rest|
        ensures Written(disks(disk, rest[i]), Following(rest, i), behind[i])
      {
        var k := i + 1;
        assert rest[i] == chain[k] && behind[i] == payloads[k];
        assert Following(rest, i) == Following(chain, k);
      }
      WrittenChain(disks, disk, rest, behind);
    }
  }

  lemma {:induction false} WrittenContents(
    disks: Disks, disk: u8, chain: seq<u16>, payloads: seq<seq<u8>>, k: nat)
    requires LaidOut(disks, disk, chain, payloads) && k <= |chain|
    ensures Contents(disks, disk, chain[..k]) == Joined(payloads[..k])
    decreases k
  {
    hide NextSector, Payload, Written;
    if k > 0 {
      WrittenContents(disks, disk, chain, payloads, k - 1);
      assert chain[..k][..k - 1] == chain[..k - 1] && payloads[..k][..k - 1] == payloads[..k - 1];
      SectorReads(disks(disk, chain[k - 1]), Following(chain, k - 1), payloads[k - 1]);
    }
  }

  // ----- chains

  /** What follows a sector of a chain, and that the rest is a chain. */
  lemma {:induction false} ChainAt(disks: Disks, disk: u8, chain: seq<u16>, i: nat)
    requires IsChain(disks, disk, chain) && i < |chain|
    ensures IsChain(disks, disk, chain[i..])
    ensures
      var next := NextSector(disks(disk, chain[i]));
      if i + 1 == |chain| then next == 0 else next == chain[i + 1] && next != 0
    decreases i
  {
    hide NextSector;
    if i == 0 {
      assert chain[0..] == chain;
    } else {
      ChainAt(disks, disk, chain[1..], i - 1);
      assert chain[1..][i - 1..] == chain[i..];
    }
  }

  /** A chain that ends visits no sector twice. */
  lemma ChainIsAcyclic(disks: Disks, disk: u8, chain: seq<u16>, i: nat, j: nat)
    requires IsChain(disks, disk, chain) && i < j < |chain|
    ensures chain[i] != chain[j]
  {
    hide IsChain, NextSector;
    if chain[i] == chain[j] {
      ChainAt(disks, disk, chain, i);
      ChainAt(disks, disk, chain, j);
      ChainIsUnique(disks, disk, chain[i..], chain[j..]);
      assert false;
    }
  }

  // ----- reading it

  /** Nothing outside an address range has changed. */
  predicate SameOutside(mem: seq<u8>, other: seq<u8>, from: nat, to: nat) {
    |mem| == |other| && forall q :: 0 <= q < |mem| && !(from <= q < to) ==> mem[q] == other[q]
  }

  /** Nothing outside the destination and the sector buffer has changed. */
  predicate SameOutsideBoth(mem: seq<u8>, other: seq<u8>, destination: nat, n: nat) {
    && |mem| == |other|
    && forall q :: 0 <= q < |mem| ==>
      || destination <= q < destination + n
      || TEMP_SECTOR_BUF <= q < TEMP_SECTOR_BUF + SECTOR_BYTES
      || mem[q] == other[q]
  }

  /** read_sector: the disk controller fills the buffer.  Only the low byte of the disk
      ID reaches the controller. */
  method ReadSector(ram: array<u8>, disks: Disks, r0: u32, r1: u32, r2: u32)
    requires r2 + SECTOR_BYTES <= ram.Length
    modifies ram
    ensures ram[r2..r2 + SECTOR_BYTES] == disks(r1 % 0x100, r0)
    ensures SameOutside(old(ram[..]), ram[..], r2, r2 + SECTOR_BYTES)
  {
    var sector := disks(r1 % 0x100, r0);
    for i := 0 to SECTOR_BYTES
      invariant ram[r2..r2 + i] == sector[..i]
      invariant forall q :: 0 <= q < ram.Length && !(r2 <= q < r2 + i) ==> ram[q] == old(ram[q])
    {
      ram[r2 + i] := sector[i];
    }
  }

  /** copy_memory_bytes: the count is tested after each byte, so it must not be 0. */
  method CopyMemoryBytes(ram: array<u8>, source: u32, destination: u32, count: u32)
    requires 0 < count && source + count <= ram.Length <= RAM_SIZE && destination + count <= ram.Length
    requires source + count <= destination || destination + count <= source
    modifies ram
    ensures ram[destination..destination + count] == old(ram[source..source + count])
    ensures SameOutside(old(ram[..]), ram[..], destination, destination + count)
  {
    var r0, r1, r31 := source, destination, count;
    ghost var i := 0;
    while true
      invariant 0 <= i < count && r31 == count - i && r0 == source + i && r1 == destination + i
      invariant ram[destination..destination + i] == old(ram[..])[source..source + i]
      invariant forall q :: 0 <= q < ram.Length && !(destination <= q < destination + i) ==> ram[q] == old(ram[q])
      decreases r31
    {
      ram[r1] := ram[r0];
      r0 := Add32(r0, 1);
      r1 := Add32(r1, 1);
      i := i + 1;
      r31 := Sub32(r31, 1);
      if r31 == 0 {
        break;
      }
    }
    assert old(ram[..])[source..source + count] == old(ram[source..source + count]);
  }

  /** Two address ranges do not overlap. */
  predicate Apart(a: nat, n: nat, b: nat, m: nat) {
    a + n <= b || b + m <= a
  }

  /** The first k sectors of the file have been copied; nothing but the destination and
      the sector buffer has changed. */
  ghost predicate Copied(
    start: seq<u8>, mem: seq<u8>, disks: Disks, disk: u8, chain: seq<u16>, destination: nat, k: nat)
  {
    && |mem| == |start| && k <= |chain| && destination + PAYLOAD_BYTES * k <= |mem|
    && mem[destination..destination + PAYLOAD_BYTES * k] == Contents(disks, disk, chain[..k])
    && SameOutsideBoth(start, mem, destination, PAYLOAD_BYTES * k)
  }

  /** One more sector: first into the buffer, then its payload behind the others. */
  lemma OneMoreSector(
    start: seq<u8>, before: seq<u8>, buffered: seq<u8>, after: seq<u8>,
    disks: Disks, disk: u8, chain: seq<u16>, destination: nat, k: nat)
    requires k < |chain| && Copied(start, before, disks, disk, chain, destination, k)
    requires destination + PAYLOAD_BYTES * |chain| <= |start|
    requires TEMP_SECTOR_BUF + SECTOR_BYTES <= |start|
    requires Apart(destination, PAYLOAD_BYTES * |chain|, TEMP_SECTOR_BUF, SECTOR_BYTES)
    requires SameOutside(before, buffered, TEMP_SECTOR_BUF, TEMP_SECTOR_BUF + SECTOR_BYTES)
    requires buffered[TEMP_SECTOR_BUF..TEMP_SECTOR_BUF + SECTOR_BYTES] == disks(disk, chain[k])
    requires
      var at := destination + PAYLOAD_BYTES * k;
      && SameOutside(buffered, after, at, at + PAYLOAD_BYTES)
      && after[at..at + PAYLOAD_BYTES]
         == buffered[TEMP_SECTOR_BUF + HEADER_BYTES..TEMP_SECTOR_BUF + SECTOR_BYTES]
    ensures Copied(start, after, disks, disk, chain, destination, k + 1)
    ensures after[TEMP_SECTOR_BUF..TEMP_SECTOR_BUF + SECTOR_BYTES] == disks(disk, chain[k])
  {
    hide Contents;
    var at := destination + PAYLOAD_BYTES * k;
    ContentsSnoc(disks, disk, chain, k);
    var sector := disks(disk, chain[k]);
    SliceOfSlice(
      buffered, TEMP_SECTOR_BUF, TEMP_SECTOR_BUF + SECTOR_BYTES, HEADER_BYTES, SECTOR_BYTES);
    assert sector[HEADER_BYTES..SECTOR_BYTES] == Payload(sector);
    assert after[destination..at] == before[destination..at];
    assert after[destination..at + PAYLOAD_BYTES] == after[destination..at] + after[at..at + PAYLOAD_BYTES];
  }

  lemma ContentsSnoc(disks: Disks, disk: u8, chain: seq<u16>, k: nat)
    requires k < |chain|
    ensures Contents(disks, disk, chain[..k + 1])
      == Contents(disks, disk, chain[..k]) + Payload(disks(disk, chain[k]))
  {
    assert chain[..k + 1][..k] == chain[..k];
  }

  /** The next sector's number, as read from the buffer. */
  lemma BufferedNext(mem: seq<u8>, s: Sector)
    requires TEMP_SECTOR_BUF + SECTOR_BYTES <= |mem|
    requires mem[TEMP_SECTOR_BUF..TEMP_SECTOR_BUF + SECTOR_BYTES] == s
    ensures Load(Half, mem, TEMP_SECTOR_BUF + 2) == NextSector(s)
  {
    assert mem[TEMP_SECTOR_BUF + 2] == s[2] && mem[TEMP_SECTOR_BUF + 3] == s[3];
  }

  method ReadHalf(ram: array<u8>, at: nat) returns (h: u16)
    requires at + 2 <= ram.Length
    ensures h == Load(Half, ram[..], at)
  {
    h := Join(ram[at], ram[at + 1], 0, 0);
  }

  /** The disk ID and first sector a file struct names. */
  predicate Names(mem: seq<u8>, file: nat, disk: u8, first: u16) {
    file + FILE_STRUCT_BYTES <= |mem| && mem[file] == disk && Load(Half, mem, file + 1) == first
  }

  /** ryfs_read_whole_file: follows the chain from the struct's first sector and copies
      every sector's payload to the destination.  It always copies whole payloads. */
  method ReadWholeFile(
    ram: array<u8>, disks: Disks, file: u32, destination: u32, ghost disk: u8, ghost chain: seq<u16>)
    requires ram.Length <= RAM_SIZE && TEMP_SECTOR_BUF + SECTOR_BYTES <= ram.Length
    requires chain != [] && IsChain(disks, disk, chain) && Names(ram[..], file, disk, chain[0])
    requires destination + PAYLOAD_BYTES * |chain| <= ram.Length
    requires Apart(destination, PAYLOAD_BYTES * |chain|, TEMP_SECTOR_BUF, SECTOR_BYTES)
    requires Apart(destination, PAYLOAD_BYTES * |chain|, file, FILE_STRUCT_BYTES)
    requires Apart(file, FILE_STRUCT_BYTES, TEMP_SECTOR_BUF, SECTOR_BYTES)
    modifies ram
    ensures ram[destination..destination + PAYLOAD_BYTES * |chain|] == Contents(disks, disk, chain)
    ensures SameOutsideBoth(old(ram[..]), ram[..], destination, PAYLOAD_BYTES * |chain|)
  {
    hide Load, Contents, NextSector, IsChain, Copied;
    ghost var start := ram[..];
    var r10, r11 := file, destination;
    var r1: u32 := ram[file];
    var r0: u32 := ReadHalf(ram, file + 1);
    ghost var k := 0;
    NothingCopied(start, disks, disk, chain, destination);
    while true
      invariant 0 <= k < |chain|
      invariant r11 == destination + PAYLOAD_BYTES * k && r0 == chain[k] && r1 % 0x100 == disk
      invariant Copied(start, ram[..], disks, disk, chain, destination, k)
      decreases |chain| - k
    {
      ghost var before := ram[..];
      ChainAt(disks, disk, chain, k);
      ReadSector(ram, disks, r0, r1, TEMP_SECTOR_BUF);
      ghost var buffered := ram[..];
      CopyMemoryBytes(ram, TEMP_SECTOR_BUF + HEADER_BYTES, r11, PAYLOAD_BYTES);
      OneMoreSector(start, before, buffered, ram[..], disks, disk, chain, destination, k);
      BufferedNext(ram[..], disks(disk, chain[k]));
      var next := ReadHalf(ram, TEMP_SECTOR_BUF + 2);
      if next == 0 {
        break;
      }
      r0 := next;
      k := k + 1;
      StructKept(start, ram[..], disks, disk, chain, destination, k, file);
      r1 := ReadStructWord(ram, r10, disk);
      r11 := r11 + PAYLOAD_BYTES;
    }
    assert k == |chain| - 1;
    AllCopied(start, ram[..], disks, disk, chain, destination);
  }

  lemma StructKept(
    start: seq<u8>, mem: seq<u8>, disks: Disks, disk: u8, chain: seq<u16>, destination: nat, k: nat, file: nat)
    requires Copied(start, mem, disks, disk, chain, destination, k)
    requires Apart(destination, PAYLOAD_BYTES * |chain|, file, FILE_STRUCT_BYTES)
    requires Apart(file, FILE_STRUCT_BYTES, TEMP_SECTOR_BUF, SECTOR_BYTES)
    requires file + FILE_STRUCT_BYTES <= |start|
    ensures |mem| == |start| && mem[file] == start[file]
  {
    hide Contents;
  }

  lemma AllCopied(start: seq<u8>, mem: seq<u8>, disks: Disks, disk: u8, chain: seq<u16>, destination: nat)
    requires Copied(start, mem, disks, disk, chain, destination, |chain|)
    ensures destination + PAYLOAD_BYTES * |chain| <= |mem|
    ensures mem[destination..destination + PAYLOAD_BYTES * |chain|] == Contents(disks, disk, chain)
    ensures SameOutsideBoth(start, mem, destination, PAYLOAD_BYTES * |chain|)
  {
    hide Contents;
    assert chain[..|chain|] == chain;
  }

  lemma NothingCopied(start: seq<u8>, disks: Disks, disk: u8, chain: seq<u16>, destination: nat)
    requires destination <= |start|
    ensures Copied(start, start, disks, disk, chain, destination, 0)
  {
  }

  /** The word at the start of a file struct; its low byte is the disk ID. */
  method ReadStructWord(ram: array<u8>, file: u32, ghost disk: u8) returns (w: u32)
    requires file + FILE_STRUCT_BYTES <= ram.Length && ram[file] == disk
    ensures w % 0x100 == disk
  {
    w := Join(ram[file], ram[file + 1], ram[file + 2], ram[file + 3]);
    JoinBytes(ram[file], ram[file + 1], ram[file + 2], ram[file + 3]);
  }
}
