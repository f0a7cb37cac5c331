/** The address space both interpreters share, and the abstract I/O bus.

    RAM starts at address 0; ROM starts at ROM_START. */
module Memory {
  import opened Words

  const RAM_SIZE: int := 0x0400_0000
  const ROM_SIZE: int := 0x0008_0000
  const ROM_START: int := 0xF000_0000

  type Ram = b: seq<u8> | |b| == RAM_SIZE witness seq(RAM_SIZE, _ => 0)
  type Rom = b: seq<u8> | |b| == ROM_SIZE witness seq(ROM_SIZE, _ => 0)
  type Registers = r: seq<u32> | |r| == 32 witness seq(32, _ => 0)

  /** A place in physical memory. */
  datatype Place = InRam(offset: nat) | InRom(offset: nat)

  /** The place lies inside its array, with room for an access of this size. */
  predicate Fits(place: Place, size: Size) {
    match place
    case InRam(offset) => offset + Bytes(size) <= RAM_SIZE
    case InRom(offset) => offset + Bytes(size) <= ROM_SIZE
  }

  function Fetch(ram: Ram, rom: Rom, place: Place, size: Size): (r: u32)
    requires Fits(place, size)
    ensures r < Modulus(size)
  {
    match place
    case InRam(offset) => Load(size, ram, offset)
    case InRom(offset) => Load(size, rom, offset)
  }

  /** One transfer over the I/O bus. */
  datatype IoEvent = PortRead(port: u32, value: u32) | PortWrite(port: u32, value: u32)

  /** The devices behind the bus: what they answer may depend on every earlier
      transfer.  A read that gives None, or a write that gives false, fails.
      Devices do not write to memory. */
  datatype Bus = Bus(read: (seq<IoEvent>, u32) -> Option<u32>, write: (seq<IoEvent>, u32, u32) -> bool)
}
