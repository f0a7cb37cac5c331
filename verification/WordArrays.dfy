/** Word accesses to memory that is updated in place. */
module WordArrays {
  import opened Words

  /** The word at an address, least significant byte first. */
  method ReadWord(memory: array<u8>, at: nat) returns (w: u32)
    requires at + 4 <= memory.Length
    ensures w == Load(Word, memory[..], at)
  {
    w := Join(memory[at], memory[at + 1], memory[at + 2], memory[at + 3]);
  }

  /** Overwrites the four bytes at an address. */
  method WriteWord(memory: array<u8>, at: nat, v: u32)
    requires at + 4 <= memory.Length
    modifies memory
    ensures memory[..] == Store(Word, old(memory[..]), at, v)
  {
    memory[at] := v % 0x100;
    memory[at + 1] := v / 0x100 % 0x100;
    memory[at + 2] := v / 0x1_0000 % 0x100;
    memory[at + 3] := v / 0x100_0000;
  }

  /** The same for operands of any size. */
  method ReadSized(memory: array<u8>, size: Size, at: nat) returns (v: u32)
    requires at + Bytes(size) <= memory.Length
    ensures v == Load(size, memory[..], at)
  {
    match size
    case Byte => v := memory[at];
    case Half => v := Join(memory[at], memory[at + 1], 0, 0);
    case Word => v := ReadWord(memory, at);
  }

  method WriteSized(memory: array<u8>, size: Size, at: nat, v: u32)
    requires at + Bytes(size) <= memory.Length
    modifies memory
    ensures memory[..] == Store(size, old(memory[..]), at, v)
  {
    match size
    case Byte =>
      memory[at] := v % 0x100;
    case Half =>
      memory[at] := v % 0x100;
      memory[at + 1] := v / 0x100 % 0x100;
    case Word =>
      WriteWord(memory, at, v);
  }
}
