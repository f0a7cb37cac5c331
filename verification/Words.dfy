/** Machine words of the fox32: bounded integers, operand sizes, wrap-around
    arithmetic and little-endian byte order. */
module Words {

  type u8 = x: int | 0 <= x < 0x100
  type u16 = x: int | 0 <= x < 0x1_0000
  type u32 = x: int | 0 <= x < 0x1_0000_0000

  datatype Option<+T> = None | Some(value: T) {
    predicate IsFailure() {
      None?
    }

    function PropagateFailure<U>(): Option<U>
      requires None?
    {
      None
    }

    function Extract(): T
      requires Some?
    {
      value
    }
  }

  /** Operand size: 8, 16 or 32 bits. */
  datatype Size = Byte | Half | Word

  function Bytes(size: Size): u32 {
    match size
    case Byte => 1
    case Half => 2
    case Word => 4
  }

  function Width(size: Size): u32 {
    match size
    case Byte => 8
    case Half => 16
    case Word => 32
  }

  function Modulus(size: Size): int {
    match size
    case Byte => 0x100
    case Half => 0x1_0000
    case Word => 0x1_0000_0000
  }

  /** The low bits of a value: a cast to the unsigned type of this size. */
  function Trunc(size: Size, v: nat): (r: u32)
    ensures r < Modulus(size)
    ensures v < Modulus(size) ==> r == v
  {
    match size
    case Byte => v % 0x100
    case Half => v % 0x1_0000
    case Word => v % 0x1_0000_0000
  }

  /** 32-bit addition and subtraction, modulo 2^32. */
  function Add32(a: u32, b: u32): u32 {
    if a + b < 0x1_0000_0000 then a + b else a + b - 0x1_0000_0000
  }

  function Sub32(a: u32, b: u32): u32 {
    if a >= b then a - b else a - b + 0x1_0000_0000
  }

  /** Replacing the low bits of a value keeps its high bits. */
  lemma MergeByte(whole: u32, low: u32)
    requires low < 0x100
    ensures
      var r := whole - whole % 0x100 + low;
      0 <= r < 0x1_0000_0000 && r % 0x100 == low && r / 0x100 == whole / 0x100
  {
    assert whole - whole % 0x100 == 0x100 * (whole / 0x100);
  }

  lemma MergeHalf(whole: u32, low: u32)
    requires low < 0x1_0000
    ensures
      var r := whole - whole % 0x1_0000 + low;
      0 <= r < 0x1_0000_0000 && r % 0x1_0000 == low && r / 0x1_0000 == whole / 0x1_0000
  {
    assert whole - whole % 0x1_0000 == 0x1_0000 * (whole / 0x1_0000);
  }

  /** The register value with its low bits replaced, as a narrow write does. */
  function Merge(size: Size, whole: u32, low: u32): (r: u32)
    requires low < Modulus(size)
    ensures Trunc(size, r) == low
    ensures r / Modulus(size) == whole / Modulus(size)
  {
    match size
    case Byte =>
      MergeByte(whole, low);
      whole - whole % 0x100 + low
    case Half =>
      MergeHalf(whole, low);
      whole - whole % 0x1_0000 + low
    case Word => low
  }

  /** Little-endian bytes of a value, truncated to the size. */
  function Le(size: Size, v: u32): (r: seq<u8>)
    ensures |r| == Bytes(size)
  {
    match size
    case Byte => [v % 0x100]
    case Half => [v % 0x100, v / 0x100 % 0x100]
    case Word => [v % 0x100, v / 0x100 % 0x100, v / 0x1_0000 % 0x100, v / 0x100_0000]
  }

  /** The word made of four bytes, least significant first. */
  function Join(b0: u8, b1: u8, b2: u8, b3: u8): u32 {
    var w0: int, w1: int, w2: int, w3: int := b0, b1, b2, b3;
    w0 + 0x100 * (w1 + 0x100 * (w2 + 0x100 * w3))
  }

  /** A word's bytes are the ones it was made of. */
  lemma JoinBytes(b0: u8, b1: u8, b2: u8, b3: u8)
    ensures
      var w := Join(b0, b1, b2, b3);
      w % 0x100 == b0 && w / 0x100 % 0x100 == b1 && w / 0x1_0000 % 0x100 == b2 && w / 0x100_0000 == b3
  {
    var w := Join(b0, b1, b2, b3);
    var w2: int, w3: int := b2, b3;
    var high := w2 + 0x100 * w3;
    assert w / 0x100 == b1 + 0x100 * high;
    assert w / 0x1_0000 == high;
  }

  /** The value stored little-endian at an offset of a byte sequence. */
  function Load(size: Size, bytes: seq<u8>, at: nat): (r: u32)
    requires at + Bytes(size) <= |bytes|
    ensures r < Modulus(size)
  {
    match size
    case Byte => bytes[at]
    case Half => Join(bytes[at], bytes[at + 1], 0, 0)
    case Word => Join(bytes[at], bytes[at + 1], bytes[at + 2], bytes[at + 3])
  }

  /** The byte sequence after writing a value little-endian at an offset. */
  function Store(size: Size, bytes: seq<u8>, at: nat, v: u32): (r: seq<u8>)
    requires at + Bytes(size) <= |bytes|
    ensures |r| == |bytes|
  {
    match size
    case Byte => bytes[at := v % 0x100]
    case Half => bytes[at := v % 0x100][at + 1 := v / 0x100 % 0x100]
    case Word =>
      bytes[at := v % 0x100][at + 1 := v / 0x100 % 0x100][at + 2 := v / 0x1_0000 % 0x100][at + 3 := v / 0x100_0000]
  }

  /** Writing replaces exactly the addressed bytes. */
  lemma StoreIsSplice(size: Size, bytes: seq<u8>, at: nat, v: u32)
    requires at + Bytes(size) <= |bytes|
    ensures Store(size, bytes, at, v) == bytes[..at] + Le(size, v) + bytes[at + Bytes(size)..]
  {
  }

  /** Splitting a word into bytes and joining them gives the word. */
  lemma JoinSplit(v: u32)
    ensures Join(v % 0x100, v / 0x100 % 0x100, v / 0x1_0000 % 0x100, v / 0x100_0000) == v
    ensures Join(v % 0x100, v / 0x100 % 0x100, 0, 0) == v % 0x1_0000
  {
    var a, b, c := v / 0x100, v / 0x1_0000, v / 0x100_0000;
    assert v == 0x100 * a + v % 0x100;
    assert a == 0x100 * b + a % 0x100;
    assert b == 0x100 * c + b % 0x100;
  }

  /** Reading back what was written gives the value, cut to the size. */
  lemma LoadStore(size: Size, bytes: seq<u8>, at: nat, v: u32)
    requires at + Bytes(size) <= |bytes|
    ensures Load(size, Store(size, bytes, at, v), at) == Trunc(size, v)
  {
    hide Join;
    JoinSplit(v);
  }

  /** Bytes written as a little-endian run load back as their value. */
  lemma LoadLe(size: Size, bytes: seq<u8>, at: nat, v: u32)
    requires at + Bytes(size) <= |bytes|
    requires bytes[at..at + Bytes(size)] == Le(size, v)
    ensures Load(size, bytes, at) == Trunc(size, v)
  {
    LoadStore(size, bytes, at, v);
    StoreIsSplice(size, bytes, at, v);
    assert Store(size, bytes, at, v) == bytes;
  }

  /** A loaded value has exactly the bytes it was loaded from. */
  lemma LeLoad(size: Size, bytes: seq<u8>, at: nat)
    requires at + Bytes(size) <= |bytes|
    ensures Le(size, Load(size, bytes, at)) == bytes[at..at + Bytes(size)]
  {
    match size
    case Byte =>
    case Half => JoinBytes(bytes[at], bytes[at + 1], 0, 0);
    case Word => JoinBytes(bytes[at], bytes[at + 1], bytes[at + 2], bytes[at + 3]);
  }

  /** The lowest byte comes first. */
  lemma LittleEndian(bytes: seq<u8>, at: nat)
    ensures at + 2 <= |bytes| ==>
      var b0: int, b1: int := bytes[at], bytes[at + 1];
      Load(Half, bytes, at) == b0 + 0x100 * b1
    ensures at + 4 <= |bytes| ==>
      var b0: int, b1: int, b2: int, b3: int := bytes[at], bytes[at + 1], bytes[at + 2], bytes[at + 3];
      Load(Word, bytes, at) == b0 + 0x100 * b1 + 0x1_0000 * b2 + 0x100_0000 * b3
  {
  }

  /** The bytes depend only on the value cut to the size. */
  lemma LeTrunc(size: Size, x: u32, y: u32)
    requires Trunc(size, x) == Trunc(size, y)
    ensures Le(size, x) == Le(size, y)
  {
    match size
    case Byte =>
    case Half =>
      JoinSplit(x);
      JoinSplit(y);
      JoinBytes(x % 0x100, x / 0x100 % 0x100, 0, 0);
      JoinBytes(y % 0x100, y / 0x100 % 0x100, 0, 0);
    case Word =>
  }

  /** A write leaves a disjoint read alone. */
  lemma LoadStoreDisjoint(size: Size, other: Size, bytes: seq<u8>, at: nat, v: u32, from: nat)
    requires at + Bytes(size) <= |bytes| && from + Bytes(other) <= |bytes|
    requires from + Bytes(other) <= at || at + Bytes(size) <= from
    ensures Load(other, Store(size, bytes, at, v), from) == Load(other, bytes, from)
  {
  }

  /** A slice of a slice is a slice. */
  lemma SliceOfSlice(s: seq<u8>, a: nat, b: nat, c: nat, d: nat)
    requires a <= b <= |s| && c <= d <= b - a
    ensures s[a..b][c..d] == s[a + c..a + d]
  {
    var inner := s[a..b];
    forall k | 0 <= k < d - c
      ensures inner[c..d][k] == s[a + c..a + d][k]
    {
      assert inner[c..d][k] == inner[c + k];
    }
  }
}
