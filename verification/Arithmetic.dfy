/** Unsigned and signed arithmetic on operands of one size, as both interpreters
    use it. */
module Arithmetic {
  import opened Words

  function Pow2(n: nat): (r: nat)
    ensures r > 0
  {
    if n == 0 then 1 else 2 * Pow2(n - 1)
  }

  function Times(a: nat, b: nat): nat {
    a * b
  }

  /** The two's complement reading of a value. */
  function Signed(size: Size, v: u32): int {
    if v >= Modulus(size) / 2 then v - Modulus(size) else v
  }

  /** A signed result cut to the size. */
  function Cast(size: Size, v: int): (r: u32)
    ensures r < Modulus(size)
  {
    match size
    case Byte => v % 0x100
    case Half => v % 0x1_0000
    case Word => v % 0x1_0000_0000
  }

  /** Bit n of a value. */
  predicate TestBit(v: nat, n: nat) {
    v / Pow2(n) % 2 == 1
  }

  /** The value whose lowest n bits come from those of a and b. */
  function Bitwise(f: (bool, bool) -> bool, n: nat, a: nat, b: nat): (r: nat)
    ensures r < Pow2(n)
  {
    if n == 0 then 0
    else (if f(a % 2 == 1, b % 2 == 1) then 1 else 0) + 2 * Bitwise(f, n - 1, a / 2, b / 2)
  }

  function BitAnd(size: Size, a: u32, b: u32): (r: u32)
    requires a < Modulus(size) && b < Modulus(size)
    ensures r < Modulus(size)
  {
    Pow2OfWidth(size);
    Bitwise((x, y) => x && y, Width(size), a, b)
  }

  function BitOr(size: Size, a: u32, b: u32): (r: u32)
    requires a < Modulus(size) && b < Modulus(size)
    ensures r < Modulus(size)
  {
    Pow2OfWidth(size);
    Bitwise((x, y) => x || y, Width(size), a, b)
  }

  function BitXor(size: Size, a: u32, b: u32): (r: u32)
    requires a < Modulus(size) && b < Modulus(size)
    ensures r < Modulus(size)
  {
    Pow2OfWidth(size);
    Bitwise((x, y) => x != y, Width(size), a, b)
  }

  function BitNot(size: Size, a: u32): (r: u32)
    requires a < Modulus(size)
    ensures r < Modulus(size)
  {
    Modulus(size) - 1 - a
  }

  function ShiftLeft(size: Size, v: nat, n: nat): (r: u32)
    ensures r < Modulus(size)
  {
    Cast(size, v * Pow2(n))
  }

  function ShiftRight(size: Size, v: nat, n: nat): (r: u32)
    ensures r < Modulus(size)
  {
    Cast(size, v / Pow2(n))
  }

  function ShiftRightSigned(size: Size, v: u32, n: nat): (r: u32)
    ensures r < Modulus(size)
  {
    Cast(size, Signed(size, v) / Pow2(n))
  }

  /** The bit mask with bit n set; n must be a bit of this size. */
  function Bit(size: Size, n: nat): (r: u32)
    requires n < Width(size)
    ensures r < Modulus(size)
  {
    Pow2Bound(size, n);
    Pow2(n)
  }

  lemma {:induction false} Pow2Grows(m: nat, n: nat)
    requires m <= n
    ensures Pow2(m) <= Pow2(n)
  {
    if m < n {
      Pow2Grows(m, n - 1);
    }
  }

  lemma Pow2Doubles(n: nat)
    ensures Pow2(n + 4) == 16 * Pow2(n)
  {
    assert Pow2(n + 4) == 2 * Pow2(n + 3) == 4 * Pow2(n + 2) == 8 * Pow2(n + 1);
  }

  lemma Pow2OfWidth(size: Size)
    ensures Pow2(Width(size)) == Modulus(size)
  {
    assert Pow2(4) == 16;
    Pow2Doubles(4);
    Pow2Doubles(8);
    Pow2Doubles(12);
    Pow2Doubles(16);
    Pow2Doubles(20);
    Pow2Doubles(24);
    Pow2Doubles(28);
  }

  lemma Pow2Bound(size: Size, n: nat)
    requires n < Width(size)
    ensures Pow2(n) < Modulus(size)
  {
    Pow2OfWidth(size);
    Pow2Grows(n + 1, Width(size));
  }
}
