/** What the machine's arithmetic computes, in terms of sums, products, quotients and
    bits. */
module ArithmeticLaws {
  import opened Words
  import opened Arithmetic

  // ----- quotients by powers of two

  lemma HalfOfQuotient(v: nat, p: nat)
    requires p > 0
    ensures v / 2 / p == v / (2 * p)
  {
    var q, r := v / (2 * p), v % (2 * p);
    assert v == 2 * p * q + r;
    assert v == 2 * (p * q) + r;
    assert v / 2 == p * q + r / 2;
    QuotientIs(v / 2, p, q, r / 2);
  }

  /** Multiplying by a positive number keeps the order and moves away from zero. */
  lemma Scaled(p: int, x: int, y: int)
    requires p > 0
    ensures x <= y ==> p * x <= p * y
    ensures x >= 0 ==> p * x >= x
    ensures x <= 0 ==> p * x <= x
  {
    if x <= y {
      assert p * (y - x) >= 0;
    }
    assert x >= 0 ==> (p - 1) * x >= 0;
    assert x <= 0 ==> (p - 1) * x <= 0;
  }

  lemma QuotientIs(v: int, p: nat, q: int, r: nat)
    requires p > 0 && v == p * q + r && r < p
    ensures v / p == q && v % p == r
  {
    assert v == p * (v / p) + v % p;
    Scaled(p, v / p + 1, q);
    Scaled(p, q + 1, v / p);
  }

  /** Bit n of a value is bit n - 1 of its half. */
  lemma BitOfHalf(v: nat, n: nat)
    requires n > 0
    ensures TestBit(v, n) == TestBit(v / 2, n - 1)
  {
    HalfOfQuotient(v, Pow2(n - 1));
  }

  lemma {:induction false} Pow2Adds(m: nat, n: nat)
    ensures Pow2(m + n) == Pow2(m) * Pow2(n)
    decreases m
  {
    if m > 0 {
      Pow2Adds(m - 1, n);
      Doubled(Pow2(m - 1), Pow2(n));
    }
  }

  lemma Doubled(a: nat, b: nat)
    ensures 2 * (a * b) == (2 * a) * b
  {
  }

  // ----- bits

  /** A value is its bits: two values below a power of two with the same bits are equal. */
  lemma {:induction false} BitsDetermine(n: nat, a: nat, b: nat)
    requires a < Pow2(n) && b < Pow2(n)
    requires forall i: nat :: i < n ==> TestBit(a, i) == TestBit(b, i)
    ensures a == b
  {
    if n > 0 {
      assert TestBit(a, 0) == TestBit(b, 0);
      forall i: nat | i < n - 1
        ensures TestBit(a / 2, i) == TestBit(b / 2, i)
      {
        BitOfHalf(a, i + 1);
        BitOfHalf(b, i + 1);
      }
      BitsDetermine(n - 1, a / 2, b / 2);
    }
  }

  lemma {:induction false} NoBitAbove(n: nat, a: nat, i: nat)
    requires a < Pow2(n) && n <= i
    ensures !TestBit(a, i)
  {
    Pow2Grows(n, i);
    QuotientIs(a, Pow2(i), 0, a);
  }

  lemma {:induction false} BitwiseBit(f: (bool, bool) -> bool, n: nat, a: nat, b: nat, i: nat)
    requires i < n
    ensures TestBit(Bitwise(f, n, a, b), i) == f(TestBit(a, i), TestBit(b, i))
    decreases n
  {
    var r := Bitwise(f, n, a, b);
    assert r / 2 == Bitwise(f, n - 1, a / 2, b / 2);
    if i > 0 {
      BitwiseBit(f, n - 1, a / 2, b / 2, i - 1);
      BitOfHalf(r, i);
      BitOfHalf(a, i);
      BitOfHalf(b, i);
    }
  }

  /** AND, OR and XOR work bit by bit. */
  lemma BitwiseLaws(size: Size, a: u32, b: u32, i: nat)
    requires a < Modulus(size) && b < Modulus(size) && i < Width(size)
    ensures TestBit(BitAnd(size, a, b), i) <==> TestBit(a, i) && TestBit(b, i)
    ensures TestBit(BitOr(size, a, b), i) <==> TestBit(a, i) || TestBit(b, i)
    ensures TestBit(BitXor(size, a, b), i) <==> TestBit(a, i) != TestBit(b, i)
  {
    hide TestBit, Bitwise;
    BitwiseBit((x, y) => x && y, Width(size), a, b, i);
    BitwiseBit((x, y) => x || y, Width(size), a, b, i);
    BitwiseBit((x, y) => x != y, Width(size), a, b, i);
  }

  lemma {:induction false} ComplementBit(n: nat, a: nat, i: nat)
    requires a < Pow2(n) && i < n
    ensures TestBit(Pow2(n) - 1 - a, i) != TestBit(a, i)
    decreases n
  {
    var c := Pow2(n) - 1 - a;
    assert c / 2 == Pow2(n - 1) - 1 - a / 2;
    if i > 0 {
      ComplementBit(n - 1, a / 2, i - 1);
      BitOfHalf(c, i);
      BitOfHalf(a, i);
    }
  }

  /** NOT turns every bit over. */
  lemma NotLaw(size: Size, a: u32, i: nat)
    requires a < Modulus(size) && i < Width(size)
    ensures TestBit(BitNot(size, a), i) != TestBit(a, i)
  {
    hide TestBit;
    Pow2OfWidth(size);
    ComplementBit(Width(size), a, i);
  }

  lemma {:induction false} PowerBit(n: nat, i: nat)
    ensures TestBit(Pow2(n), i) <==> i == n
    decreases i
  {
    if i == 0 {
      assert n > 0 ==> Pow2(n) == 2 * Pow2(n - 1);
    } else {
      BitOfHalf(Pow2(n), i);
      if n == 0 {
        NoBitAbove(0, 0, i - 1);
      } else {
        PowerBit(n - 1, i - 1);
      }
    }
  }

  /** The mask of bit n has that bit only. */
  lemma MaskLaw(size: Size, n: nat, i: nat)
    requires n < Width(size)
    ensures TestBit(Bit(size, n), i) <==> i == n
  {
    hide TestBit;
    PowerBit(n, i);
  }

  // ----- shifts

  lemma CastIsRemainder(size: Size, v: int)
    ensures Cast(size, v) == v % Modulus(size)
  {
  }

  /** Bits of a product with a power of two. */
  lemma {:induction false} ShiftedUpBit(v: nat, n: nat, i: nat)
    ensures v * Pow2(n) >= 0
    ensures TestBit(v * Pow2(n), i) <==> i >= n && TestBit(v, i - n)
    decreases n
  {
    if n > 0 {
      var p := Pow2(n - 1);
      assert v * Pow2(n) == 2 * (v * p) by {
        assert Pow2(n) == 2 * p;
        Doubled(p, v);
      }
      if i > 0 {
        BitOfHalf(v * Pow2(n), i);
        ShiftedUpBit(v, n - 1, i - 1);
      }
    } else {
      assert v * Pow2(0) == v;
    }
  }

  lemma QuotientStep(v: nat, n: nat)
    ensures v / Pow2(0) == v
    ensures n > 0 ==> v / Pow2(n) == v / 2 / Pow2(n - 1)
  {
    if n > 0 {
      HalfOfQuotient(v, Pow2(n - 1));
    }
  }

  /** Bits of a quotient by a power of two. */
  lemma {:induction false} ShiftedDownBit(v: nat, n: nat, q: nat, i: nat)
    requires q == v / Pow2(n)
    ensures TestBit(q, i) == TestBit(v, i + n)
    decreases n
  {
    hide TestBit, Pow2;
    QuotientStep(v, n);
    if n > 0 {
      ShiftedDownBit(v / 2, n - 1, q, i);
      BitOfHalf(v, i + n);
    }
  }

  /** Cutting a value to n bits keeps those bits. */
  lemma {:induction false} LowBit(v: nat, n: nat, i: nat)
    requires i < n
    ensures TestBit(v % Pow2(n), i) == TestBit(v, i)
    decreases n
  {
    var p := Pow2(n - 1);
    var q, r := v / 2 / p, v / 2 % p;
    assert v / 2 == p * q + r;
    assert v == 2 * (p * q) + 2 * r + v % 2;
    Doubled(p, q);
    QuotientIs(v, 2 * p, q, 2 * r + v % 2);
    var low := v % Pow2(n);
    assert low / 2 == r;
    if i > 0 {
      LowBit(v / 2, n - 1, i - 1);
      BitOfHalf(low, i);
      BitOfHalf(v, i);
    }
  }

  /** Shifting left multiplies by a power of two, and moves every bit up. */
  lemma ShiftLeftLaw(size: Size, v: u32, n: nat, i: nat)
    requires i < Width(size)
    ensures v * Pow2(n) >= 0
    ensures ShiftLeft(size, v, n) == v * Pow2(n) % Modulus(size)
    ensures TestBit(ShiftLeft(size, v, n), i) <==> i >= n && TestBit(v, i - n)
  {
    hide TestBit;
    CastIsRemainder(size, v * Pow2(n));
    ShiftedUpBit(v, n, i);
    Pow2OfWidth(size);
    LowBit(v * Pow2(n), Width(size), i);
  }

  lemma QuotientSmaller(v: nat, p: nat)
    requires p > 0
    ensures 0 <= v / p <= v
  {
    FloorRange(v, p);
  }

  /** Shifting right divides by a power of two, and moves every bit down. */
  lemma ShiftRightLaw(size: Size, v: u32, n: nat, i: nat)
    requires v < Modulus(size)
    ensures ShiftRight(size, v, n) == v / Pow2(n)
    ensures TestBit(ShiftRight(size, v, n), i) <==> TestBit(v, i + n)
  {
    hide TestBit;
    QuotientSmaller(v, Pow2(n));
    CastIsRemainder(size, v / Pow2(n));
    ShiftedDownBit(v, n, ShiftRight(size, v, n), i);
  }

  /** The two's complement reading undoes cutting a signed value to the size. */
  lemma SignedCast(size: Size, v: int)
    requires -Modulus(size) <= 2 * v < Modulus(size)
    ensures Signed(size, Cast(size, v)) == v
  {
    CastIsRemainder(size, v);
    if v < 0 {
      QuotientIs(v, Modulus(size), -1, v + Modulus(size));
    }
  }

  lemma SignedRange(size: Size, v: u32)
    requires v < Modulus(size)
    ensures -Modulus(size) <= 2 * Signed(size, v) < Modulus(size)
    ensures Signed(size, v) % Modulus(size) == v
  {
    if Signed(size, v) < 0 {
      QuotientIs(Signed(size, v), Modulus(size), -1, v);
    }
  }

  lemma FloorRange(v: int, p: nat)
    requires p > 0
    ensures v >= 0 ==> 0 <= v / p <= v
    ensures v < 0 ==> v <= v / p < 0
  {
    var q := v / p;
    assert v == p * q + v % p;
    Scaled(p, q, -1);
    Scaled(p, 0, q);
    Scaled(p, q, v - 1);
    Scaled(p, v, v);
  }

  /** The signed shift right divides the two's complement reading, rounding down. */
  lemma SignedShiftLaw(size: Size, v: u32, n: nat)
    requires v < Modulus(size)
    ensures Signed(size, ShiftRightSigned(size, v, n)) == Signed(size, v) / Pow2(n)
  {
    SignedRange(size, v);
    FloorRange(Signed(size, v), Pow2(n));
    SignedCast(size, Signed(size, v) / Pow2(n));
  }

  /** A left and a right shift that fill the width together rotate the bits. */
  lemma RotateLaw(size: Size, v: u32, n: nat, i: nat)
    requires v < Modulus(size) && n <= Width(size) && i < Width(size)
    ensures
      TestBit(BitOr(size, ShiftLeft(size, v, n), ShiftRight(size, v, Width(size) - n)), i)
      <==> TestBit(v, if i >= n then i - n else i + Width(size) - n)
    ensures
      BitOr(size, ShiftLeft(size, v, n), ShiftRight(size, v, Width(size) - n))
      == BitOr(size, ShiftRight(size, v, Width(size) - n), ShiftLeft(size, v, n))
  {
    hide TestBit, BitOr, ShiftLeft, ShiftRight;
    RotatedBit(size, v, n, i);
    OrCommutes(size, ShiftLeft(size, v, n), ShiftRight(size, v, Width(size) - n));
  }

  lemma RotatedBit(size: Size, v: u32, n: nat, i: nat)
    requires v < Modulus(size) && n <= Width(size) && i < Width(size)
    ensures
      TestBit(BitOr(size, ShiftLeft(size, v, n), ShiftRight(size, v, Width(size) - n)), i)
      <==> TestBit(v, if i >= n then i - n else i + Width(size) - n)
  {
    hide TestBit, BitOr, ShiftLeft, ShiftRight;
    var m := Width(size) - n;
    BitwiseLaws(size, ShiftLeft(size, v, n), ShiftRight(size, v, m), i);
    ShiftLeftLaw(size, v, n, i);
    ShiftRightLaw(size, v, m, i);
    Pow2OfWidth(size);
    if i >= n {
      NoBitAbove(Width(size), v, i + m);
    }
  }

  lemma OrCommutes(size: Size, a: u32, b: u32)
    requires a < Modulus(size) && b < Modulus(size)
    ensures BitOr(size, a, b) == BitOr(size, b, a)
  {
    hide TestBit, BitOr;
    forall i: nat | i < Width(size)
      ensures TestBit(BitOr(size, a, b), i) == TestBit(BitOr(size, b, a), i)
    {
      BitwiseLaws(size, a, b, i);
      BitwiseLaws(size, b, a, i);
    }
    Pow2OfWidth(size);
    BitsDetermine(Width(size), BitOr(size, a, b), BitOr(size, b, a));
  }

  // ----- products

  lemma TimesIsProduct(a: nat, b: nat)
    ensures Times(a, b) == a * b
  {
  }
}
