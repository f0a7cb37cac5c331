/** What instructions compute, in terms of sums, products, quotients and bits, and what a
    completed step has written where. */
module Meaning {
  import opened Words
  import opened Arithmetic
  import opened ArithmeticLaws
  import opened Memory
  import opened Lockstep
  import C = Core
  import R = Cpu

  // ----- results

  /** The signed division that rounds towards zero, with the remainder's sign that of the
      dividend. */
  predicate Truncated(n: int, d: int, quotient: int, remainder: int) {
    && n == quotient * d + remainder
    && (if d > 0 then -d < remainder < d else d < remainder < -d)
    && (remainder > 0 ==> n > 0) && (remainder < 0 ==> n < 0)
  }

  /** Result and carry of the operations that can overflow, destination b and source a. */
  predicate CarryMeans(op: C.CarryOp, size: Size, b: u32, a: u32, r: u32, carry: bool) {
    var m := Modulus(size);
    match op
    case AddOp => r == (b + a) % m && (carry <==> b + a >= m)
    case SubOp => r == (b - a) % m && (carry <==> b < a)
    case MulOp => r == b * a % m && (carry <==> b * a >= m)
    case IMulOp =>
      var product := Signed(size, b) * Signed(size, a);
      r == product % m && (if carry then !(-m <= 2 * product < m) else Signed(size, r) == product)
  }

  /** Result of the operations that cannot overflow. */
  ghost predicate ZeroMeans(op: C.ZeroOp, size: Size, b: u32, a: u32, r: u32) {
    var m, w := Modulus(size), Width(size);
    var n, d := Signed(size, b), Signed(size, a);
    match op
    case DivOp => a != 0 && r == b / a
    case RemOp => a != 0 && r == b % a
    case IDivOp =>
      && d != 0
      && if 2 * n == -m && d == -1 then 2 * r == m
         else Truncated(n, d, Signed(size, r), n - d * Signed(size, r))
    case IRemOp => d != 0 && exists quotient :: Truncated(n, d, quotient, Signed(size, r))
    case AndOp => forall i: nat :: i < w ==> (TestBit(r, i) <==> TestBit(b, i) && TestBit(a, i))
    case OrOp => forall i: nat :: i < w ==> (TestBit(r, i) <==> TestBit(b, i) || TestBit(a, i))
    case XorOp => forall i: nat :: i < w ==> (TestBit(r, i) <==> TestBit(b, i) != TestBit(a, i))
    case SlaOp => b * Pow2(a) >= 0 && r == b * Pow2(a) % m
    case SrlOp => r == b / Pow2(a)
    case SraOp => Signed(size, r) == n / Pow2(a)
    case RolOp =>
      a <= w
      && forall i: nat :: i < w ==> (TestBit(r, i) <==> TestBit(b, if i >= a then i - a else i + w - a))
    case RorOp =>
      a <= w
      && forall i: nat :: i < w ==> (TestBit(r, i) <==> TestBit(b, if i + a < w then i + a else i + a - w))
    case BseOp => forall i: nat :: i < w ==> (TestBit(r, i) <==> i == a || TestBit(b, i))
    case BclOp => forall i: nat :: i < w ==> (TestBit(r, i) <==> i != a && TestBit(b, i))
  }

  lemma CarryLaw(op: C.CarryOp, size: Size, b: u32, a: u32)
    requires a < Modulus(size) && b < Modulus(size)
    ensures
      var x := C.Checked(op, size, b, a);
      CarryMeans(op, size, b, a, x.0, x.1)
  {
    match op
    case AddOp => QuotientOfSum(size, b, a);
    case SubOp => if b < a { QuotientIs(b - a, Modulus(size), -1, b - a + Modulus(size)); }
    case MulOp =>
      TimesIsProduct(b, a);
    case IMulOp =>
      var product := Signed(size, b) * Signed(size, a);
      CastIsRemainder(size, product);
      if -Modulus(size) <= 2 * product < Modulus(size) {
        SignedCast(size, product);
      }
  }

  lemma QuotientOfSum(size: Size, b: u32, a: u32)
    ensures Trunc(size, b + a) == (b + a) % Modulus(size)
  {
  }

  lemma DivisionTruncates(n: int, d: int)
    requires d != 0
    ensures Truncated(n, d, C.TruncDiv(n, d), n - d * C.TruncDiv(n, d))
  {
    hide Truncated;
    if n >= 0 {
      Remains(n, d);
      TruncatedFrom(n, d, n / d, n % d);
    } else {
      Remains(-n, d);
      Commuted(d, -n / d);
      TruncatedFrom(n, d, -(-n / d), -(-n % d));
    }
  }

  lemma TruncatedFrom(n: int, d: int, q: int, r: int)
    requires d != 0 && n - d * q == r
    requires if d > 0 then -d < r < d else d < r < -d
    requires (n >= 0 && r >= 0) || (n <= 0 && r <= 0)
    ensures Truncated(n, d, q, n - d * q)
  {
    Commuted(d, q);
    if n == 0 && q != 0 {
      Scaled(if d > 0 then d else -d, if d > 0 then q else -q, -1);
      Scaled(if d > 0 then d else -d, 1, if d > 0 then q else -q);
    }
  }

  lemma Commuted(a: int, b: int)
    ensures a * b == b * a
    ensures a * -b == -(a * b)
  {
  }

  lemma Remains(n: nat, d: int)
    requires d != 0
    ensures n - d * (n / d) == n % d
    ensures 0 <= n % d < if d > 0 then d else -d
  {
  }

  /** The quotient is no larger than the dividend. */
  lemma QuotientFits(size: Size, n: int, d: int, q: int, r: int)
    requires Truncated(n, d, q, r) && d != 0
    requires -Modulus(size) <= 2 * n < Modulus(size)
    requires !(2 * n == -Modulus(size) && d == -1)
    ensures -Modulus(size) <= 2 * q < Modulus(size)
  {
    if d > 0 {
      QuotientWithin(n, d, q, r);
    } else {
      Commuted(-d, q);
      Commuted(q, d);
      QuotientWithin(n, -d, -q, r);
      if d <= -2 && n < 0 {
        NotNegated(n, d, r);
      }
    }
  }

  lemma NotNegated(n: int, d: int, r: int)
    requires n < 0 && d <= -2 && r <= 0
    ensures n != -n * d + r
  {
    Scaled(-d - 1, n, n);
  }

  /** Dividing by a positive number moves towards zero. */
  lemma QuotientWithin(n: int, d: int, q: int, r: int)
    requires d > 0 && n == q * d + r && -d < r < d && (r > 0 ==> n > 0) && (r < 0 ==> n < 0)
    ensures n >= 0 ==> 0 <= q <= n
    ensures n <= 0 ==> n <= q <= 0
  {
    Scaled(d, q, -1);
    Scaled(d, 1, q);
    Scaled(d, q, q);
  }

  lemma QuotientLaw(size: Size, b: u32, a: u32)
    requires a < Modulus(size) && b < Modulus(size)
    ensures
      var r := C.SignedDivision(size, b, a, false);
      r.Some? ==> ZeroMeans(C.IDivOp, size, b, a, r.value)
  {
    hide Truncated, C.TruncDiv, Signed, Cast;
    var n, d := Signed(size, b), Signed(size, a);
    if d != 0 {
      var q := C.TruncDiv(n, d);
      DivisionTruncates(n, d);
      SignedRange(size, b);
      if !(2 * n == -Modulus(size) && d == -1) {
        QuotientFits(size, n, d, q, n - d * q);
        SignedCast(size, q);
      } else {
        SmallestNegated(size, n);
      }
    }
  }

  /** The one quotient that does not fit: the smallest number divided by minus one. */
  lemma SmallestNegated(size: Size, n: int)
    requires 2 * n == -Modulus(size)
    ensures 2 * Cast(size, C.TruncDiv(n, -1)) == Modulus(size)
  {
  }

  lemma RemainderLaw(size: Size, b: u32, a: u32)
    requires a < Modulus(size) && b < Modulus(size)
    ensures
      var r := C.SignedDivision(size, b, a, true);
      r.Some? ==> ZeroMeans(C.IRemOp, size, b, a, r.value)
  {
    hide C.TruncDiv, Signed, Cast;
    var n, d := Signed(size, b), Signed(size, a);
    if d != 0 {
      var q := C.TruncDiv(n, d);
      DivisionTruncates(n, d);
      SignedRange(size, a);
      SignedCast(size, n - d * q);
    }
  }

  lemma ShiftsLaw(op: C.ZeroOp, size: Size, b: u32, a: u32)
    requires op.SlaOp? || op.SrlOp? || op.SraOp? || op.RolOp? || op.RorOp?
    requires a < Modulus(size) && b < Modulus(size)
    ensures
      var r := C.Shifted(op, size, b, a);
      r.Some? ==> ZeroMeans(op, size, b, a, r.value)
  {
    hide TestBit, BitOr, ShiftLeft, ShiftRight, ShiftRightSigned, Signed;
    var w := Width(size);
    ShiftLeftLaw(size, b, a, 0);
    ShiftRightLaw(size, b, a, 0);
    SignedShiftLaw(size, b, a);
    if a <= w {
      RotatesLeft(size, b, a);
      RotatesRight(size, b, a);
    }
  }

  lemma RotatesLeft(size: Size, b: u32, a: u32)
    requires a <= Width(size) && b < Modulus(size)
    ensures
      var w := Width(size);
      var r := BitOr(size, ShiftLeft(size, b, a), ShiftRight(size, b, w - a));
      forall i: nat :: i < w ==> (TestBit(r, i) <==> TestBit(b, if i >= a then i - a else i + w - a))
  {
    hide TestBit, BitOr, ShiftLeft, ShiftRight;
    var w := Width(size);
    var r := BitOr(size, ShiftLeft(size, b, a), ShiftRight(size, b, w - a));
    forall i: nat | i < w
      ensures TestBit(r, i) <==> TestBit(b, if i >= a then i - a else i + w - a)
    {
      RotateLaw(size, b, a, i);
    }
  }

  lemma RotatesRight(size: Size, b: u32, a: u32)
    requires a <= Width(size) && b < Modulus(size)
    ensures
      var w := Width(size);
      var r := BitOr(size, ShiftRight(size, b, a), ShiftLeft(size, b, w - a));
      forall i: nat :: i < w ==> (TestBit(r, i) <==> TestBit(b, if i + a < w then i + a else i + a - w))
  {
    hide TestBit, BitOr, ShiftLeft, ShiftRight;
    var w := Width(size);
    var r := BitOr(size, ShiftRight(size, b, a), ShiftLeft(size, b, w - a));
    forall i: nat | i < w
      ensures TestBit(r, i) <==> TestBit(b, if i + a < w then i + a else i + a - w)
    {
      RotateLaw(size, b, w - a, i);
    }
  }

  lemma BitChangedLaw(size: Size, b: u32, a: u32, on: bool)
    requires a < Modulus(size) && b < Modulus(size)
    ensures
      var r := C.BitChanged(size, b, a, on);
      r.Some? ==> ZeroMeans(if on then C.BseOp else C.BclOp, size, b, a, r.value)
  {
    hide TestBit, BitOr, BitAnd, BitNot, Bit;
    if a < Width(size) {
      var mask := Bit(size, a);
      forall i: nat | i < Width(size)
        ensures TestBit(BitOr(size, b, mask), i) <==> i == a || TestBit(b, i)
        ensures TestBit(BitAnd(size, b, BitNot(size, mask)), i) <==> i != a && TestBit(b, i)
      {
        MaskLaw(size, a, i);
        NotLaw(size, mask, i);
        BitwiseLaws(size, b, mask, i);
        BitwiseLaws(size, b, BitNot(size, mask), i);
      }
    }
  }

  /** Every operation without overflow computes what it should. */
  lemma ZeroLaw(op: C.ZeroOp, size: Size, b: u32, a: u32)
    requires a < Modulus(size) && b < Modulus(size)
    ensures
      var r := C.Unchecked(op, size, b, a);
      r.Some? ==> ZeroMeans(op, size, b, a, r.value)
  {
    hide C.SignedDivision, C.Shifted, C.BitChanged, ZeroMeans;
    match op
    case DivOp | RemOp => DivisionLaw(op, size, b, a);
    case IDivOp => QuotientLaw(size, b, a);
    case IRemOp => RemainderLaw(size, b, a);
    case AndOp | XorOp | OrOp => LogicLaw(op, size, b, a);
    case BseOp => BitChangedLaw(size, b, a, true);
    case BclOp => BitChangedLaw(size, b, a, false);
    case _ => ShiftsLaw(op, size, b, a);
  }

  lemma DivisionLaw(op: C.ZeroOp, size: Size, b: u32, a: u32)
    requires op.DivOp? || op.RemOp?
    requires a < Modulus(size) && b < Modulus(size)
    ensures
      var r := C.Unchecked(op, size, b, a);
      r.Some? ==> ZeroMeans(op, size, b, a, r.value)
  {
    if a > 0 {
      QuotientSmaller(b, a);
    }
  }

  lemma LogicLaw(op: C.ZeroOp, size: Size, b: u32, a: u32)
    requires op.AndOp? || op.XorOp? || op.OrOp?
    requires a < Modulus(size) && b < Modulus(size)
    ensures
      var r := C.Unchecked(op, size, b, a);
      r.Some? ==> ZeroMeans(op, size, b, a, r.value)
  {
    hide TestBit, BitAnd, BitOr, BitXor;
    forall i: nat | i < Width(size)
      ensures TestBit(BitAnd(size, b, a), i) <==> TestBit(b, i) && TestBit(a, i)
      ensures TestBit(BitOr(size, b, a), i) <==> TestBit(b, i) || TestBit(a, i)
      ensures TestBit(BitXor(size, b, a), i) <==> TestBit(b, i) != TestBit(a, i)
    {
      BitwiseLaws(size, b, a, i);
    }
  }

  // ----- the Rust interpreter's results

  /** Result and flags of every two-operand operation of the Rust interpreter; a flag that
      is None is left alone.  A count or bit number is cut to the width, and the carry of a
      shift is a bit of the count. */
  ghost predicate CpuMeans(op: R.TwoOp, size: Size, left: u32, source: u32, alu: R.Alu) {
    var w, m, right, n := Width(size), Modulus(size), Trunc(size, source), source % Width(size);
    var r := alu.result;
    match op
    case Add => CarryMeans(C.AddOp, size, left, right, r, alu.carry == Some(true)) && Sets(alu, r == 0)
    case Sub | Cmp => CarryMeans(C.SubOp, size, left, right, r, alu.carry == Some(true)) && Sets(alu, r == 0)
    case Mul => CarryMeans(C.MulOp, size, left, right, r, alu.carry == Some(true)) && Sets(alu, r == 0)
    case Div => ZeroMeans(C.DivOp, size, left, right, r) && SetsZero(alu, r == 0)
    case Rem => ZeroMeans(C.RemOp, size, left, right, r) && SetsZero(alu, r == 0)
    case And => ZeroMeans(C.AndOp, size, left, right, r) && SetsZero(alu, r == 0)
    case Or => ZeroMeans(C.OrOp, size, left, right, r) && SetsZero(alu, r == 0)
    case Xor => ZeroMeans(C.XorOp, size, left, right, r) && SetsZero(alu, r == 0)
    case Bse => ZeroMeans(C.BseOp, size, left, n, r) && alu.zero.None? && alu.carry.None?
    case Bcl => ZeroMeans(C.BclOp, size, left, n, r) && alu.zero.None? && alu.carry.None?
    case Bts => SetsZero(alu, !TestBit(left, n))
    case Sla => ZeroMeans(C.SlaOp, size, left, n, r) && Sets(alu, r == 0) && alu.carry == Some(TestBit(source, w - 1))
    case Srl | Sra => ZeroMeans(C.SrlOp, size, left, n, r) && Sets(alu, r == 0) && alu.carry == Some(TestBit(source, 0))
    case Rol => ZeroMeans(C.RolOp, size, left, n, r) && Sets(alu, r == 0) && alu.carry == Some(TestBit(source, w - 1))
    case Ror => ZeroMeans(C.RorOp, size, left, n, r) && Sets(alu, r == 0) && alu.carry == Some(TestBit(source, 0))
  }

  predicate Sets(alu: R.Alu, zero: bool) {
    alu.zero == Some(zero) && alu.carry.Some?
  }

  predicate SetsZero(alu: R.Alu, zero: bool) {
    alu.zero == Some(zero) && alu.carry.None?
  }

  lemma CpuCarryLaw(op: R.TwoOp, size: Size, left: u32, source: u32)
    requires op.Add? || op.Sub? || op.Mul? || op.Cmp?
    requires left < Modulus(size)
    ensures R.Compute(op, size, left, source).Some?
    ensures CpuMeans(op, size, left, source, R.Compute(op, size, left, source).value)
  {
    hide CarryMeans;
    var c := if op.Add? then C.AddOp else if op.Mul? then C.MulOp else C.SubOp;
    CarryLaw(c, size, left, Trunc(size, source));
  }

  lemma CpuZeroLaw(op: R.TwoOp, size: Size, left: u32, source: u32)
    requires op.Div? || op.Rem? || op.And? || op.Or? || op.Xor?
    requires left < Modulus(size)
    ensures
      var alu := R.Compute(op, size, left, source);
      alu.Some? ==> CpuMeans(op, size, left, source, alu.value)
  {
    hide ZeroMeans, BitAnd, BitOr, BitXor;
    var right := Trunc(size, source);
    match op
    case Div => ZeroLaw(C.DivOp, size, left, right);
    case Rem => ZeroLaw(C.RemOp, size, left, right);
    case And => ZeroLaw(C.AndOp, size, left, right);
    case Or => ZeroLaw(C.OrOp, size, left, right);
    case Xor => ZeroLaw(C.XorOp, size, left, right);
  }

  lemma CpuBitLaw(op: R.TwoOp, size: Size, left: u32, source: u32)
    requires op.Bse? || op.Bcl? || op.Bts?
    requires left < Modulus(size)
    ensures R.Compute(op, size, left, source).Some?
    ensures CpuMeans(op, size, left, source, R.Compute(op, size, left, source).value)
  {
    hide ZeroMeans, BitAnd, BitOr, BitNot, Bit, TestBit;
    var n := source % Width(size);
    BitChangedLaw(size, left, n, true);
    BitChangedLaw(size, left, n, false);
    MaskedBit(size, left, n);
  }

  /** Masking one bit leaves nothing exactly when the bit is clear. */
  lemma MaskedBit(size: Size, v: u32, n: nat)
    requires v < Modulus(size) && n < Width(size)
    ensures BitAnd(size, v, Bit(size, n)) == 0 <==> !TestBit(v, n)
  {
    hide TestBit, BitAnd, Bit;
    var masked := BitAnd(size, v, Bit(size, n));
    Pow2OfWidth(size);
    if TestBit(v, n) {
      BitwiseLaws(size, v, Bit(size, n), n);
      MaskLaw(size, n, n);
      ZeroBit(n);
    } else {
      forall i: nat | i < Width(size)
        ensures TestBit(masked, i) == TestBit(0, i)
      {
        BitwiseLaws(size, v, Bit(size, n), i);
        MaskLaw(size, n, i);
        ZeroBit(i);
      }
      BitsDetermine(Width(size), masked, 0);
    }
  }

  lemma ZeroBit(i: nat)
    ensures !TestBit(0, i)
  {
    QuotientIs(0, Pow2(i), 0, 0);
  }

  lemma CpuShiftLaw(op: R.TwoOp, size: Size, left: u32, source: u32)
    requires op.Sla? || op.Sra? || op.Srl?
    requires left < Modulus(size)
    ensures R.Compute(op, size, left, source).Some?
    ensures CpuMeans(op, size, left, source, R.Compute(op, size, left, source).value)
  {
    hide TestBit, ShiftLeft, ShiftRight, Signed;
    var n := source % Width(size);
    ShiftLeftLaw(size, left, n, 0);
    ShiftRightLaw(size, left, n, 0);
  }

  lemma CpuRotateLaw(op: R.TwoOp, size: Size, left: u32, source: u32)
    requires op.Rol? || op.Ror?
    requires left < Modulus(size)
    ensures R.Compute(op, size, left, source).Some?
    ensures CpuMeans(op, size, left, source, R.Compute(op, size, left, source).value)
  {
    hide TestBit, ZeroMeans, R.Rotated, Signed;
    var w, n := Width(size), source % Width(size);
    RotatedMeans(size, left, n);
  }

  lemma RotatedMeans(size: Size, v: u32, n: nat)
    requires v < Modulus(size) && n < Width(size)
    ensures ZeroMeans(C.RolOp, size, v, n, R.Rotated(size, v, n))
    ensures ZeroMeans(C.RorOp, size, v, n, R.Rotated(size, v, Width(size) - n))
  {
    hide TestBit, BitOr, ShiftLeft, ShiftRight, Signed;
    RotatesLeft(size, v, n);
    RotatesLeft(size, v, Width(size) - n);
  }

  /** Every two-operand operation of the Rust interpreter computes what it should. */
  lemma CpuLaw(op: R.TwoOp, size: Size, left: u32, source: u32)
    requires left < Modulus(size)
    ensures
      var alu := R.Compute(op, size, left, source);
      alu.Some? ==> CpuMeans(op, size, left, source, alu.value)
  {
    hide CpuMeans, R.Compute;
    match op
    case Add | Sub | Mul | Cmp => CpuCarryLaw(op, size, left, source);
    case Div | Rem | And | Or | Xor => CpuZeroLaw(op, size, left, source);
    case Bse | Bcl | Bts => CpuBitLaw(op, size, left, source);
    case Sla | Sra | Srl => CpuShiftLaw(op, size, left, source);
    case Rol | Ror => CpuRotateLaw(op, size, left, source);
  }

  // ----- what a step of the C interpreter leaves behind

  /** A register write: the low bits hold the value, and the high bits are kept, or zero
      if asked for. */
  predicate RegisterHolds(size: Size, before: u32, after: u32, value: u32, zero: bool) {
    && after % Modulus(size) == value
    && after / Modulus(size) == if zero then 0 else before / Modulus(size)
  }

  /** The registers and the stack pointer, of which one register has been written. */
  predicate RegisterWritten(vm: C.Vm, after: C.Vm, size: Size, n: u8, value: u32, zero: bool) {
    && n <= 32 && after.ram == vm.ram
    && (n < 32 ==>
         && RegisterHolds(size, vm.registers[n], after.registers[n], value, zero)
         && after.registers == vm.registers[n := after.registers[n]]
         && after.pointerStack == vm.pointerStack)
    && (n == 32 ==>
         RegisterHolds(size, vm.pointerStack, after.pointerStack, value, zero) && after.registers == vm.registers)
  }

  /** Memory, of which one place has been written. */
  predicate PlaceWritten(vm: C.Vm, after: C.Vm, size: Size, address: u32, value: u32) {
    && after.registers == vm.registers && after.pointerStack == vm.pointerStack
    && address + Bytes(size) <= RAM_SIZE
    && Load(size, after.ram, address) == value
    && after.ram[..address] == vm.ram[..address]
    && after.ram[address + Bytes(size)..] == vm.ram[address + Bytes(size)..]
  }

  /** The destination operand at the cursor holds the value, and nothing else in memory or
      registers has changed. */
  predicate Written(vm: C.Vm, after: C.Vm, size: Size, prtype: u8, value: u32, zero: bool) {
    if prtype == C.TY_IMMPTR then
      var pointer := C.Read(vm, Word, vm.pointerInstrMut);
      pointer.Done? && PlaceWritten(vm, after, size, pointer.value, value)
    else
      var local := C.Read(vm, Byte, vm.pointerInstrMut);
      && local.Done? && local.value <= 32
      && if prtype == C.TY_REG then RegisterWritten(vm, after, size, local.value, value, zero)
         else PlaceWritten(vm, after, size, C.GetLocal(vm, local.value).value, value)
  }

  lemma MergeHolds(size: Size, whole: u32, value: u32)
    requires value < Modulus(size)
    ensures RegisterHolds(size, whole, Merge(size, whole, value), value, false)
    ensures RegisterHolds(size, whole, value, value, true)
  {
    hide Merge;
  }

  lemma PlaceSet(vm: C.Vm, size: Size, address: u32, value: u32)
    requires C.Write(vm, size, address, value).Done? && value < Modulus(size)
    ensures PlaceWritten(vm, C.Write(vm, size, address, value).vm, size, address, value)
  {
    hide Load, Le;
    LoadStore(size, vm.ram, address, value);
    StoreIsSplice(size, vm.ram, address, value);
  }

  /** The parts of the state a destination write leaves alone, and where the cursor is. */
  predicate OnlyOperand(vm: C.Vm, after: C.Vm, size: Size, prtype: u8) {
    after == vm.(
      registers := after.registers, pointerStack := after.pointerStack, ram := after.ram,
      pointerInstrMut := Add32(vm.pointerInstrMut, C.OperandBytes(size, prtype)))
  }

  lemma WritesThrough(vm: C.Vm, size: Size, n: u32, address: u32, value: u32)
    requires C.Write(C.Advance(vm, n), size, address, value).Done? && value < Modulus(size)
    ensures
      var after := C.Write(C.Advance(vm, n), size, address, value).vm;
      && PlaceWritten(vm, after, size, address, value)
      && after == vm.(ram := after.ram, pointerInstrMut := Add32(vm.pointerInstrMut, n))
  {
    hide Store, Load;
    PlaceSet(C.Advance(vm, n), size, address, value);
  }

  lemma SetsRegister(vm: C.Vm, size: Size, n: u8, value: u32, zero: bool)
    requires n <= 32 && value < Modulus(size)
    ensures
      var w := if zero then value else Merge(size, C.GetLocal(vm, n).value, value);
      var after := C.SetLocal(C.Advance(vm, 1), n, w);
      && RegisterWritten(vm, after, size, n, value, zero)
      && OnlyOperand(vm, after, size, C.TY_REG)
  {
    hide Merge, RegisterHolds;
    MergeHolds(size, C.GetLocal(vm, n).value, value);
  }

  lemma ReadIgnoresCursor(vm: C.Vm, n: u32, size: Size, address: u32)
    ensures C.Read(C.Advance(vm, n), size, address).Done? <==> C.Read(vm, size, address).Done?
    ensures C.Read(vm, size, address).Done? ==>
      && C.Read(vm, size, address) == C.Done(vm, C.Read(vm, size, address).value)
      && C.Read(C.Advance(vm, n), size, address) == C.Done(C.Advance(vm, n), C.Read(vm, size, address).value)
  {
    hide Fetch;
  }

  /** A completed destination write has written the operand and nothing else. */
  lemma TargetWrites(vm: C.Vm, size: Size, prtype: u8, value: u32, zero: bool)
    requires prtype < 4 && value < Modulus(size) && C.Target(vm, size, prtype, value, zero).Done?
    ensures Written(vm, C.Target(vm, size, prtype, value, zero).vm, size, prtype, value, zero)
    ensures OnlyOperand(vm, C.Target(vm, size, prtype, value, zero).vm, size, prtype)
  {
    hide C.Read, C.Write, RegisterWritten, PlaceWritten, Merge;
    var base := vm.pointerInstrMut;
    if prtype == C.TY_IMMPTR {
      ReadIgnoresCursor(vm, 4, Word, base);
      WritesThrough(vm, size, 4, C.Read(vm, Word, base).value, value);
    } else {
      ReadIgnoresCursor(vm, 1, Byte, base);
      var n := C.Read(vm, Byte, base).value;
      if prtype == C.TY_REG {
        SetsRegister(vm, size, n, value, zero);
      } else {
        WritesThrough(vm, size, 1, C.GetLocal(vm, n).value, value);
      }
    }
  }
}
