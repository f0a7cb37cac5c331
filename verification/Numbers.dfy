/** Printing and parsing numbers in the ROM: the decimal and hexadecimal digit loops
    (fox32rom/draw_text.asm) and string_to_int (fox32rom/integer.asm). */
module Numbers {
  import opened Words
  import opened WordArrays

  const MODULUS: int := 0x1_0000_0000

  // ----- what a string of digits means

  /** The digit a character stands for, as string_to_int reads it; None for characters
      it skips. */
  function DigitOf(character: u8): Option<nat> {
    if '0' as int <= character <= '9' as int then Some(character - '0' as int)
    else if 'A' as int <= character <= 'Z' as int then Some(character - 'A' as int + 10)
    else if 'a' as int <= character <= 'z' as int then Some(character - 'a' as int + 10)
    else None
  }

  function Digits(text: seq<u8>): seq<nat> {
    if text == [] then []
    else
      Digits(text[..|text| - 1])
      + match DigitOf(text[|text| - 1])
        case Some(d) => [d]
        case None => []
  }

  /** Decimal digits and letters of either case stand for 0 to 35, and nothing else stands
      for a digit. */
  lemma DigitCharacters(c: u8)
    ensures 0x30 <= c <= 0x39 ==> DigitOf(c) == Some(c - 0x30)
    ensures 0x41 <= c <= 0x5A ==> DigitOf(c) == DigitOf(c + 0x20) == Some(10 + c - 0x41)
    ensures
      DigitOf(c).None? <==> !(0x30 <= c <= 0x39 || 0x41 <= c <= 0x5A || 0x61 <= c <= 0x7A)
  {
  }

  /** The text with its lower-case letters made upper-case. */
  function UpperCase(text: seq<u8>): seq<u8> {
    seq(|text|, i requires 0 <= i < |text| => if 0x61 <= text[i] <= 0x7A then text[i] - 0x20 else text[i])
  }

  /** A text and its upper-case form have the same digits. */
  lemma {:induction false} CaseDoesNotMatter(text: seq<u8>)
    ensures Digits(UpperCase(text)) == Digits(text)
    decreases |text|
  {
    if text != [] {
      var init, c := text[..|text| - 1], text[|text| - 1];
      var upper := UpperCase(text);
      CaseDoesNotMatter(init);
      assert upper[..|upper| - 1] == UpperCase(init);
      if 0x61 <= c <= 0x7A {
        DigitCharacters(c - 0x20);
      }
    }
  }

  /** The positional value of digits, most significant first. */
  function Positional(digits: seq<nat>, radix: nat): nat {
    if digits == [] then 0 else Positional(digits[..|digits| - 1], radix) * radix + digits[|digits| - 1]
  }

  lemma PositionalSnoc(digits: seq<nat>, d: nat, radix: nat)
    ensures Positional(digits + [d], radix) == Positional(digits, radix) * radix + d
  {
    assert (digits + [d])[..|digits|] == digits;
  }

  lemma DigitsSnoc(text: seq<u8>, c: u8)
    ensures Digits(text + [c]) == Digits(text) + match DigitOf(c) case Some(d) => [d] case None => []
  {
    assert (text + [c])[..|text|] == text;
  }

  // ----- parsing

  /** 32-bit multiplication. */
  function Mul32(a: u32, b: u32): u32 {
    Product(a, b) % MODULUS
  }

  function Product(a: nat, b: nat): nat {
    a * b
  }

  /** Reducing before multiplying does not change the residue. */
  lemma MulAddResidue(a: nat, b: u32, d: nat)
    requires d < 0x100
    ensures Add32(Mul32(a % MODULUS, b), d) == (Product(a, b) + d) % MODULUS
  {
    var q, r := a / MODULUS, a % MODULUS;
    assert a == MODULUS * q + r;
    assert Product(a, b) == MODULUS * Product(q, b) + Product(r, b) by {
      Spread(q, r, b);
    }
    Residue(Product(q, b), Product(r, b), d);
  }

  lemma Spread(q: nat, r: nat, b: nat)
    ensures Product(MODULUS * q + r, b) == MODULUS * Product(q, b) + Product(r, b)
  {
  }

  lemma Residue(m: nat, p: nat, d: nat)
    requires d < 0x100
    ensures Add32(p % MODULUS, d) == (MODULUS * m + p + d) % MODULUS
  {
    var k, s := p / MODULUS, p % MODULUS;
    assert MODULUS * m + p + d == MODULUS * (m + k) + (s + d);
    ModOfSum(m + k, s + d);
  }

  lemma ModOfSum(q: nat, r: nat)
    ensures (MODULUS * q + r) % MODULUS == r % MODULUS
  {
  }

  /** The characters from an address up to the terminator at `end`. */
  predicate Terminated(memory: seq<u8>, at: nat, end: nat) {
    && at <= end < |memory| <= MODULUS - 1
    && memory[end] == 0
    && forall k :: at <= k < end ==> memory[k] != 0
  }

  /** string_to_int: the value of the alphanumeric characters, modulo 2^32; all other
      characters are skipped. */
  method StringToInt(memory: array<u8>, start: u32, radix: u32, ghost end: nat) returns (value: u32)
    requires Terminated(memory[..], start, end)
    ensures value == Positional(Digits(memory[start..end]), radix) % MODULUS
    ensures value == Positional(Digits(UpperCase(memory[start..end])), radix) % MODULUS
  {
    hide Digits, Positional, Mul32, UpperCase;
    CaseDoesNotMatter(memory[start..end]);
    var r0 := start;
    var r3: u32 := 0;
    EmptyText(radix);
    assert memory[start..r0] == [];
    while true
      invariant start <= r0 <= end
      invariant r3 == Positional(Digits(memory[start..r0]), radix) % MODULUS
      decreases end - r0
    {
      var r2: u32 := memory[r0];
      ghost var text := memory[start..r0];
      r0 := r0 + 1;
      if r2 == 0 {
        break;
      }
      assert memory[start..r0] == text + [memory[r0 - 1]];
      DigitsSnoc(text, memory[r0 - 1]);
      if '0' as int <= r2 <= '9' as int {
        r2 := r2 - '0' as int;
      } else if 'A' as int <= r2 <= 'Z' as int {
        r2 := r2 - 0x37;
      } else if 'a' as int <= r2 <= 'z' as int {
        r2 := r2 - 0x57;
      } else {
        assert Digits(text) + [] == Digits(text);
        continue;
      }
      PositionalSnoc(Digits(text), r2, radix);
      MulAddResidue(Positional(Digits(text), radix), radix, r2);
      r3 := Mul32(r3, radix);
      r3 := Add32(r3, r2);
    }
    value := r3;
  }

  lemma EmptyText(radix: nat)
    ensures Positional(Digits([]), radix) == 0
  {
  }

  // ----- printing in decimal

  /** The decimal digits of a number, as characters. */
  function Decimal(n: nat): (text: seq<u8>)
    ensures text != [] && forall k :: 0 <= k < |text| ==> '0' as int <= text[k] <= '9' as int
  {
    if n < 10 then ['0' as int + n] else Decimal(n / 10) + ['0' as int + n % 10]
  }

  lemma DecimalShort(n: nat)
    ensures n < 0x1_0000_0000 ==> |Decimal(n)| <= 10
  {
    if n < 0x1_0000_0000 {
      DecimalBound(n, 10, 10_000_000_000);
    }
  }

  lemma {:induction false} DecimalBound(n: nat, k: nat, power: nat)
    requires k > 0 && n < power && power == PowTen(k)
    ensures |Decimal(n)| <= k
    decreases k
  {
    if n >= 10 {
      assert k > 1 by {
        assert PowTen(1) == 10;
      }
      DecimalBound(n / 10, k - 1, PowTen(k - 1));
    }
  }

  function PowTen(k: nat): nat {
    if k == 0 then 1 else 10 * PowTen(k - 1)
  }

  /** One round of the decimal digit loop: the number is pushed and popped again, and
      its last digit is pushed as a byte. */
  method PushDigit(ram: array<u8>, sp: u32, r12: u32) returns (sp': u32, quotient: u32)
    requires 4 <= sp <= ram.Length <= MODULUS - 1
    modifies ram
    ensures sp' == sp - 1 && quotient == r12 / 10
    ensures ram[sp'] == '0' as int + r12 % 10
    ensures ram[sp..] == old(ram[sp..])
  {
    hide Store, Load;
    ghost var before := ram[..];
    WriteWord(ram, sp - 4, r12);
    ScratchBelow(before, ram[..], sp, r12);
    assert before[sp..] == ram[sp..] == ram[..][sp..];
    quotient := r12 / 10;
    var r13 := ReadWord(ram, sp - 4);
    r13 := r13 % 10;
    var r11 := Add32(r13, '0' as int);
    sp' := sp - 1;
    ram[sp'] := r11;
  }

  /** The decimal digit loop: digits are pushed as bytes below the terminator, the last
      first.  Gives the stack pointer, where the finished string begins. */
  method DecimalString(ram: array<u8>, rsp: u32, value: u32) returns (r0: u32)
    requires 16 <= rsp <= ram.Length <= MODULUS - 1
    modifies ram
    ensures r0 + |Decimal(value)| + 1 == rsp
    ensures ram[r0..rsp] == Decimal(value) + [0]
    ensures ram[rsp..] == old(ram[rsp..])
  {
    hide Decimal;
    DecimalShort(value);
    ghost var tail := [0] + ram[rsp..];
    var sp := rsp - 1;
    ram[sp] := 0;
    var r12 := value;
    ghost var text: seq<u8> := [];
    assert Decimal(r12) + text == Decimal(value);
    assert ram[sp..] == text + tail;
    while true
      invariant Decimal(r12) + text == Decimal(value)
      invariant sp + |text| + 1 == rsp
      invariant ram[sp..] == text + tail
      decreases r12
    {
      var digit: u8 := '0' as int + r12 % 10;
      LastDigit(r12);
      TextGrows(Decimal(r12 / 10), digit, text);
      sp, r12 := PushDigit(ram, sp, r12);
      assert ram[sp..] == [digit] + (text + tail);
      TextGrows([], digit, text);
      text := [digit] + text;
      if r12 == 0 {
        break;
      }
    }
    r0 := sp;
    SplitText(ram[..], r0, rsp, text, tail[1..]);
  }

  lemma SplitText(mem: seq<u8>, r0: nat, rsp: nat, text: seq<u8>, rest: seq<u8>)
    requires r0 + |text| + 1 == rsp <= |mem| && mem[r0..] == text + ([0] + rest)
    ensures mem[r0..rsp] == text + [0] && mem[rsp..] == rest
  {
    SliceOfSlice(mem, r0, |mem|, 0, |text| + 1);
    SliceOfSlice(mem, r0, |mem|, |text| + 1, |mem| - r0);
  }

  lemma TextGrows(a: seq<u8>, digit: u8, text: seq<u8>)
    ensures (a + [digit]) + text == a + ([digit] + text)
  {
  }

  /** Pushing and popping a word changes only bytes below the stack pointer. */
  lemma ScratchBelow(before: seq<u8>, after: seq<u8>, sp: nat, v: u32)
    requires 4 <= sp <= |before| && after == Store(Word, before, sp - 4, v)
    ensures Load(Word, after, sp - 4) == v && after[sp..] == before[sp..]
  {
    hide Load, Store, Le;
    LoadStore(Word, before, sp - 4, v);
    StoreIsSplice(Word, before, sp - 4, v);
  }

  lemma LastDigit(n: nat)
    ensures n >= 10 ==> Decimal(n) == Decimal(n / 10) + ['0' as int + n % 10]
    ensures n < 10 ==> Decimal(n) == ['0' as int + n % 10]
  {
  }

  // ----- printing in hexadecimal

  /** The character table. */
  function HexCharacter(nibble: nat): (c: u8)
    requires nibble < 16
    ensures DigitOf(c) == Some(nibble)
  {
    if nibble < 10 then '0' as int + nibble else 'A' as int + (nibble - 10)
  }

  function PowSixteen(k: nat): nat
    requires k <= 8
  {
    match k
    case 0 => 1
    case 1 => 0x10
    case 2 => 0x100
    case 3 => 0x1000
    case 4 => 0x1_0000
    case 5 => 0x10_0000
    case 6 => 0x100_0000
    case 7 => 0x1000_0000
    case 8 => 0x1_0000_0000
  }

  /** The word rotated left by four bits. */
  function Rol4(v: u32): u32 {
    v % 0x1000_0000 * 0x10 + v / 0x1000_0000
  }

  /** The word rotated left by 4k bits. */
  function Rotated(n: u32, k: nat): nat
    requires k <= 8
  {
    n % PowSixteen(8 - k) * PowSixteen(k) + n / PowSixteen(8 - k)
  }

  /** A word whose parts, from the top, are a, one nibble b, and c. */
  lemma PartsDivide(a: nat, b: nat, c: nat, k: nat)
    requires k < 8 && a < PowSixteen(k) && b < 0x10 && c < PowSixteen(7 - k)
    ensures
      var n := a * PowSixteen(8 - k) + b * PowSixteen(7 - k) + c;
      && n < MODULUS
      && n / PowSixteen(8 - k) == a && n % PowSixteen(8 - k) == b * PowSixteen(7 - k) + c
      && n / PowSixteen(7 - k) == a * 0x10 + b && n % PowSixteen(7 - k) == c
  {
    match k
    case 0 =>
    case 1 =>
    case 2 =>
    case 3 =>
    case 4 =>
    case 5 =>
    case 6 =>
    case 7 =>
  }

  /** Its parts, put together in rotated order. */
  lemma PartsRotate(a: nat, b: nat, c: nat, k: nat)
    requires k < 8 && a < PowSixteen(k) && b < 0x10 && c < PowSixteen(7 - k)
    ensures (b * PowSixteen(7 - k) + c) * PowSixteen(k) + a == b * 0x1000_0000 + (c * PowSixteen(k) + a)
    ensures c * PowSixteen(k) + a < 0x1000_0000
    ensures c * PowSixteen(k + 1) + (a * 0x10 + b) == (c * PowSixteen(k) + a) * 0x10 + b
  {
    match k
    case 0 =>
    case 1 =>
    case 2 =>
    case 3 =>
    case 4 =>
    case 5 =>
    case 6 =>
    case 7 =>
  }

  lemma WordParts(n: u32, k: nat) returns (a: nat, b: nat, c: nat)
    requires k < 8
    ensures a < PowSixteen(k) && b < 0x10 && c < PowSixteen(7 - k)
    ensures n == a * PowSixteen(8 - k) + b * PowSixteen(7 - k) + c
  {
    a, b, c := n / PowSixteen(7 - k) / 0x10, n / PowSixteen(7 - k) % 0x10, n % PowSixteen(7 - k);
    match k
    case 0 =>
    case 1 =>
    case 2 =>
    case 3 =>
    case 4 =>
    case 5 =>
    case 6 =>
    case 7 =>
  }

  /** Both rotations, from the word's parts. */
  lemma RotatedParts(n: u32, a: nat, b: nat, c: nat, k: nat)
    requires k < 8 && a < PowSixteen(k) && b < 0x10 && c < PowSixteen(7 - k)
    requires n == a * PowSixteen(8 - k) + b * PowSixteen(7 - k) + c
    ensures
      var low := c * PowSixteen(k) + a;
      && low < 0x1000_0000
      && Rotated(n, k) == b * 0x1000_0000 + low
      && Rotated(n, k + 1) == low * 0x10 + b
      && n / PowSixteen(7 - k) % 0x10 == b
  {
    PartsDivide(a, b, c, k);
    PartsRotate(a, b, c, k);
    hide PowSixteen;
    NibbleOf(a, b);
  }

  lemma NibbleOf(a: nat, b: nat)
    requires b < 0x10
    ensures (a * 0x10 + b) % 0x10 == b
  {
  }

  lemma RotateOnce(n: u32, k: nat)
    requires k < 8
    ensures Rotated(n, k) < MODULUS && Rotated(n, k + 1) < MODULUS
    ensures Rol4(Rotated(n, k)) == Rotated(n, k + 1)
    ensures Rotated(n, k + 1) % 0x10 == n / PowSixteen(7 - k) % 0x10
  {
    hide PowSixteen, Rotated, Rol4;
    var a, b, c := WordParts(n, k);
    RotatedParts(n, a, b, c, k);
    RotateTop(b, c * PowSixteen(k) + a);
  }

  lemma RotateTop(b: nat, low: nat)
    requires b < 0x10 && low < 0x1000_0000
    ensures Rol4(b * 0x1000_0000 + low) == low * 0x10 + b
    ensures (low * 0x10 + b) % 0x10 == b
  {
  }

  /** The first k characters of the eight-digit form. */
  function Hexadecimal(n: u32, k: nat): (text: seq<u8>)
    requires k <= 8
    ensures |text| == k
  {
    if k == 0 then [] else Hexadecimal(n, k - 1) + [HexCharacter(n / PowSixteen(8 - k) % 0x10)]
  }

  /** The rotate-based hex loop: eight characters, in the order they are drawn. */
  method HexString(value: u32) returns (drawn: seq<u8>)
    ensures drawn == Hexadecimal(value, 8)
  {
    hide Rotated, Rol4, HexCharacter, PowSixteen;
    var r10 := value;
    var r31: u32 := 8;
    drawn := [];
    ghost var k := 0;
    RotatedNone(value);
    while true
      invariant 0 <= k < 8 && r31 == 8 - k
      invariant r10 == Rotated(value, k)
      invariant drawn == Hexadecimal(value, k)
      decreases r31
    {
      RotateOnce(value, k);
      r10 := Rol4(r10);
      LowNibble(r10);
      var r11 := r10 % 0x1_0000 % 0x10;
      drawn := drawn + [HexCharacter(r11)];
      k := k + 1;
      r31 := Sub32(r31, 1);
      if r31 == 0 {
        break;
      }
    }
  }

  lemma LowNibble(v: u32)
    ensures v % 0x1_0000 % 0x10 == v % 0x10
  {
  }

  lemma RotatedNone(n: u32)
    ensures Rotated(n, 0) == n
  {
  }

  // ----- round trips

  lemma {:induction false} DecimalValue(n: nat)
    ensures Positional(Digits(Decimal(n)), 10) == n
    decreases n
  {
    hide Decimal, Digits, Positional;
    LastDigit(n);
    var last: u8 := '0' as int + n % 10;
    EmptyText(10);
    if n >= 10 {
      DecimalValue(n / 10);
      DigitsSnoc(Decimal(n / 10), last);
      PositionalSnoc(Digits(Decimal(n / 10)), n % 10, 10);
    } else {
      DigitsSnoc([], last);
      PositionalSnoc(Digits([]), n, 10);
      assert [] + [last] == [last];
    }
  }

  lemma {:induction false} HexValue(n: u32, k: nat)
    requires k <= 8
    ensures Positional(Digits(Hexadecimal(n, k)), 16) == n / PowSixteen(8 - k)
    decreases k
  {
    hide Digits, Positional, HexCharacter;
    EmptyText(16);
    if k > 0 {
      HexValue(n, k - 1);
      var nibble := n / PowSixteen(8 - k) % 0x10;
      DigitsSnoc(Hexadecimal(n, k - 1), HexCharacter(nibble));
      PositionalSnoc(Digits(Hexadecimal(n, k - 1)), nibble, 16);
      NextNibble(n, k);
    }
  }

  lemma NextNibble(n: u32, k: nat)
    requires 0 < k <= 8
    ensures n / PowSixteen(9 - k) * 16 + n / PowSixteen(8 - k) % 0x10 == n / PowSixteen(8 - k)
  {
    match k
    case 1 =>
    case 2 =>
    case 3 =>
    case 4 =>
    case 5 =>
    case 6 =>
    case 7 =>
    case 8 =>
  }

  /** What string_to_int gives for the printed forms: the number itself, in both
      notations. */
  lemma PrintedParsesBack(n: u32)
    ensures Positional(Digits(Decimal(n)), 10) % MODULUS == n
    ensures Positional(Digits(Hexadecimal(n, 8)), 16) % MODULUS == n
  {
    hide Positional, Digits, Decimal, Hexadecimal;
    DecimalValue(n);
    HexValue(n, 8);
  }

  lemma {:induction false} HexPrintable(n: u32, k: nat)
    requires k <= 8
    ensures forall i :: 0 <= i < |Hexadecimal(n, k)| ==> Hexadecimal(n, k)[i] != 0
  {
    hide HexCharacter;
    if k > 0 {
      HexPrintable(n, k - 1);
      assert HexCharacter(n / PowSixteen(8 - k) % 0x10) != 0;
    }
  }

  /** A text without terminators, followed by one, is terminated where it ends. */
  lemma TextTerminated(memory: seq<u8>, at: nat, text: seq<u8>)
    requires at + |text| < |memory| <= MODULUS - 1
    requires memory[at..at + |text| + 1] == text + [0]
    requires forall i :: 0 <= i < |text| ==> text[i] != 0
    ensures Terminated(memory, at, at + |text|) && memory[at..at + |text|] == text
  {
    var field := memory[at..at + |text| + 1];
    assert memory[at + |text|] == field[|text|];
    forall k | at <= k < at + |text|
      ensures memory[k] == text[k - at]
    {
      assert memory[k] == field[k - at];
    }
  }

  /** The two routines on the same memory: the string the digit loop leaves on the stack
      parses back to the number. */
  method DecimalRoundTrip(ram: array<u8>, rsp: u32, value: u32) returns (parsed: u32)
    requires 16 <= rsp <= ram.Length <= MODULUS - 1
    modifies ram
    ensures parsed == value
    ensures ram[rsp..] == old(ram[rsp..])
  {
    hide Decimal, Digits, Positional, Hexadecimal;
    var r0 := DecimalString(ram, rsp, value);
    ghost var memory := ram[..];
    assert memory[r0..rsp] == ram[r0..rsp];
    TextTerminated(memory, r0, Decimal(value));
    assert memory[r0..rsp - 1] == ram[r0..rsp - 1];
    PrintedParsesBack(value);
    parsed := StringToInt(ram, r0, 10, rsp - 1);
  }

  /** The characters the hex loop draws, stored with a terminator, parse back too. */
  method HexRoundTrip(ram: array<u8>, at: u32, value: u32) returns (parsed: u32)
    requires at + 9 <= ram.Length <= MODULUS - 1
    modifies ram
    ensures parsed == value
  {
    hide Digits, Positional, Decimal, Hexadecimal;
    var drawn := HexString(value);
    for i := 0 to 8
      invariant ram[at..at + i] == drawn[..i]
    {
      ram[at + i] := drawn[i];
    }
    ram[at + 8] := 0;
    assert ram[at..at + 9] == drawn + [0];
    ghost var memory := ram[..];
    assert memory[at..at + 9] == ram[at..at + 9];
    HexPrintable(value, 8);
    TextTerminated(memory, at, drawn);
    assert memory[at..at + 8] == ram[at..at + 8];
    PrintedParsesBack(value);
    parsed := StringToInt(ram, at, 16, at + 8);
  }
}
