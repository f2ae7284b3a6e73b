/** Unsigned 16-bit words and the arithmetic the emulator performs on them,
    with C#'s integer promotion, overflow and casts written out. */
module Words {

  /** C#'s `ushort`: the type of a memory cell, a register, a stack entry and IP. */
  type UShort = x: int | 0 <= x < 0x1_0000

  /** C#'s `byte`: the element type of a program image. */
  type Byte = x: int | 0 <= x < 0x100

  /** MAX_VALUE: the number of memory cells, the modulus of address and word
      arithmetic, and the encoding of the first register operand. */
  const MaxValue: int := 32768

  /** A 15-bit value, the range every arithmetic result is meant to stay in. */
  predicate IsWord(x: int) {
    0 <= x < MaxValue
  }

  /** AddWords: the sum reduced modulo 32768. */
  function AddWords(a: UShort, b: UShort): (r: UShort)
    ensures IsWord(r)
    ensures (a + b - r) % MaxValue == 0
    ensures a + b < MaxValue ==> r == a + b
  {
    (a + b) % MaxValue
  }

  /** `(ushort)((b * c) % MAX_VALUE)` as C# evaluates it: both operands are
      promoted to a 32-bit `int`, the product wraps around silently, `%`
      truncates toward zero (so a negative product leaves a negative
      remainder) and the cast keeps the low 16 bits. */
  function Mult(b: UShort, c: UShort): (r: UShort)
    ensures IsWord(b) && IsWord(c) ==> r == (b * c) % MaxValue
  {
    var product := Int32Product(b, c);
    var remainder := TruncatedRemainder(product, MaxValue);
    if remainder >= 0 then remainder else remainder + 0x1_0000
  }

  /** C#'s `%` on `int`: the remainder takes the sign of the dividend. */
  function TruncatedRemainder(x: int, m: int): (r: int)
    requires m > 0
    ensures -m < r < m
    ensures x >= 0 ==> r == x % m
  {
    if x >= 0 then x % m else -((-x) % m)
  }

  /** The product of two promoted `ushort`s in unchecked 32-bit arithmetic. */
  function Int32Product(b: UShort, c: UShort): (p: int)
    ensures -0x8000_0000 <= p < 0x8000_0000
    ensures IsWord(b) && IsWord(c) ==> 0 <= p == b * c
  {
    ProductBound(b, c);
    var exact := b * c;
    if exact < 0x8000_0000 then exact else exact - 0x1_0000_0000
  }

  /** Bounds on the exact product of two `ushort`s. */
  lemma ProductBound(b: UShort, c: UShort)
    ensures 0 <= b * c <= 0xFFFF * 0xFFFF
    ensures IsWord(b) && IsWord(c) ==> b * c <= 0x7FFF * 0x7FFF
  {
    MulMonotone(b, 0xFFFF, c);
    MulMonotone(c, 0xFFFF, 0xFFFF);
    if IsWord(b) && IsWord(c) {
      MulMonotone(b, 0x7FFF, c);
      MulMonotone(c, 0x7FFF, 0x7FFF);
    }
  }

  lemma MulMonotone(x: nat, y: nat, z: nat)
    requires x <= y
    ensures x * z <= y * z
  {
  }

  /** The product of the two largest `ushort`s: the exact product is 1 modulo
      32768, but the wrapped 32-bit product leaves 32769 in the destination. */
  lemma MultOverflowExample()
    ensures (0xFFFF * 0xFFFF) % MaxValue == 1
    ensures Mult(0xFFFF, 0xFFFF) == 32769
  {
  }

  /** 2 to the power `n`. */
  function Pow2(n: nat): (p: nat)
    ensures p >= 1
  {
    if n == 0 then 1 else 2 * Pow2(n - 1)
  }

  /** The bitwise and of the low `width` bits of `b` and `c`, bit by bit from
      the least significant one. */
  function AndBits(b: nat, c: nat, width: nat): (r: nat)
    ensures r < Pow2(width)
    ensures r <= b && r <= c
  {
    if width == 0 then 0
    else 2 * AndBits(b / 2, c / 2, width - 1) + (if b % 2 == 1 && c % 2 == 1 then 1 else 0)
  }

  /** The bitwise or of the low `width` bits of `b` and `c`. */
  function OrBits(b: nat, c: nat, width: nat): (r: nat)
    ensures r < Pow2(width)
    ensures b < Pow2(width) ==> b <= r
    ensures c < Pow2(width) ==> c <= r
  {
    if width == 0 then 0
    else 2 * OrBits(b / 2, c / 2, width - 1) + (if b % 2 == 1 || c % 2 == 1 then 1 else 0)
  }

  /** Or-ing two numbers below 2^k leaves no bit at k or above. */
  lemma {:induction false} OrBitsBelow(b: nat, c: nat, width: nat, k: nat)
    requires k <= width && b < Pow2(k) && c < Pow2(k)
    ensures OrBits(b, c, width) < Pow2(k)
  {
    if k == 0 {
      assert b == 0 && c == 0;
      OrBitsOfZero(width);
    } else {
      OrBitsBelow(b / 2, c / 2, width - 1, k - 1);
    }
  }

  lemma {:induction false} OrBitsOfZero(width: nat)
    ensures OrBits(0, 0, width) == 0
  {
    if width > 0 {
      OrBitsOfZero(width - 1);
    }
  }

  /** The complement of the low `width` bits of `b`. */
  function NotBits(b: nat, width: nat): (r: nat)
    ensures r == Pow2(width) - 1 - b % Pow2(width)
  {
    if width == 0 then 0
    else
      LowBits(b, width);
      2 * NotBits(b / 2, width - 1) + (1 - b % 2)
  }

  /** The low `width` bits of `b` are its lowest bit and the low `width - 1`
      bits of `b / 2`. */
  lemma LowBits(b: nat, width: nat)
    requires width > 0
    ensures b % Pow2(width) == 2 * ((b / 2) % Pow2(width - 1)) + b % 2
  {
    var p := Pow2(width - 1);
    var k := (b / 2) / p;
    var low := 2 * ((b / 2) % p) + b % 2;
    assert b / 2 == p * k + (b / 2) % p;
    assert b == (2 * p) * k + low;
    ModUnique(b, 2 * p, k, low);
  }

  /** Quotient and remainder are determined by any decomposition with a
      remainder in range. */
  lemma ModUnique(x: nat, m: nat, k: nat, r: nat)
    requires 0 <= r < m && x == m * k + r
    ensures x % m == r
    ensures x / m == k
  {
    var d := k - x / m;
    assert m * d == x % m - r;
    if d >= 1 {
      MulMonotone(1, d, m);
    } else if d <= -1 {
      MulMonotone(1, -d, m);
    }
  }

  lemma Pow2Values()
    ensures Pow2(15) == MaxValue
    ensures Pow2(16) == 0x1_0000
  {
    assert Pow2(1) == 2;
    assert Pow2(2) == 4;
    assert Pow2(3) == 8;
    assert Pow2(4) == 16;
    assert Pow2(5) == 32;
    assert Pow2(6) == 64;
    assert Pow2(7) == 128;
    assert Pow2(8) == 256;
    assert Pow2(9) == 512;
    assert Pow2(10) == 1024;
    assert Pow2(11) == 2048;
    assert Pow2(12) == 4096;
    assert Pow2(13) == 8192;
    assert Pow2(14) == 16384;
  }

  /** Bit `k` of `x`, counting the least significant bit as bit 0. */
  function Bit(x: nat, k: nat): nat {
    (x / Pow2(k)) % 2
  }

  lemma BitZero(x: nat)
    ensures Bit(x, 0) == x % 2
  {
    assert Pow2(0) == 1;
  }

  /** The bits of 2 * x + low: `low` at the bottom, then those of x. */
  lemma BitOfDouble(x: nat, low: nat, k: nat)
    requires low < 2
    ensures Bit(2 * x + low, k) == if k == 0 then low else Bit(x, k - 1)
  {
    if k == 0 {
      BitZero(2 * x + low);
    } else {
      HalfBit(2 * x + low, k);
      assert (2 * x + low) / 2 == x;
    }
  }

  /** Halving a number shifts its bits down by one place. */
  lemma HalfBit(x: nat, k: nat)
    requires k >= 1
    ensures Bit(x, k) == Bit(x / 2, k - 1)
  {
    var p := Pow2(k - 1);
    var q := (x / 2) / p;
    var r := (x / 2) % p;
    assert x / 2 == p * q + r;
    assert x == (2 * p) * q + (2 * r + x % 2);
    ModUnique(x, 2 * p, q, 2 * r + x % 2);
  }

  /** Bit k of AndBits is the and of bit k of the operands. */
  lemma {:induction false} AndBitsBit(b: nat, c: nat, width: nat, k: nat)
    requires k < width
    ensures Bit(AndBits(b, c, width), k) == if Bit(b, k) == 1 && Bit(c, k) == 1 then 1 else 0
  {
    var rest := AndBits(b / 2, c / 2, width - 1);
    var low := if b % 2 == 1 && c % 2 == 1 then 1 else 0;
    assert AndBits(b, c, width) == 2 * rest + low;
    BitOfDouble(rest, low, k);
    if k == 0 {
      BitZero(b);
      BitZero(c);
    } else {
      AndBitsBit(b / 2, c / 2, width - 1, k - 1);
      HalfBit(b, k);
      HalfBit(c, k);
    }
  }

  /** Bit k of OrBits is the or of bit k of the operands. */
  lemma {:induction false} OrBitsBit(b: nat, c: nat, width: nat, k: nat)
    requires k < width
    ensures Bit(OrBits(b, c, width), k) == if Bit(b, k) == 1 || Bit(c, k) == 1 then 1 else 0
  {
    var rest := OrBits(b / 2, c / 2, width - 1);
    var low := if b % 2 == 1 || c % 2 == 1 then 1 else 0;
    assert OrBits(b, c, width) == 2 * rest + low;
    BitOfDouble(rest, low, k);
    if k == 0 {
      BitZero(b);
      BitZero(c);
    } else {
      OrBitsBit(b / 2, c / 2, width - 1, k - 1);
      HalfBit(b, k);
      HalfBit(c, k);
    }
  }

  lemma AndBitsAllBits(b: nat, c: nat, width: nat)
    ensures forall k: nat :: k < width ==>
      Bit(AndBits(b, c, width), k) == if Bit(b, k) == 1 && Bit(c, k) == 1 then 1 else 0
  {
    forall k: nat | k < width
      ensures Bit(AndBits(b, c, width), k) == if Bit(b, k) == 1 && Bit(c, k) == 1 then 1 else 0
    {
      AndBitsBit(b, c, width, k);
    }
  }

  lemma OrBitsAllBits(b: nat, c: nat, width: nat)
    ensures forall k: nat :: k < width ==>
      Bit(OrBits(b, c, width), k) == if Bit(b, k) == 1 || Bit(c, k) == 1 then 1 else 0
  {
    forall k: nat | k < width
      ensures Bit(OrBits(b, c, width), k) == if Bit(b, k) == 1 || Bit(c, k) == 1 then 1 else 0
    {
      OrBitsBit(b, c, width, k);
    }
  }

  /** `(ushort)(b & c)`: each of the 16 bits is the and of the operands' bits. */
  function BitAnd(b: UShort, c: UShort): (r: UShort)
    ensures forall k: nat :: k < 16 ==> Bit(r, k) == if Bit(b, k) == 1 && Bit(c, k) == 1 then 1 else 0
    ensures r <= b && r <= c
  {
    Pow2Values();
    AndBitsAllBits(b, c, 16);
    AndBits(b, c, 16)
  }

  /** `(ushort)(b | c)`: each of the 16 bits is the or of the operands' bits,
      and two 15-bit words give a 15-bit word. */
  function BitOr(b: UShort, c: UShort): (r: UShort)
    ensures forall k: nat :: k < 16 ==> Bit(r, k) == if Bit(b, k) == 1 || Bit(c, k) == 1 then 1 else 0
    ensures b <= r && c <= r
    ensures IsWord(b) && IsWord(c) ==> IsWord(r)
  {
    Pow2Values();
    OrBitsAllBits(b, c, 16);
    if IsWord(b) && IsWord(c) then OrBitsBelow(b, c, 16, 15); OrBits(b, c, 16)
    else OrBits(b, c, 16)
  }

  /** `(ushort)(~b & 0x7FFF)`: the complement of the low 15 bits of `b`. */
  function Not15(b: UShort): (r: UShort)
    ensures IsWord(r)
    ensures r == MaxValue - 1 - b % MaxValue
  {
    Pow2Values();
    NotBits(b, 15)
  }
}
