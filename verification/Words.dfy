/** Fixed-width machine words as bounded integers, with every wrap-around written out. */
module Words {
  const TWO31: int := 0x8000_0000
  const TWO32: int := 0x1_0000_0000
  const TWO64: int := 0x1_0000_0000_0000_0000

  /** A `uint32_t`. */
  type Word = x: int | 0 <= x < 0x1_0000_0000

  /** A `uint8_t`. */
  type Byte = x: int | 0 <= x < 0x100

  /** A host general-purpose register. */
  type Quad = x: int | 0 <= x < 0x1_0000_0000_0000_0000

  /** Conversion of an arbitrary integer to `uint32_t`. */
  function Wrap(x: int): Word {
    x % TWO32
  }

  lemma WrapOfWord(w: Word)
    ensures Wrap(w) == w
  {
  }

  /** Wrapping a summand first changes nothing. */
  lemma WrapAbsorbs(x: int, y: int)
    ensures Wrap(Wrap(x) + y) == Wrap(x + y)
  {
    var q := x / TWO32;
    assert Wrap(x) + y == x + y - TWO32 * q;
  }

  /** Conversion of an arbitrary integer to `uint64_t`. */
  function Wrap64(x: int): Quad {
    x % TWO64
  }

  /** The value of a word read as `int32_t`. */
  function Signed(w: Word): int {
    if w < TWO31 then w else w - TWO32
  }

  /** The value of a 64-bit register read as `int64_t`. */
  function Signed64(q: Quad): int {
    if q < TWO64 / 2 then q else q - TWO64
  }

  function Quotient(n: int, d: int): int
    requires d != 0
  {
    n / d
  }

  function Remainder(n: int, d: int): int
    requires d != 0
  {
    n % d
  }

  function Pow2(n: nat): (p: nat)
    ensures p >= 1
  {
    if n == 0 then 1 else 2 * Pow2(n - 1)
  }

  datatype Logic = AndBits | OrBits | XorBits

  predicate OnBits(op: Logic, x: bool, y: bool) {
    match op
    case AndBits => x && y
    case OrBits => x || y
    case XorBits => x != y
  }

  /** A bitwise operation, one bit at a time. */
  function Bitwise(op: Logic, a: nat, b: nat): nat
    decreases a + b
  {
    if a == 0 && b == 0 then 0
    else (if OnBits(op, a % 2 == 1, b % 2 == 1) then 1 else 0) + 2 * Bitwise(op, a / 2, b / 2)
  }

  lemma {:induction false} BitwiseBound(op: Logic, a: nat, b: nat, n: nat)
    requires a < Pow2(n) && b < Pow2(n)
    ensures Bitwise(op, a, b) < Pow2(n)
    decreases n
  {
    if n > 0 {
      BitwiseBound(op, a / 2, b / 2, n - 1);
    }
  }

  lemma Pow2Add(m: nat, n: nat)
    ensures Pow2(m + n) == Pow2(m) * Pow2(n)
  {
    if n > 0 {
      Pow2Add(m, n - 1);
      assert Pow2(m + n) == 2 * Pow2(m + (n - 1));
    }
  }

  lemma Pow2Of32()
    ensures Pow2(32) == TWO32 && Pow2(31) == TWO31
  {
    assert Pow2(8) == 0x100;
    Pow2Add(8, 8);
    Pow2Add(16, 8);
    Pow2Add(24, 8);
    assert Pow2(32) == 2 * Pow2(31);
  }

  function LogicOp(op: Logic, a: Word, b: Word): Word {
    Pow2Of32();
    BitwiseBound(op, a, b, 32);
    Bitwise(op, a, b)
  }

  lemma {:induction false} BitwiseCommutes(op: Logic, a: nat, b: nat)
    ensures Bitwise(op, a, b) == Bitwise(op, b, a)
    decreases a + b
  {
    if a != 0 || b != 0 {
      BitwiseCommutes(op, a / 2, b / 2);
    }
  }

  lemma LogicCommutes(op: Logic, a: Word, b: Word)
    ensures LogicOp(op, a, b) == LogicOp(op, b, a)
  {
    BitwiseCommutes(op, a, b);
  }

  /** Shifts, one position at a time. */
  function ShiftLeft(a: Word, n: nat): Word
    decreases n
  {
    if n == 0 then a else ShiftLeft(Wrap(2 * a), n - 1)
  }

  function ShiftRight(a: Word, n: nat): Word
    decreases n
  {
    if n == 0 then a else ShiftRight(a / 2, n - 1)
  }

  /** The arithmetic shift: each position keeps the sign bit. */
  function ShiftRightSigned(a: Word, n: nat): Word
    decreases n
  {
    if n == 0 then a else ShiftRightSigned(a / 2 + (if a >= TWO31 then TWO31 else 0), n - 1)
  }

  lemma Pow2Monotone(m: nat, n: nat)
    requires m <= n
    ensures Pow2(m) <= Pow2(n)
  {
    if m < n {
      Pow2Monotone(m, n - 1);
    }
  }

  lemma Pow2Values()
    ensures Pow2(11) == 0x800 && Pow2(12) == 0x1000 && Pow2(20) == 0x10_0000
  {
    assert Pow2(4) == 0x10;
    Pow2Add(4, 4);
    Pow2Add(8, 3);
    Pow2Add(8, 4);
    Pow2Add(12, 8);
  }
}
