/**
  What the arithmetic, the bit operations and the memory of the reference machine mean, in plain arithmetic. The host
  instructions are built from the same functions, so these laws are also what the host computes.
 */
module IsaLaws {
  import opened Words
  import opened Collections
  import Isa

  // ---- words and their signed values ----

  /** The signed value of a word is the one number of the 32-bit signed range that wraps to it. */
  lemma SignedMeans(w: Word, x: int)
    ensures Signed(w) == x <==> -0x8000_0000 <= x < 0x8000_0000 && x % 0x1_0000_0000 == w
  {
  }

  lemma Signed64Means(q: Quad, x: int)
    ensures Signed64(q) == x <==>
      -0x8000_0000_0000_0000 <= x < 0x8000_0000_0000_0000 && x % 0x1_0000_0000_0000_0000 == q
  {
  }

  // ---- division ----

  lemma NonZeroTimes(k: int, d: int)
    requires d > 0 && k != 0
    ensures k * d >= d || k * d <= -d
  {
  }

  /** Quotient and remainder are determined by what they are for. */
  lemma DivisionIs(n: int, d: int, q: int, r: int)
    requires d > 0 && n == q * d + r && 0 <= r < d
    ensures n / d == q && n % d == r
  {
    var k := q - n / d;
    assert k * d == n % d - r;
    if k != 0 { NonZeroTimes(k, d); }
  }

  /** Halving and then dividing by `p` is dividing by `2 * p`, rounding down, whatever the sign. */
  lemma HalfThenDivide(n: int, p: int)
    requires p > 0
    ensures n / 2 / p == n / (2 * p)
  {
    var h := n / 2;
    var q, s := h / p, h % p;
    assert n == 2 * h + n % 2 && h == q * p + s;
    assert n == q * (2 * p) + (2 * s + n % 2);
    DivisionIs(n, 2 * p, q, 2 * s + n % 2);
  }

  lemma Euclid(n: int, d: int)
    requires d > 0
    ensures n == d * (n / d) + n % d && 0 <= n % d < d
  {
  }

  lemma QuotientIsSmall(n: nat, d: nat)
    requires d > 0
    ensures 0 <= n / d <= n && (d > 1 && n > 0 ==> n / d < n)
  {
    var q := n / d;
    assert n == q * d + n % d;
    assert q * d == q + q * (d - 1);
    if d > 1 && q > 0 { assert q * (d - 1) >= q; }
  }

  /** Section 7.2, unsigned: the dividend is divisor times quotient plus a remainder below the divisor. */
  lemma UnsignedDivision(a: Word, b: Word)
    requires b != 0
    ensures var q, r := Isa.MulDivResult(Isa.Divu, a, b), Isa.MulDivResult(Isa.Remu, a, b);
      a == b * q + r && r < b
  {
    Euclid(a, b);
    QuotientIsSmall(a, b);
    hide Wrap;
    WrapOfWord(a / b);
    WrapOfWord(a % b);
  }

  lemma Signs(d: int, k: int)
    ensures (-d) * k == -(d * k) && d * (-k) == -(d * k) && (-d) * (-k) == d * k
  {
  }

  /** The quotient towards zero times the divisor, in absolute values. */
  lemma TruncTimes(x: int, y: int)
    requires y != 0
    ensures var n: int, d: int := Isa.Abs(x), Isa.Abs(y);
      && Isa.Abs(Isa.TruncDiv(x, y)) == n / d
      && y * Isa.TruncDiv(x, y) == if x < 0 then -(d * (n / d)) else d * (n / d)
  {
    var n: int, d: int := Isa.Abs(x), Isa.Abs(y);
    var k: int := n / d;
    Signs(d, k);
    QuotientIsSmall(n, d);
    assert y == d || y == -d;
    assert Isa.TruncDiv(x, y) == if (x < 0) == (y < 0) then k else -k;
    hide Isa.TruncDiv;
  }

  /** Rounding towards zero. */
  lemma TruncMeans(x: int, y: int)
    requires y != 0
    ensures var q, r := Isa.TruncDiv(x, y), Isa.TruncRem(x, y);
      && x == y * q + r && Isa.Abs(r) < Isa.Abs(y) && (r == 0 || (r < 0) == (x < 0))
      && Isa.Abs(q) <= Isa.Abs(x) && (Isa.Abs(y) > 1 && x != 0 ==> Isa.Abs(q) < Isa.Abs(x))
  {
    var n: int, d: int := Isa.Abs(x), Isa.Abs(y);
    Euclid(n, d);
    QuotientIsSmall(n, d);
    TruncTimes(x, y);
    hide Isa.TruncDiv;
    assert Isa.TruncRem(x, y) == if x < 0 then -(n % d) else n % d;
  }

  /**
    Section 7.2, signed and off the overflow: the dividend is divisor times quotient plus a remainder that is smaller
    than the divisor and has the sign of the dividend.
   */
  lemma SignedDivision(a: Word, b: Word)
    requires b != 0 && !(a == 0x8000_0000 && b == 0xffff_ffff)
    ensures
      var q, r := Signed(Isa.MulDivResult(Isa.Div, a, b)), Signed(Isa.MulDivResult(Isa.Rem, a, b));
      && Signed(a) == Signed(b) * q + r
      && (if r < 0 then -r else r) < (if Signed(b) < 0 then -Signed(b) else Signed(b))
      && (r == 0 || (r < 0) == (Signed(a) < 0))
  {
    var x, y := Signed(a), Signed(b);
    TruncMeans(x, y);
    hide Isa.TruncDiv, Isa.TruncRem;
    var q, r := Isa.TruncDiv(x, y), Isa.TruncRem(x, y);
    if x == -0x8000_0000 && Isa.Abs(y) == 1 {
      assert y == 1;
      assert y * q == q;
    }
    assert -0x8000_0000 <= q < 0x8000_0000;
    SignedMeans(Wrap(q), q);
    SignedMeans(Wrap(r), r);
  }

  /** Table 7.1: a zero divisor, and the overflow. */
  lemma EdgesOfDivision(a: Word)
    ensures Isa.MulDivResult(Isa.Div, a, 0) == Isa.MulDivResult(Isa.Divu, a, 0) == 0xffff_ffff
    ensures Isa.MulDivResult(Isa.Rem, a, 0) == Isa.MulDivResult(Isa.Remu, a, 0) == a
    ensures Isa.MulDivResult(Isa.Div, 0x8000_0000, 0xffff_ffff) == 0x8000_0000
    ensures Isa.MulDivResult(Isa.Rem, 0x8000_0000, 0xffff_ffff) == 0
  {
    TruncMeans(-0x8000_0000, -1);
    assert -1 * Isa.TruncDiv(-0x8000_0000, -1) == -Isa.TruncDiv(-0x8000_0000, -1);
  }

  // ---- multiplication ----

  lemma TimesMonotone(x: int, y: int, m: nat)
    requires x <= y
    ensures x * m <= y * m
  {
    assert y * m == x * m + (y - x) * m;
  }

  /** A 32-bit signed number times a number below 2^32 fits 64 bits. */
  lemma ProductFits(x: int, y: int)
    requires -0x8000_0000 <= x < 0x8000_0000 && -0x1_0000_0000 < y < 0x1_0000_0000
    ensures -0x8000_0000_0000_0000 <= x * y < 0x8000_0000_0000_0000
  {
    var m: nat := if y < 0 then -y else y;
    TimesMonotone(x, 0x7fff_ffff, m);
    TimesMonotone(-0x8000_0000, x, m);
    Signs(x, m);
  }

  /** A number that fits 64 bits, from its two halves. */
  lemma HighAndLow(p: int)
    requires -0x8000_0000_0000_0000 <= p < 0x8000_0000_0000_0000
    ensures p == 0x1_0000_0000 * Signed(Wrap(p / 0x1_0000_0000)) + Wrap(p)
  {
    SignedMeans(Wrap(p / 0x1_0000_0000), p / 0x1_0000_0000);
  }

  lemma WrapDrops(x: int, k: int)
    ensures Wrap(x - 0x1_0000_0000 * k) == Wrap(x)
  {
    DivisionIs(x - 0x1_0000_0000 * k, 0x1_0000_0000, x / 0x1_0000_0000 - k, x % 0x1_0000_0000);
  }

  /** The lower word of a product does not depend on how the factors are signed. */
  lemma LowWord(a: Word, b: Word)
    ensures Wrap(Signed(a) * b) == Wrap(a * b) && Wrap(Signed(a) * Signed(b)) == Wrap(a * b)
  {
    var i, j: int := (if a < 0x8000_0000 then 0 else 1), if b < 0x8000_0000 then 0 else 1;
    var x: int, y: int := Signed(a), Signed(b);
    assert x == a - 0x1_0000_0000 * i && y == b - 0x1_0000_0000 * j;
    assert x * b == a * b - 0x1_0000_0000 * (i * b);
    WrapDrops(a * b, i * b);
    assert x * y == x * b - 0x1_0000_0000 * (x * j);
    WrapDrops(x * b, x * j);
  }

  lemma UpperWord(a: Word, b: Word)
    ensures a * b == 0x1_0000_0000 * Wrap(a * b / 0x1_0000_0000) + Wrap(a * b)
  {
    var p: int := a * b;
    TimesMonotone(a, 0xffff_ffff, b);
    TimesMonotone(b, 0xffff_ffff, 0xffff_ffff);
    WrapOfWord(p / 0x1_0000_0000);
  }

  /** Section 7.1: the upper and the lower word together are the whole product, for each choice of signs. */
  lemma Multiplication(a: Word, b: Word)
    ensures
      var low := Isa.MulDivResult(Isa.Mul, a, b);
      && Signed(a) * Signed(b) == 0x1_0000_0000 * Signed(Isa.MulDivResult(Isa.Mulh, a, b)) + low
      && Signed(a) * b == 0x1_0000_0000 * Signed(Isa.MulDivResult(Isa.Mulhsu, a, b)) + low
      && a * b == 0x1_0000_0000 * Isa.MulDivResult(Isa.Mulhu, a, b) + low
  {
    var x: int, y: int, u: int, v: int := Signed(a), Signed(b), a, b;
    ProductFits(x, y);
    ProductFits(x, v);
    LowWord(a, b);
    HighAndLow(x * y);
    HighAndLow(x * v);
    UpperWord(a, b);
    hide Wrap, Signed;
  }

  // ---- shifts ----

  lemma WrapTimes(x: int, p: int)
    ensures Wrap(Wrap(x) * p) == Wrap(x * p)
  {
    var k := x / 0x1_0000_0000;
    assert Wrap(x) == x - 0x1_0000_0000 * k;
    assert Wrap(x) * p == x * p - 0x1_0000_0000 * (k * p);
    WrapDrops(x * p, k * p);
  }

  lemma {:induction false} ShiftLeftMeans(a: Word, n: nat)
    ensures ShiftLeft(a, n) == Wrap(a * Pow2(n))
    decreases n
  {
    if n > 0 {
      ShiftLeftMeans(Wrap(2 * a), n - 1);
      WrapTimes(2 * a, Pow2(n - 1));
      assert (2 * a) * Pow2(n - 1) == a * Pow2(n);
    }
  }

  lemma {:induction false} ShiftRightMeans(a: Word, n: nat)
    ensures ShiftRight(a, n) == a / Pow2(n)
    decreases n
  {
    if n > 0 {
      ShiftRightMeans(a / 2, n - 1);
      HalfThenDivide(a, Pow2(n - 1));
    }
  }

  /** An arithmetic shift divides the signed value, rounding down. */
  lemma {:induction false} ShiftRightSignedMeans(a: Word, n: nat)
    ensures Signed(ShiftRightSigned(a, n)) == Signed(a) / Pow2(n)
    decreases n
  {
    if n > 0 {
      var half: Word := a / 2 + if a >= TWO31 then TWO31 else 0;
      assert Signed(half) == Signed(a) / 2;
      ShiftRightSignedMeans(half, n - 1);
      HalfThenDivide(Signed(a), Pow2(n - 1));
    }
  }

  // ---- bits ----

  /** Bit `i` of a number. */
  predicate Bit(a: nat, i: nat) {
    a / Pow2(i) % 2 == 1
  }

  lemma BitOfHalf(a: nat, i: nat)
    ensures if i == 0 then Bit(a, i) <==> a % 2 == 1 else Bit(a, i) <==> Bit(a / 2, i - 1)
  {
    if i == 0 {
      assert a / 1 == a;
    } else {
      HalfThenDivide(a, Pow2(i - 1));
    }
  }

  lemma BitwiseHalf(op: Logic, a: nat, b: nat)
    ensures var r := Bitwise(op, a, b);
      (r % 2 == 1 <==> OnBits(op, a % 2 == 1, b % 2 == 1)) && r / 2 == Bitwise(op, a / 2, b / 2)
  {
  }

  lemma {:induction false} BitwiseBit(op: Logic, a: nat, b: nat, i: nat)
    ensures Bit(Bitwise(op, a, b), i) <==> OnBits(op, Bit(a, i), Bit(b, i))
    decreases i
  {
    hide Bit, Bitwise;
    BitwiseHalf(op, a, b);
    BitOfHalf(Bitwise(op, a, b), i);
    BitOfHalf(a, i);
    BitOfHalf(b, i);
    if i > 0 {
      BitwiseBit(op, a / 2, b / 2, i - 1);
    }
  }

  lemma {:induction false} BitwiseSums(a: nat, b: nat)
    ensures Bitwise(AndBits, a, b) + Bitwise(OrBits, a, b) == a + b
    ensures Bitwise(XorBits, a, b) + 2 * Bitwise(AndBits, a, b) == a + b
    decreases a + b
  {
    if a != 0 || b != 0 {
      BitwiseSums(a / 2, b / 2);
    }
  }

  /** The three bitwise instructions, bit by bit, and what that makes of the values. */
  lemma BitwiseMeans(a: Word, b: Word, i: nat)
    ensures
      var both, any, one := Isa.Alu(Isa.AndOp, a, b), Isa.Alu(Isa.OrOp, a, b), Isa.Alu(Isa.XorOp, a, b);
      && (Bit(both, i) <==> Bit(a, i) && Bit(b, i))
      && (Bit(any, i) <==> Bit(a, i) || Bit(b, i))
      && (Bit(one, i) <==> Bit(a, i) != Bit(b, i))
      && both + any == a + b && one + 2 * both == a + b
  {
    BitwiseBit(AndBits, a, b, i);
    BitwiseBit(OrBits, a, b, i);
    BitwiseBit(XorBits, a, b, i);
    BitwiseSums(a, b);
    hide Bit, Bitwise;
  }

  /** The other register-register instructions of section 2.4, in plain arithmetic. */
  lemma AluMeans(a: Word, b: Word)
    ensures Isa.Alu(Isa.Add, a, b) == (a + b) % 0x1_0000_0000
    ensures Isa.Alu(Isa.Sub, a, b) == (a - b) % 0x1_0000_0000
    ensures Isa.Alu(Isa.Sltu, a, b) == if a < b then 1 else 0
    ensures Isa.Alu(Isa.Slt, a, b) == if Signed(a) < Signed(b) then 1 else 0
    ensures Isa.Alu(Isa.Sll, a, b) == a * Pow2(b % 32) % 0x1_0000_0000
    ensures Isa.Alu(Isa.Srl, a, b) == a / Pow2(b % 32)
    ensures Signed(Isa.Alu(Isa.Sra, a, b)) == Signed(a) / Pow2(b % 32)
  {
    ShiftLeftMeans(a, b % 32);
    ShiftRightMeans(a, b % 32);
    ShiftRightSignedMeans(a, b % 32);
    hide ShiftLeft, ShiftRight, ShiftRightSigned, Pow2, Signed;
  }

  // ---- memory ----

  /** The lowest byte is at the lowest address. */
  lemma ReadIsLittleEndian(m: Isa.Mem, a: Word)
    ensures Isa.Read(m, a, Isa.Half16).Some? ==>
      var low, high := Isa.Read(m, a, Isa.Byte8), Isa.Read(m, Wrap(a + 1), Isa.Byte8);
      low.Some? && high.Some? && Isa.Read(m, a, Isa.Half16).value == low.value + 0x100 * high.value
    ensures Isa.Read(m, a, Isa.Word32).Some? ==>
      var low, high := Isa.Read(m, a, Isa.Half16), Isa.Read(m, Wrap(a + 2), Isa.Half16);
      low.Some? && high.Some? && Isa.Read(m, a, Isa.Word32).value == low.value + 0x1_0000 * high.value
    ensures Isa.Read(m, a, Isa.Byte8) == if a in m then Some(m[a]) else None
  {
  }

  lemma BytesMakeValue(v: Word)
    ensures v % 0x1_0000 == v % 0x100 + 0x100 * (v / 0x100 % 0x100)
    ensures v == v % 0x100 + 0x100 * (v / 0x100 % 0x100) + 0x1_0000 * (v / 0x1_0000 % 0x100)
                 + 0x100_0000 * (v / 0x100_0000)
  {
  }

  lemma ReadOverPut(m: Isa.Mem, a: Word, size: Isa.Size, b0: Byte, b1: Byte, b2: Byte, b3: Byte)
    requires Isa.Read(m, a, size).Some?
    ensures Isa.Read(Isa.PutBytes(m, a, size, b0, b1, b2, b3), a, size) == Some(
      match size
      case Byte8 => b0
      case Half16 => b0 + 0x100 * b1
      case Word32 => b0 + 0x100 * b1 + 0x1_0000 * b2 + 0x100_0000 * b3)
  {
  }

  /** What was written is read back, as far as the size goes. */
  lemma ReadOverWrite(m: Isa.Mem, a: Word, size: Isa.Size, v: Word)
    requires Isa.Write(m, a, size, v).Some?
    ensures Isa.Read(Isa.Write(m, a, size, v).value, a, size) == Some(v % Isa.Span(size))
  {
    BytesMakeValue(v);
    ReadOverPut(m, a, size, v % 0x100, v / 0x100 % 0x100, v / 0x1_0000 % 0x100, v / 0x100_0000);
    hide Isa.Read, Isa.PutBytes;
  }

  /** A write succeeds where a read does, and moves no byte outside its range. */
  lemma WriteIsLocal(m: Isa.Mem, a: Word, size: Isa.Size, v: Word, b: Word, other: Isa.Size)
    requires Isa.Write(m, a, size, v).Some? && (b + Isa.Width(other) <= a || a + Isa.Width(size) <= b)
    ensures Isa.Read(Isa.Write(m, a, size, v).value, b, other) == Isa.Read(m, b, other)
  {
  }

  predicate Mapped(m: Isa.Mem, b: int) {
    0 <= b < TWO32 && b in m
  }

  /** An access succeeds exactly if all its bytes are mapped; reads and writes alike. */
  lemma AccessNeedsBytes(m: Isa.Mem, a: Word, size: Isa.Size, v: Word)
    ensures Isa.Write(m, a, size, v).Some? <==> Isa.Read(m, a, size).Some?
    ensures Isa.Read(m, a, size).Some? <==> forall b :: a <= b < a + Isa.Width(size) ==> Mapped(m, b)
  {
    if forall b :: a <= b < a + Isa.Width(size) ==> Mapped(m, b) {
      assert Mapped(m, a);
      assert size != Isa.Byte8 ==> Mapped(m, a + 1);
      assert size == Isa.Word32 ==> Mapped(m, a + 2) && Mapped(m, a + 3);
    }
  }

  /** How many bytes each load reads. */
  lemma LoadWidths(op: Isa.LoadOp)
    ensures Isa.Width(Isa.LoadSize(op)) == if op in {Isa.Lb, Isa.Lbu} then 1 else if op == Isa.Lw then 4 else 2
    ensures Isa.Span(Isa.LoadSize(op)) == Pow2(8 * Isa.Width(Isa.LoadSize(op)))
  {
    Pow2Of32();
    Pow2Add(8, 8);
    assert Pow2(8) == 0x100;
  }

  /** What a load makes of the bytes it read: the value as it is, or read as signed. */
  lemma ExtendMeans(v: Word)
    ensures Isa.Extend(Isa.Lbu, v) == Isa.Extend(Isa.Lhu, v) == Isa.Extend(Isa.Lw, v) == v
    ensures v < 0x100 ==> var x := Signed(Isa.Extend(Isa.Lb, v)); -0x80 <= x < 0x80 && x % 0x100 == v
    ensures v < 0x1_0000 ==> var x := Signed(Isa.Extend(Isa.Lh, v)); -0x8000 <= x < 0x8000 && x % 0x1_0000 == v
  {
  }
}
