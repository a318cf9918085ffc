/** Fixed-width integers and the C bit operators on them.

    An unsigned C value is its number; where a signed C value is only ever masked,
    shifted or stored, it is kept as its two's-complement pattern.  `x >> k` is
    `x / 2^k`, and `x & (2^k - 1)` is `x % 2^k`. */
module MachineInts {
  type u8 = x: int | 0 <= x < 0x100
  type u16 = x: int | 0 <= x < 0x1_0000
  type u32 = x: int | 0 <= x < 0x1_0000_0000
  type s16 = x: int | -0x8000 <= x < 0x8000
  type s32 = x: int | -0x8000_0000 <= x < 0x8000_0000

  /** Conversion to a 16-bit or 32-bit signed type, as the compiler does it. */
  function ToS16(x: int): s16 {
    (x + 0x8000) % 0x1_0000 - 0x8000
  }

  function ToS32(x: int): s32 {
    (x + 0x8000_0000) % 0x1_0000_0000 - 0x8000_0000
  }

  lemma Wrap32(x: int, k: int)
    ensures ToS32(x - k * 0x1_0000_0000) == ToS32(x)
  {
    var q, r := (x + 0x8000_0000) / 0x1_0000_0000, (x + 0x8000_0000) % 0x1_0000_0000;
    assert x - k * 0x1_0000_0000 + 0x8000_0000 == (q - k) * 0x1_0000_0000 + r;
  }

  /** Wrapping each partial sum wraps the sum. */
  lemma WrapAdd(x: int, y: int)
    ensures ToS32(ToS32(x) + y) == ToS32(x + y)
  {
    var k := (x + 0x8000_0000) / 0x1_0000_0000;
    assert ToS32(x) == x - k * 0x1_0000_0000;
    assert ToS32(x) + y == (x + y) - k * 0x1_0000_0000;
    Wrap32(x + y, k);
  }

  /** `a ^ b` */
  function Xor(a: nat, b: nat): nat
    decreases a + b
  {
    if a == 0 && b == 0 then 0 else 2 * Xor(a / 2, b / 2) + (if a % 2 != b % 2 then 1 else 0)
  }

  /** `a | b` */
  function Or(a: nat, b: nat): nat
    decreases a + b
  {
    if a == 0 && b == 0 then 0 else 2 * Or(a / 2, b / 2) + (if a % 2 == 1 || b % 2 == 1 then 1 else 0)
  }

  function Pow2(n: nat): nat {
    if n == 0 then 1 else 2 * Pow2(n - 1)
  }

  lemma {:induction false} Pow2Positive(n: nat)
    ensures Pow2(n) > 0
  {
    if n > 0 {
      Pow2Positive(n - 1);
    }
  }

  /** Bit k of a number or of a two's-complement pattern. */
  function Bit(x: int, k: nat): (b: nat)
    ensures b < 2
  {
    Pow2Positive(k);
    x / Pow2(k) % 2
  }

  lemma BitHalve(x: int, k: nat)
    ensures Bit(x, 0) == x % 2
    ensures k > 0 ==> Bit(x, k) == Bit(x / 2, k - 1)
  {
    if k > 0 {
      Pow2Positive(k - 1);
      Halves(x, Pow2(k - 1));
    }
  }

  lemma Halves(x: int, p: nat)
    requires p > 0
    ensures x / (2 * p) == x / 2 / p
  {
    var q, r := x / 2 / p, x / 2 % p;
    assert x == 2 * (p * q + r) + x % 2;
    QuotientIs(x, 2 * p, q);
  }

  lemma QuotientIs(x: int, d: int, q: int)
    requires d > 0 && 0 <= x - d * q < d
    ensures x / d == q
  {
    assert d * (x / d - q) == d * (x / d) - d * q;
    Squeezed(d, x / d - q);
  }

  lemma Squeezed(d: int, e: int)
    requires d > 0 && -d < d * e < d
    ensures e == 0
  {
  }

  lemma {:induction false} BitXor(a: nat, b: nat, k: nat)
    ensures Bit(Xor(a, b), k) == (Bit(a, k) + Bit(b, k)) % 2
  {
    XorHalve(a, b);
    BitHalve(Xor(a, b), k);
    BitHalve(a, k);
    BitHalve(b, k);
    hide Xor, Bit;
    if k > 0 {
      BitXor(a / 2, b / 2, k - 1);
    }
  }

  /** Bit k + j is bit j of what is left without the lowest k bits. */
  lemma {:induction false} BitShift(x: int, k: nat, j: nat)
    ensures Pow2(k) > 0 && Bit(x, k + j) == Bit(x / Pow2(k), j)
    decreases k
  {
    hide *;
    Pow2Positive(k);
    if k > 0 {
      Pow2Turn(k);
      Pow2Positive(k - 1);
      BitHalve(x, k + j);
      BitShift(x / 2, k - 1, j);
      Halves(x, Pow2(k - 1));
    } else {
      Pow2Zero(x);
    }
  }

  lemma Pow2Turn(k: nat)
    requires k > 0
    ensures Pow2(k) == 2 * Pow2(k - 1)
  {
  }

  lemma Pow2Zero(x: int)
    ensures Pow2(0) == 1 && x / Pow2(0) == x
  {
  }

  /** The lowest n bits of a number are those of its remainder. */
  lemma {:induction false} BitMod(x: int, n: nat, j: nat)
    requires j < n
    ensures Pow2(n) > 0 && Bit(x % Pow2(n), j) == Bit(x, j)
    decreases n
  {
    hide *;
    Pow2Positive(n);
    Pow2Positive(n - 1);
    Pow2Turn(n);
    HalfMod(x, Pow2(n - 1));
    BitHalve(x % Pow2(n), j);
    BitHalve(x, j);
    if j > 0 {
      BitMod(x / 2, n - 1, j - 1);
    }
  }

  lemma HalfMod(x: int, p: nat)
    requires p > 0
    ensures x % (2 * p) / 2 == x / 2 % p && x % (2 * p) % 2 == x % 2
  {
    var h, b := x / 2, x % 2;
    var q, r := h / p, h % p;
    Products(p, q);
    QuotientIs(x, 2 * p, q);
    RemainderIs(x, 2 * p, q);
    assert x - 2 * p * q == 2 * r + b;
  }

  lemma Products(p: nat, q: int)
    ensures 2 * p * q == 2 * (p * q)
  {
  }

  lemma RemainderIs(x: int, d: int, q: int)
    requires d > 0 && x / d == q
    ensures x % d == x - d * q
  {
  }

  lemma {:induction false} XorComm(a: nat, b: nat)
    ensures Xor(a, b) == Xor(b, a)
    decreases a + b
  {
    if !(a == 0 && b == 0) {
      XorComm(a / 2, b / 2);
    }
  }

  lemma {:induction false} XorAssoc(a: nat, b: nat, c: nat)
    ensures Xor(Xor(a, b), c) == Xor(a, Xor(b, c))
    decreases a + b + c
  {
    if !(a == 0 && b == 0 && c == 0) {
      XorAssoc(a / 2, b / 2, c / 2);
    }
  }

  lemma {:induction false} XorZero(a: nat)
    ensures Xor(a, 0) == a && Xor(0, a) == a
  {
    if a != 0 {
      XorZero(a / 2);
    }
  }

  lemma {:induction false} XorSelf(a: nat)
    ensures Xor(a, a) == 0
  {
    if a != 0 {
      XorSelf(a / 2);
    }
  }

  lemma XorHalve(a: nat, b: nat)
    ensures Xor(a, b) / 2 == Xor(a / 2, b / 2)
    ensures Xor(a, b) % 2 == if a % 2 != b % 2 then 1 else 0
  {
    if a == 0 && b == 0 {
      assert Xor(0, 0) == 0;
    }
  }

  /** Applying the same mask twice gives the value back. */
  lemma XorInvolution(a: nat, s: nat)
    ensures Xor(Xor(a, s), s) == a
  {
    XorAssoc(a, s, s);
    XorSelf(s);
    XorZero(a);
  }

  lemma XorEqualsZero(a: nat, b: nat)
    ensures Xor(a, b) == 0 <==> a == b
  {
    XorSelf(a);
    if Xor(a, b) == 0 {
      XorInvolution(a, b);
      XorZero(b);
    }
  }

  lemma {:induction false} XorBound(a: nat, b: nat, n: nat)
    requires a < Pow2(n) && b < Pow2(n)
    ensures Xor(a, b) < Pow2(n)
  {
    if n > 0 {
      XorBound(a / 2, b / 2, n - 1);
    }
  }

  lemma XorByte(a: nat, b: nat)
    requires a < 0x100 && b < 0x100
    ensures Xor(a, b) < 0x100
  {
    Pow2Values();
    XorBound(a, b, 8);
  }

  function XorU8(a: u8, b: u8): (r: u8)
    ensures r == Xor(a, b)
  {
    XorByte(a, b);
    Xor(a, b)
  }

  lemma XorHalf(a: nat, b: nat)
    requires a < 0x1_0000 && b < 0x1_0000
    ensures Xor(a, b) < 0x1_0000
  {
    Pow2Values();
    XorBound(a, b, 16);
  }

  function XorU16(a: u16, b: u16): (r: u16)
    ensures r == Xor(a, b)
  {
    XorHalf(a, b);
    Xor(a, b)
  }

  // ---------------------------------------------------------- high and low parts

  lemma OrBit(x: nat, y: nat, b: nat, c: nat)
    requires b < 2 && c < 2
    ensures Or(2 * x + b, 2 * y + c) == 2 * Or(x, y) + (if b == 1 || c == 1 then 1 else 0)
  {
    assert (2 * x + b) / 2 == x && (2 * y + c) / 2 == y;
    assert Or(0, 0) == 0;
  }

  lemma XorBit(x: nat, y: nat, b: nat, c: nat)
    requires b < 2 && c < 2
    ensures Xor(2 * x + b, 2 * y + c) == 2 * Xor(x, y) + (if b != c then 1 else 0)
  {
    assert (2 * x + b) / 2 == x && (2 * y + c) / 2 == y;
    assert Xor(0, 0) == 0;
  }

  /** `h << n` */
  function Shift(h: nat, n: nat): nat {
    if n == 0 then h else 2 * Shift(h, n - 1)
  }

  lemma ShiftTurn(h: nat, n: nat)
    requires n > 0
    ensures Shift(h, n) == 2 * Shift(h, n - 1) && Pow2(n) == 2 * Pow2(n - 1)
  {
  }

  lemma ShiftValues(h: nat)
    ensures Shift(h, 6) == 64 * h && Shift(h, 8) == 0x100 * h
  {
    assert Shift(h, 1) == 2 * h;
    assert Shift(h, 2) == 4 * h;
    assert Shift(h, 3) == 8 * h;
    assert Shift(h, 4) == 16 * h;
    assert Shift(h, 5) == 32 * h;
    assert Shift(h, 6) == 64 * h;
    assert Shift(h, 7) == 128 * h;
  }

  lemma NoBits(lo: nat, hi: nat)
    ensures Pow2(0) == 1 && Shift(hi, 0) == hi
  {
  }

  lemma Halve(x: nat, n: nat) returns (half: nat, bit: nat)
    requires n > 0
    ensures x == 2 * half + bit && bit < 2 && (x < Pow2(n) ==> half < Pow2(n - 1))
  {
    half, bit := x / 2, x % 2;
  }

  /** The operators work on the lowest n bits and on those above separately. */
  lemma {:induction false} OrParts(lo: nat, hi: nat, lo2: nat, hi2: nat, n: nat)
    requires lo < Pow2(n) && lo2 < Pow2(n)
    ensures Or(lo + Shift(hi, n), lo2 + Shift(hi2, n)) == Or(lo, lo2) + Shift(Or(hi, hi2), n)
    ensures Or(lo, lo2) < Pow2(n)
  {
    hide *;
    if n == 0 {
      NoBits(lo, hi);
      NoBits(lo2, hi2);
      NoBits(Or(lo, lo2), Or(hi, hi2));
      OrZero(0);
    } else {
      ShiftTurn(hi, n);
      ShiftTurn(hi2, n);
      ShiftTurn(Or(hi, hi2), n);
      var l, b := Halve(lo, n);
      var l2, c := Halve(lo2, n);
      OrParts(l, hi, l2, hi2, n - 1);
      OrBit(l + Shift(hi, n - 1), l2 + Shift(hi2, n - 1), b, c);
      OrBit(l, l2, b, c);
    }
  }

  lemma {:induction false} XorParts(lo: nat, hi: nat, lo2: nat, hi2: nat, n: nat)
    requires lo < Pow2(n) && lo2 < Pow2(n)
    ensures Xor(lo + Shift(hi, n), lo2 + Shift(hi2, n)) == Xor(lo, lo2) + Shift(Xor(hi, hi2), n)
    ensures Xor(lo, lo2) < Pow2(n)
  {
    hide *;
    if n == 0 {
      NoBits(lo, hi);
      NoBits(lo2, hi2);
      NoBits(Xor(lo, lo2), Xor(hi, hi2));
      XorZero(0);
    } else {
      ShiftTurn(hi, n);
      ShiftTurn(hi2, n);
      ShiftTurn(Xor(hi, hi2), n);
      var l, b := Halve(lo, n);
      var l2, c := Halve(lo2, n);
      XorParts(l, hi, l2, hi2, n - 1);
      XorBit(l + Shift(hi, n - 1), l2 + Shift(hi2, n - 1), b, c);
      XorBit(l, l2, b, c);
    }
  }

  lemma {:induction false} OrZero(a: nat)
    ensures Or(a, 0) == a && Or(0, a) == a
  {
    if a != 0 {
      OrZero(a / 2);
    }
  }

  lemma {:induction false} OrNothing(a: nat, b: nat)
    ensures Or(a, b) == 0 <==> a == 0 && b == 0
    decreases a + b
  {
    if a != 0 || b != 0 {
      OrNothing(a / 2, b / 2);
    }
  }

  lemma Pow2Values()
    ensures Pow2(4) == 0x10 && Pow2(8) == 0x100 && Pow2(15) == 0x8000 && Pow2(16) == 0x1_0000
  {
    assert Pow2(4) == 0x10;
    assert Pow2(8) == 0x100;
    assert Pow2(12) == 0x1000;
  }

  /** Setting a bit that is clear is the same as toggling it. */
  lemma {:induction false} OrIsXor(a: nat, n: nat)
    requires a < Pow2(n)
    ensures Or(a, Pow2(n)) == Xor(a, Pow2(n)) == a + Pow2(n)
  {
    if n == 0 {
      assert Or(0, 1) == 2 * Or(0, 0) + 1;
      assert Xor(0, 1) == 2 * Xor(0, 0) + 1;
    } else {
      OrIsXor(a / 2, n - 1);
    }
  }
}
