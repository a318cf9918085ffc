/** The bit-serial CRC-16 of `core_util.c`, its algebra, and its meaning as a
    polynomial remainder over GF(2). */
module Crc {
  import opened MachineInts

  // ---------------------------------------------------------------- register

  /** One turn of the shift register: the message bit and the lowest register bit
      decide whether the feedback taps are toggled. */
  function Step(bit: bool, crc: nat): nat {
    Xor(crc / 2, Feedback(bit != (crc % 2 == 1)))
  }

  function Feedback(x: bool): nat {
    if x then 0xa001 else 0
  }

  /** The register after a whole bit string, first bit first. */
  function Feed(bits: seq<bool>, crc: nat): nat {
    if bits == [] then crc else Feed(bits[1..], Step(bits[0], crc))
  }

  /** The n lowest bits of v, least significant first. */
  function Bits(v: nat, n: nat): (bits: seq<bool>)
    ensures |bits| == n
  {
    if n == 0 then [] else [v % 2 == 1] + Bits(v / 2, n - 1)
  }

  /** A byte message as the bits `crcu8` consumes, each byte least significant bit first. */
  function MessageBits(msg: seq<u8>): (bits: seq<bool>)
    ensures |bits| == 8 * |msg|
  {
    if msg == [] then [] else Bits(msg[0], 8) + MessageBits(msg[1..])
  }

  /** The CRC of a byte message, starting from the register `crc`. */
  function CrcOf(msg: seq<u8>, crc: u16): (r: u16)
  {
    FeedBound(MessageBits(msg), crc);
    Feed(MessageBits(msg), crc)
  }

  /** The bytes of a half word and of a word, lowest first. */
  function Bytes16(v: u16): seq<u8> {
    [v % 0x100, v / 0x100]
  }

  function Bytes32(v: u32): seq<u8> {
    Bytes16(v % 0x1_0000) + Bytes16(v / 0x1_0000)
  }

  lemma StepBound(bit: bool, crc: nat)
    requires crc < 0x1_0000
    ensures Step(bit, crc) < 0x1_0000
  {
    XorHalf(crc / 2, Feedback(bit != (crc % 2 == 1)));
  }

  lemma {:induction false} FeedBound(bits: seq<bool>, crc: nat)
    requires crc < 0x1_0000
    ensures Feed(bits, crc) < 0x1_0000
  {
    if bits != [] {
      StepBound(bits[0], crc);
      FeedBound(bits[1..], Step(bits[0], crc));
    }
  }

  // ------------------------------------------------------------- the programs

  lemma {:induction false} FeedAppend(a: seq<bool>, b: seq<bool>, crc: nat)
    ensures Feed(a + b, crc) == Feed(b, Feed(a, crc))
  {
    if a == [] {
      assert a + b == b;
    } else {
      FeedAppend(a[1..], b, Step(a[0], crc));
      assert (a + b)[1..] == a[1..] + b;
    }
  }

  lemma {:induction false} MessageBitsAppend(a: seq<u8>, b: seq<u8>)
    ensures MessageBits(a + b) == MessageBits(a) + MessageBits(b)
  {
    if a == [] {
      assert a + b == b;
    } else {
      MessageBitsAppend(a[1..], b);
      assert (a + b)[1..] == a[1..] + b && (a + b)[0] == a[0];
      var x, y, z := Bits(a[0], 8), MessageBits(a[1..]), MessageBits(b);
      assert MessageBits(a + b) == x + (y + z) == (x + y) + z;
    }
  }

  /** The CRC of a concatenation continues from the CRC of its first part. */
  lemma CrcOfAppend(a: seq<u8>, b: seq<u8>, crc: u16)
    ensures CrcOf(a + b, crc) == CrcOf(b, CrcOf(a, crc))
  {
    MessageBitsAppend(a, b);
    FeedAppend(MessageBits(a), MessageBits(b), crc);
  }

  /** Below the top bit, toggling `t` and then setting the top bit is toggling both. */
  lemma SetTopBit(h: nat, t: nat)
    requires h < 0x8000 && t < 0x8000
    ensures Xor(h, t) < 0x8000
    ensures Or(Xor(h, t), 0x8000) == Xor(h, t + 0x8000) == Xor(h, t) + 0x8000
  {
    Pow2Values();
    XorBound(h, t, 15);
    OrIsXor(Xor(h, t), 15);
    OrIsXor(t, 15);
    XorAssoc(h, t, Pow2(15));
  }

  /** Toggling an even mask, shifting and setting the top bit. */
  lemma ToggleShiftSet(crc: nat, taps: nat)
    requires crc < 0x1_0000 && taps < 0x1_0000
    ensures Or(Xor(crc, taps) / 2, 0x8000) == Xor(crc / 2, taps / 2 + 0x8000)
  {
    XorHalve(crc, taps);
    SetTopBit(crc / 2, taps / 2);
  }

  /** The assignments of one loop turn of `crcu8` are one register step. */
  lemma ShiftAndSet(crc: nat)
    requires crc < 0x1_0000
    ensures Or(Xor(crc, 0x4002) / 2, 0x8000) == Xor(crc / 2, Feedback(true))
    ensures crc / 2 % 0x8000 == Xor(crc / 2, Feedback(false))
  {
    hide Xor, Or;
    ToggleShiftSet(crc, 0x4002);
    XorZero(crc / 2);
  }

  method CrcU8(data: u8, crc: u16) returns (r: u16)
    ensures r == CrcOf([data], crc)
  {
    hide *;
    var i, d, carry := 0, data, 0;
    r := crc;
    OneByte(data, crc);
    while i < 8
      invariant 0 <= i <= 8
      invariant Feed(Bits(d, 8 - i), r) == Feed(Bits(data, 8), crc)
    {
      var x16 := if d % 2 != r % 2 then 1 else 0;
      FeedTurn(d, 8 - i, r);
      ShiftAndSet(r);
      StepBound(d % 2 == 1, r);
      StepIs(d % 2 == 1, r);
      ghost var next := Step(d % 2 == 1, r);
      d := d / 2;
      if x16 == 1 {
        r := XorU16(r, 0x4002);
        carry := 1;
      } else {
        carry := 0;
      }
      r := r / 2;
      if carry != 0 {
        r := Or(r, 0x8000);
      } else {
        r := r % 0x8000;
      }
      assert r == next;
      i := i + 1;
    }
    FeedNothing(d, r);
  }

  lemma OneByte(data: u8, crc: u16)
    ensures CrcOf([data], crc) == Feed(Bits(data, 8), crc)
  {
    hide Feed, Bits;
    assert Bits(data, 8) + [] == Bits(data, 8);
  }

  lemma FeedNothing(d: nat, crc: nat)
    ensures Feed(Bits(d, 0), crc) == crc
  {
  }

  lemma StepIs(bit: bool, crc: nat)
    ensures Step(bit, crc) == Xor(crc / 2, Feedback(bit != (crc % 2 == 1)))
  {
  }

  lemma FeedTurn(d: nat, n: nat, crc: nat)
    requires n > 0
    ensures Feed(Bits(d, n), crc) == Feed(Bits(d / 2, n - 1), Step(d % 2 == 1, crc))
  {
    assert Bits(d, n)[1..] == Bits(d / 2, n - 1);
  }

  method CrcU16(newval: u16, crc: u16) returns (r: u16)
    ensures r == CrcOf(Bytes16(newval), crc)
  {
    r := CrcU8(newval % 0x100, crc);
    r := CrcU8(newval / 0x100, r);
    CrcOfAppend([newval % 0x100], [newval / 0x100], crc);
    assert Bytes16(newval) == [newval % 0x100] + [newval / 0x100];
  }

  method Crc16(newval: u16, crc: u16) returns (r: u16)
    ensures r == CrcOf(Bytes16(newval), crc)
  {
    r := CrcU16(newval, crc);
  }

  method CrcU32(newval: u32, crc: u16) returns (r: u16)
    ensures r == CrcOf(Bytes32(newval), crc)
  {
    r := Crc16(newval % 0x1_0000, crc);
    r := Crc16(newval / 0x1_0000, r);
    CrcOfAppend(Bytes16(newval % 0x1_0000), Bytes16(newval / 0x1_0000), crc);
  }

  // -------------------------------------------------------------- linearity

  function XorBits(a: seq<bool>, b: seq<bool>): (r: seq<bool>)
    requires |a| == |b|
    ensures |r| == |a|
    ensures forall i :: 0 <= i < |a| ==> r[i] == (a[i] != b[i])
  {
    seq(|a|, i requires 0 <= i < |a| => a[i] != b[i])
  }

  function XorBytes(a: seq<u8>, b: seq<u8>): (r: seq<u8>)
    requires |a| == |b|
    ensures |r| == |a|
    ensures forall i :: 0 <= i < |a| ==> r[i] == Xor(a[i], b[i])
  {
    seq(|a|, i requires 0 <= i < |a| => XorU8(a[i], b[i]))
  }

  /** (a ^ b) ^ (c ^ d) == (a ^ c) ^ (b ^ d) */
  lemma {:induction false} XorSwap(a: nat, b: nat, c: nat, d: nat)
    ensures Xor(Xor(a, b), Xor(c, d)) == Xor(Xor(a, c), Xor(b, d))
  {
    XorAssoc(a, b, Xor(c, d));
    XorAssoc(b, c, d);
    XorComm(b, c);
    XorAssoc(c, b, d);
    XorAssoc(a, c, Xor(b, d));
  }

  lemma {:induction false} StepLinear(b1: bool, b2: bool, c1: nat, c2: nat)
    ensures Step(b1 != b2, Xor(c1, c2)) == Xor(Step(b1, c1), Step(b2, c2))
  {
    var x1, x2 := b1 != (c1 % 2 == 1), b2 != (c2 % 2 == 1);
    XorHalve(c1, c2);
    XorSelf(0xa001);
    XorZero(0xa001);
    XorZero(0);
    assert Feedback(x1 != x2) == Xor(Feedback(x1), Feedback(x2));
    XorSwap(c1 / 2, c2 / 2, Feedback(x1), Feedback(x2));
  }

  lemma {:induction false} FeedLinear(m1: seq<bool>, m2: seq<bool>, c1: nat, c2: nat)
    requires |m1| == |m2|
    ensures Feed(XorBits(m1, m2), Xor(c1, c2)) == Xor(Feed(m1, c1), Feed(m2, c2))
  {
    if m1 != [] {
      StepLinear(m1[0], m2[0], c1, c2);
      FeedLinear(m1[1..], m2[1..], Step(m1[0], c1), Step(m2[0], c2));
      assert XorBits(m1, m2)[1..] == XorBits(m1[1..], m2[1..]);
    }
  }

  lemma {:induction false} BitsXor(a: nat, b: nat, n: nat)
    ensures Bits(Xor(a, b), n) == XorBits(Bits(a, n), Bits(b, n))
  {
    if n > 0 {
      XorHalve(a, b);
      BitsXor(a / 2, b / 2, n - 1);
    }
  }

  lemma {:induction false} MessageBitsXor(a: seq<u8>, b: seq<u8>)
    requires |a| == |b|
    ensures MessageBits(XorBytes(a, b)) == XorBits(MessageBits(a), MessageBits(b))
  {
    if a != [] {
      BitsXor(a[0], b[0], 8);
      MessageBitsXor(a[1..], b[1..]);
      assert XorBytes(a, b)[1..] == XorBytes(a[1..], b[1..]);
    }
  }

  /** The CRC is linear in message and initial register together. */
  lemma {:induction false} CrcLinear(m1: seq<u8>, m2: seq<u8>, c1: u16, c2: u16)
    requires |m1| == |m2|
    ensures Xor(c1, c2) < 0x1_0000
    ensures CrcOf(XorBytes(m1, m2), Xor(c1, c2)) == Xor(CrcOf(m1, c1), CrcOf(m2, c2))
  {
    XorHalf(c1, c2);
    MessageBitsXor(m1, m2);
    FeedLinear(MessageBits(m1), MessageBits(m2), c1, c2);
  }

  // ------------------------------------------------------------- bijection

  /** Runs the register backwards over one bit: the top bit tells whether the taps
      were toggled. */
  function Unstep(bit: bool, crc: nat): nat {
    var x := crc / 0x8000 % 2 == 1;
    2 * Xor(crc, Feedback(x)) + (if bit != x then 1 else 0)
  }

  function Unfeed(bits: seq<bool>, crc: nat): nat {
    if bits == [] then crc else Unstep(bits[0], Unfeed(bits[1..], crc))
  }

  lemma TopBit(h: nat, x: bool)
    requires h < 0x8000
    ensures Xor(h, Feedback(x)) / 0x8000 == if x then 1 else 0
  {
    SetTopBit(h, 0x2001);
    XorZero(h);
  }

  lemma UnstepStep(bit: bool, crc: nat)
    requires crc < 0x1_0000
    ensures Unstep(bit, Step(bit, crc)) == crc
  {
    var x := bit != (crc % 2 == 1);
    TopBit(crc / 2, x);
    XorInvolution(crc / 2, Feedback(x));
  }

  lemma TopFeedback(crc: nat)
    requires crc < 0x1_0000
    ensures Feedback(crc / 0x8000 % 2 == 1) == if crc >= 0x8000 then 0xa001 else 0
  {
  }

  /** Toggling the taps exactly when the top bit is set clears the top bit. */
  lemma ClearTopBit(crc: nat)
    requires crc < 0x1_0000
    ensures Xor(crc, Feedback(crc / 0x8000 % 2 == 1)) < 0x8000
  {
    TopFeedback(crc);
    hide *;
    if crc >= 0x8000 {
      // crc is h + 0x8000, which is Xor(h, 0x2001) with 0xa001 toggled
      var h := crc - 0x8000;
      SetTopBit(h, 0x2001);
      SetTopBit(Xor(h, 0x2001), 0x2001);
      XorInvolution(h, 0x2001);
      XorInvolution(Xor(h, 0x2001), 0xa001);
    } else {
      XorZero(crc);
    }
  }

  lemma StepUnstep(bit: bool, crc: nat)
    requires crc < 0x1_0000
    ensures Unstep(bit, crc) < 0x1_0000 && Step(bit, Unstep(bit, crc)) == crc
  {
    ClearTopBit(crc);
    XorInvolution(crc, Feedback(crc / 0x8000 % 2 == 1));
  }

  lemma {:induction false} FeedUnfeed(bits: seq<bool>, crc: nat)
    requires crc < 0x1_0000
    ensures Unfeed(bits, Feed(bits, crc)) == crc
    ensures Unfeed(bits, crc) < 0x1_0000 && Feed(bits, Unfeed(bits, crc)) == crc
  {
    if bits != [] {
      StepBound(bits[0], crc);
      FeedUnfeed(bits[1..], Step(bits[0], crc));
      UnstepStep(bits[0], crc);
      FeedUnfeed(bits[1..], crc);
      StepUnstep(bits[0], Unfeed(bits[1..], crc));
    }
  }

  lemma FeedInjective(bits: seq<bool>, c1: nat, c2: nat)
    requires c1 < 0x1_0000 && c2 < 0x1_0000
    ensures Feed(bits, c1) == Feed(bits, c2) ==> c1 == c2
  {
    FeedUnfeed(bits, c1);
    FeedUnfeed(bits, c2);
  }

  /** For a fixed message the CRC is a bijection of the 16-bit initial register. */
  lemma CrcBijective(msg: seq<u8>, c1: u16, c2: u16)
    ensures CrcOf(msg, c1) == CrcOf(msg, c2) ==> c1 == c2
    ensures exists c: u16 :: CrcOf(msg, c) == c2
  {
    FeedInjective(MessageBits(msg), c1, c2);
    FeedUnfeed(MessageBits(msg), c2);
    var c: u16 := Unfeed(MessageBits(msg), c2);
    assert CrcOf(msg, c) == c2;
  }

  // ------------------------------------------------------ burst detection

  function Zeros(n: nat): (z: seq<bool>)
    ensures |z| == n && forall i :: 0 <= i < n ==> !z[i]
  {
    seq(n, _ => false)
  }

  /** Bits packed into a number, first bit lowest. */
  function Pack(bits: seq<bool>): nat {
    if bits == [] then 0 else 2 * Pack(bits[1..]) + (if bits[0] then 1 else 0)
  }

  lemma {:induction false} PackBound(bits: seq<bool>)
    ensures Pack(bits) < Pow2(|bits|)
    ensures Pack(bits) == 0 ==> bits == Zeros(|bits|)
  {
    if bits != [] {
      PackBound(bits[1..]);
      assert bits == [bits[0]] + bits[1..];
    }
  }

  lemma {:induction false} Pow2Monotone(m: nat, n: nat)
    requires m <= n
    ensures Pow2(m) <= Pow2(n)
  {
    if m < n {
      Pow2Monotone(m, n - 1);
    }
  }

  lemma {:induction false} FeedZeros(n: nat)
    ensures Feed(Zeros(n), 0) == 0
  {
    if n > 0 {
      assert Zeros(n)[1..] == Zeros(n - 1);
      XorZero(0);
      FeedZeros(n - 1);
    }
  }

  /** A message bit can be XORed into the register first, and what lies above it rides along. */
  lemma StepAbsorbs(bit: bool, crc: nat, y: nat)
    ensures Step(false, Xor(crc, 2 * y + (if bit then 1 else 0))) == Xor(Step(bit, crc), y)
  {
    var p := 2 * y + (if bit then 1 else 0);
    var fb := Feedback(bit != (crc % 2 == 1));
    assert p / 2 == y && (p % 2 == 1 <==> bit);
    XorHalve(crc, p);
    hide Xor, Feedback;
    XorAssoc(crc / 2, y, fb);
    XorComm(y, fb);
    XorAssoc(crc / 2, fb, y);
  }

  /** Up to 16 message bits act exactly as if they had been XORed into the register first. */
  lemma {:induction false} FeedAsRegister(bits: seq<bool>, crc: nat)
    requires |bits| <= 16
    ensures Feed(bits, crc) == Feed(Zeros(|bits|), Xor(crc, Pack(bits)))
  {
    if bits == [] {
      XorZero(crc);
    } else {
      FeedAsRegister(bits[1..], Step(bits[0], crc));
      assert Zeros(|bits|)[1..] == Zeros(|bits| - 1);
      StepAbsorbs(bits[0], crc, Pack(bits[1..]));
    }
  }

  /** A non-zero burst of at most 16 bits, wherever it sits, leaves a non-zero register. */
  lemma BurstNonZero(lead: nat, burst: seq<bool>, trail: nat)
    requires |burst| <= 16 && burst != Zeros(|burst|)
    ensures Feed(Zeros(lead) + burst + Zeros(trail), 0) != 0
  {
    FeedAppend(Zeros(lead) + burst, Zeros(trail), 0);
    FeedAppend(Zeros(lead), burst, 0);
    FeedZeros(lead);
    FeedAsRegister(burst, 0);
    PackBound(burst);
    Pow2Monotone(|burst|, 16);
    Pow2Values();
    XorZero(Pack(burst));
    FeedZeros(|burst|);
    FeedInjective(Zeros(|burst|), Pack(burst), 0);
    FeedBound(burst, 0);
    FeedZeros(trail);
    FeedInjective(Zeros(trail), Feed(burst, 0), 0);
  }

  lemma {:induction false} BitsInjective(a: nat, b: nat, n: nat)
    requires a < Pow2(n) && b < Pow2(n) && Bits(a, n) == Bits(b, n)
    ensures a == b
  {
    if n > 0 {
      assert Bits(a, n)[0] == Bits(b, n)[0];
      assert Bits(a, n)[1..] == Bits(a / 2, n - 1) && Bits(b, n)[1..] == Bits(b / 2, n - 1);
      BitsInjective(a / 2, b / 2, n - 1);
    }
  }

  lemma {:induction false} MessageBitsInjective(a: seq<u8>, b: seq<u8>)
    requires |a| == |b| && MessageBits(a) == MessageBits(b)
    ensures a == b
  {
    if a != [] {
      assert MessageBits(a)[..8] == Bits(a[0], 8) && MessageBits(b)[..8] == Bits(b[0], 8);
      assert MessageBits(a)[8..] == MessageBits(a[1..]) && MessageBits(b)[8..] == MessageBits(b[1..]);
      Pow2Values();
      BitsInjective(a[0], b[0], 8);
      MessageBitsInjective(a[1..], b[1..]);
      assert a == [a[0]] + a[1..] && b == [b[0]] + b[1..];
    }
  }

  /** Two messages of the same length that differ, but only inside some window
      of at most 16 consecutive bits, have different CRCs. */
  lemma {:induction false} BurstDetected(m1: seq<u8>, m2: seq<u8>, crc: u16, at: nat, width: nat)
    requires |m1| == |m2| && m1 != m2
    requires width <= 16 && at + width <= 8 * |m1|
    requires forall i :: 0 <= i < 8 * |m1| && !(at <= i < at + width) ==> MessageBits(m1)[i] == MessageBits(m2)[i]
    ensures CrcOf(m1, crc) != CrcOf(m2, crc)
  {
    var b1, b2 := MessageBits(m1), MessageBits(m2);
    var d := XorBits(b1, b2);
    var burst := d[at..at + width];
    var trail := |d| - at - width;
    assert d == Zeros(at) + burst + Zeros(trail);
    if burst == Zeros(width) {
      forall i | 0 <= i < |b1|
        ensures b1[i] == b2[i]
      {
        assert !d[i] by {
          if at <= i < at + width { assert !burst[i - at]; }
        }
      }
      assert b1 == b2;
      MessageBitsInjective(m1, m2);
    }
    BurstNonZero(at, burst, trail);
    FeedLinear(b1, b2, crc, crc);
    XorSelf(crc);
    XorEqualsZero(CrcOf(m1, crc), CrcOf(m2, crc));
  }

  // ------------------------------------------------------ folding a CRC into its start
  //
  // The benchmarks take a CRC that starts from the running one and then fold the result into
  // the running one.  What two runs that start differently have in common is settled here.

  /** Is the number of set bits odd? */
  function Parity(x: nat): bool {
    if x == 0 then false else (x % 2 == 1) != Parity(x / 2)
  }

  lemma {:induction false} ParityXor(a: nat, b: nat)
    ensures Parity(Xor(a, b)) == (Parity(a) != Parity(b))
    decreases a + b
  {
    if a != 0 || b != 0 {
      XorHalve(a, b);
      ParityXor(a / 2, b / 2);
    }
  }

  lemma ParityFeedback()
    ensures Parity(0xa001) && Parity(0xc001)
  {
    assert !Parity(5);
    assert Parity(0x80) && Parity(0xa0) == Parity(5) && Parity(0xc0) == Parity(3);
  }

  /** A zero bit leaves the parity of the register as it is. */
  lemma StepParity(x: nat)
    ensures Parity(Step(false, x)) == Parity(x)
  {
    ParityFeedback();
    ParityXor(x / 2, Feedback(x % 2 == 1));
    hide Xor;
    assert !Parity(0);
  }

  lemma {:induction false} ZerosParity(n: nat, x: nat)
    ensures Parity(Feed(Zeros(n), x)) == Parity(x)
  {
    if n > 0 {
      assert Zeros(n)[1..] == Zeros(n - 1);
      StepParity(x);
      ZerosParity(n - 1, Step(false, x));
    }
  }

  /** Zero bits act linearly on the register. */
  lemma ZerosLinear(n: nat, a: nat, b: nat)
    ensures Feed(Zeros(n), Xor(a, b)) == Xor(Feed(Zeros(n), a), Feed(Zeros(n), b))
  {
    FeedLinear(Zeros(n), Zeros(n), a, b);
    assert XorBits(Zeros(n), Zeros(n)) == Zeros(n);
  }

  lemma ZerosTwice(m: nat, n: nat, x: nat)
    ensures Feed(Zeros(m + n), x) == Feed(Zeros(n), Feed(Zeros(m), x))
  {
    FeedAppend(Zeros(m), Zeros(n), x);
    assert Zeros(m) + Zeros(n) == Zeros(m + n);
  }

  /** The register that a zero bit does not change. */
  lemma StillRegister(x: nat)
    requires x < 0x1_0000
    ensures Step(false, x) == x <==> x == 0 || x == 0xc001
  {
    XorZero(x / 2);
    FoldedTaps();
    hide Xor;
    if x % 2 == 1 && Step(false, x) == x {
      HalfAndTaps(x);
    }
    assert Step(false, 0xc001) == Xor(0x6000, 0xa001);
  }

  lemma FoldedTaps()
    ensures Xor(0x6000, 0xa001) == 0xc001
  {
    FoldedHigh();
    Pow2Values();
    ShiftValues(0x60);
    ShiftValues(0xa0);
    ShiftValues(0xc0);
    XorZero(1);
    hide *;
    XorParts(0, 0x60, 1, 0xa0, 8);
  }

  lemma FoldedHigh()
    ensures Xor(0x60, 0xa0) == 0xc0
  {
    assert Xor(6, 0xa) == 0xc;
    assert Xor(0x18, 0x28) == 0x30;
  }

  /** x ^ (x >> 1) tells an odd x. */
  lemma HalfAndTaps(x: nat)
    requires x < 0x1_0000 && x % 2 == 1 && Xor(x / 2, 0xa001) == x
    ensures x == 0xc001
  {
    // y = x ^ 0xc001 is even and does not change either, so it is its own half.
    hide *;
    var y := Xor(x, 0xc001);
    FoldedTaps();
    XorHalve(x, 0xc001);
    XorAssoc(x / 2, 0xa001, 0xc001);
    XorComm(0xa001, 0xc001);
    XorInvolution(0x6000, 0xa001);
    XorEqualsZero(x, 0xc001);
  }


  /** Only two registers are unchanged by 2^k zero bits, whatever k: 0 and 0xc001. */
  lemma {:induction false} Unchanged(k: nat, x: nat)
    requires x < 0x1_0000
    ensures Feed(Zeros(Pow2(k)), x) == x <==> x == 0 || x == 0xc001
  {
    hide *;
    if k == 0 {
      OneZero(x);
      StillRegister(x);
    } else {
      var m := Pow2(k - 1);
      PowTwice(k);
      ZerosTwice(m, m, x);
      Unchanged(k - 1, x);
      var y := Xor(Feed(Zeros(m), x), x);
      if Feed(Zeros(2 * m), x) == x {
        FeedBound(Zeros(m), x);
        XorHalf(Feed(Zeros(m), x), x);
        ZerosLinear(m, Feed(Zeros(m), x), x);
        XorComm(Feed(Zeros(m), x), x);
        Unchanged(k - 1, y);
        ParityXor(Feed(Zeros(m), x), x);
        ZerosParity(m, x);
        ParityFeedback();
        XorEqualsZero(Feed(Zeros(m), x), x);
      }
    }
  }

  lemma OneZero(x: nat)
    ensures Pow2(0) == 1 && Feed(Zeros(1), x) == Step(false, x)
  {
    assert Zeros(1)[1..] == [];
  }

  lemma PowTwice(k: nat)
    requires k > 0
    ensures Pow2(k) == Pow2(k - 1) + Pow2(k - 1) == 2 * Pow2(k - 1)
  {
  }

  lemma {:induction false} PackBits(a: nat, n: nat)
    requires a < Pow2(n)
    ensures Pack(Bits(a, n)) == a
  {
    if n > 0 {
      PackBits(a / 2, n - 1);
      assert Bits(a, n)[1..] == Bits(a / 2, n - 1);
    }
  }

  lemma {:induction false} PackAppend(a: seq<bool>, b: seq<bool>)
    ensures Pack(a + b) == Pack(a) + Shift(Pack(b), |a|)
  {
    if a == [] {
      assert a + b == b;
    } else {
      PackAppend(a[1..], b);
      assert (a + b)[1..] == a[1..] + b;
    }
  }

  /** Folding a word in is exclusive-oring it with the register and 16 zero bits. */
  lemma FoldIs(v: u16, crc: u16)
    ensures CrcOf(Bytes16(v), crc) == Feed(Zeros(16), Xor(crc, v))
  {
    var lo, hi := Bits(v % 0x100, 8), Bits(v / 0x100, 8);
    assert MessageBits(Bytes16(v)) == lo + hi;
    Pow2Values();
    ShiftValues(v / 0x100);
    PackBits(v % 0x100, 8);
    PackBits(v / 0x100, 8);
    hide *;
    PackAppend(lo, hi);
    FeedAsRegister(lo + hi, crc);
    FoldRegister(v, crc);
  }

  lemma FoldRegister(v: u16, crc: u16)
    ensures CrcOf(Bytes16(v), crc) == Feed(MessageBits(Bytes16(v)), crc)
    ensures v == v % 0x100 + 0x100 * (v / 0x100)
  {
    hide Feed, MessageBits;
  }

  /** The CRCs of one message from two starts differ by what zero bits make of the difference. */
  lemma StartsDiffer(msg: seq<u8>, c1: u16, c2: u16)
    ensures Xor(CrcOf(msg, c1), CrcOf(msg, c2)) == Feed(Zeros(8 * |msg|), Xor(c1, c2))
  {
    var bits := MessageBits(msg);
    FeedLinear(bits, bits, c1, c2);
    assert XorBits(bits, bits) == Zeros(|bits|);
    hide Feed, Zeros, Xor;
  }

  /** A CRC folded into its own start: for messages of 2^k bits the result is the same from two
      starts exactly if they are equal or differ by 0xc001, which is the same difference for
      every message. */
  lemma FoldCollides(msg: seq<u8>, k: nat, c1: u16, c2: u16)
    requires 8 * |msg| == Pow2(k)
    ensures CrcOf(Bytes16(CrcOf(msg, c1)), c1) == CrcOf(Bytes16(CrcOf(msg, c2)), c2) <==>
      c1 == c2 || Xor(c1, c2) == 0xc001
  {
    hide *;
    var v1, v2, d := CrcOf(msg, c1), CrcOf(msg, c2), Xor(c1, c2);
    FoldIs(v1, c1);
    FoldIs(v2, c2);
    XorHalf(c1, v1);
    XorHalf(c2, v2);
    FeedInjective(Zeros(16), Xor(c1, v1), Xor(c2, v2));
    XorEqualsZero(Xor(c1, v1), Xor(c2, v2));
    XorSwap(c1, v1, c2, v2);
    StartsDiffer(msg, c1, c2);
    XorHalf(c1, c2);
    Unchanged(k, d);
    XorEqualsZero(d, Feed(Zeros(8 * |msg|), d));
    XorEqualsZero(c1, c2);
  }

  // ------------------------------------------------- polynomial remainder
  //
  // A polynomial over GF(2) is the sequence of its coefficients, highest first.
  // A message is the polynomial of its bits in transmission order, and register
  // bit 0 is the coefficient of x^15 (the "reflected" convention).

  /** x^16 + x^15 + x^2 + 1 */
  const GENERATOR: seq<bool> :=
    [true, true, false, false, false, false, false, false, false,
     false, false, false, false, false, true, false, true]

  function RegisterPoly(crc: nat): (r: seq<bool>)
    ensures |r| == 16
  {
    Bits(crc, 16)
  }

  /** The product of a polynomial with |q| coefficients and the generator. */
  function TimesGenerator(q: seq<bool>): (r: seq<bool>)
    ensures |r| == |q| + 16
  {
    if q == [] then Zeros(16)
    else XorBits(ShiftedGenerator(q[0], |q| - 1), [false] + TimesGenerator(q[1..]))
  }

  /** The generator times x^k, or zero. */
  function ShiftedGenerator(present: bool, k: nat): (r: seq<bool>)
    ensures |r| == k + 17
    ensures r[0] == present
  {
    if present then GENERATOR + Zeros(k) else Zeros(k + 17)
  }

  /** r is what is left of p after subtracting some multiple of the generator. */
  ghost predicate IsRemainder(p: seq<bool>, r: seq<bool>)
    requires |p| >= 16
  {
    |r| == 16 && exists q: seq<bool> :: |q| == |p| - 16 && p == Combined(q, r)
  }

  /** quotient * generator + remainder */
  function Combined(q: seq<bool>, r: seq<bool>): (p: seq<bool>)
    requires |r| == 16
    ensures |p| == |q| + 16
  {
    XorBits(TimesGenerator(q), Zeros(|q|) + r)
  }

  /** message * x^16 + register * x^|message| */
  function Dividend(bits: seq<bool>, crc: nat): (p: seq<bool>)
    ensures |p| == |bits| + 16
  {
    XorBits(bits + Zeros(16), RegisterPoly(crc) + Zeros(|bits|))
  }

  lemma {:induction false} BitsOfHalf(v: nat, n: nat)
    requires v < Pow2(n)
    ensures Bits(v, n + 1) == Bits(v, n) + [false]
  {
    if n > 0 {
      BitsOfHalf(v / 2, n - 1);
      assert Bits(v, n + 1) == [v % 2 == 1] + (Bits(v / 2, n - 1) + [false]);
      assert Bits(v, n) == [v % 2 == 1] + Bits(v / 2, n - 1);
    } else {
      assert Bits(v, 1) == [false] + Bits(0, 0);
    }
  }

  /** The feedback taps 0xa001 are the generator without its leading coefficient. */
  lemma FeedbackBits()
    ensures Bits(0xa001, 16) == [true] + Zeros(12) + [true, false, true] == GENERATOR[1..]
  {
    FeedbackValue();
    FeedbackPattern();
    hide *;
    BitsDoubled(5, 3, 12);
    BitsCons(true, 0x5000, 15);
    assert [true] + (Zeros(12) + [true, false, true]) == [true] + Zeros(12) + [true, false, true];
  }

  lemma FeedbackValue()
    ensures Bits(5, 3) == [true, false, true] && 5 * Pow2(12) == 0x5000
  {
    assert Pow2(12) == 0x1000;
  }

  lemma FeedbackPattern()
    ensures [true] + Zeros(12) + [true, false, true] == GENERATOR[1..]
  {
  }

  lemma BitsCons(bit: bool, v: nat, n: nat)
    ensures Bits(2 * v + (if bit then 1 else 0), n + 1) == [bit] + Bits(v, n)
  {
  }

  /** Doubling k times puts k zeros in front. */
  lemma {:induction false} BitsDoubled(v: nat, n: nat, k: nat)
    ensures Bits(v * Pow2(k), n + k) == Zeros(k) + Bits(v, n)
  {
    if k == 0 {
      assert Zeros(0) + Bits(v, n) == Bits(v, n);
    } else {
      BitsDoubled(v, n, k - 1);
      BitsTwice(v * Pow2(k - 1), n + k - 1);
      DoubledPower(v, k);
      hide Bits, Pow2;
      assert Zeros(k) + Bits(v, n) == [false] + (Zeros(k - 1) + Bits(v, n));
    }
  }

  lemma BitsTwice(x: nat, n: nat)
    ensures Bits(2 * x, n + 1) == [false] + Bits(x, n)
  {
  }

  lemma DoubledPower(v: nat, k: nat)
    requires k > 0
    ensures v * Pow2(k) == 2 * (v * Pow2(k - 1))
  {
  }

  /** One register step drops the leading coefficient and subtracts the generator's tail. */
  lemma RegisterStep(bit: bool, c: nat)
    requires c < 0x1_0000
    ensures var x := bit != (c % 2 == 1);
      RegisterPoly(Step(bit, c)) == XorBits(RegisterPoly(c)[1..] + [false], ShiftedGenerator(x, 0)[1..])
  {
    var x := bit != (c % 2 == 1);
    var fb := Feedback(x);
    Pow2Values();
    BitsXor(c / 2, fb, 16);
    BitsOfHalf(c / 2, 15);
    assert RegisterPoly(c)[1..] == Bits(c / 2, 15);
    if x {
      FeedbackBits();
      assert ShiftedGenerator(x, 0)[1..] == GENERATOR[1..];
    } else {
      BitsZero(16);
      assert ShiftedGenerator(x, 0)[1..] == Zeros(16);
    }
  }

  lemma {:induction false} BitsZero(n: nat)
    ensures Bits(0, n) == Zeros(n)
  {
    if n > 0 {
      BitsZero(n - 1);
    }
  }

  /** Adding a shifted pattern g to a register r in front of a message m. */
  lemma Realign(m: seq<bool>, r: seq<bool>, g: seq<bool>, next: seq<bool>)
    requires m != [] && |r| == 16 && |g| == 17 && (m[0] != r[0]) == g[0]
    requires next == XorBits(r[1..] + [false], g[1..])
    ensures var n := |m|;
      XorBits(m + Zeros(16), r + Zeros(n)) ==
        XorBits(g + Zeros(n - 1), [false] + XorBits(m[1..] + Zeros(16), next + Zeros(n - 1)))
  {
    var n := |m|;
    var lhs := XorBits(m + Zeros(16), r + Zeros(n));
    var rest := XorBits(m[1..] + Zeros(16), next + Zeros(n - 1));
    var g' := g + Zeros(n - 1);
    forall i | 1 <= i < n + 16
      ensures lhs[i] == (g'[i] != rest[i - 1])
    {
      assert (m[1..] + Zeros(16))[i - 1] == (m + Zeros(16))[i];
      if i <= 16 {
        assert next[i - 1] == ((r[1..] + [false])[i - 1] != g[i]);
      }
    }
    assert lhs[0] == g'[0];
  }

  /** One turn of long division. */
  lemma DividendTurn(bits: seq<bool>, crc: nat)
    requires bits != [] && crc < 0x1_0000
    ensures var x := bits[0] != (crc % 2 == 1);
      Dividend(bits, crc) == XorBits(ShiftedGenerator(x, |bits| - 1), [false] + Dividend(bits[1..], Step(bits[0], crc)))
  {
    var x, n := bits[0] != (crc % 2 == 1), |bits|;
    RegisterStep(bits[0], crc);
    var g := ShiftedGenerator(x, 0);
    assert g + Zeros(n - 1) == ShiftedGenerator(x, n - 1);
    Realign(bits, RegisterPoly(crc), g, RegisterPoly(Step(bits[0], crc)));
  }

  /** The quotient of the long division the register performs: its feedback decisions. */
  function Quotient(bits: seq<bool>, crc: nat): (q: seq<bool>)
    ensures |q| == |bits|
  {
    if bits == [] then [] else [bits[0] != (crc % 2 == 1)] + Quotient(bits[1..], Step(bits[0], crc))
  }

  lemma {:induction false} RegisterDivides(bits: seq<bool>, crc: nat)
    requires crc < 0x1_0000
    ensures Dividend(bits, crc) == Combined(Quotient(bits, crc), RegisterPoly(Feed(bits, crc)))
  {
    var r := RegisterPoly(Feed(bits, crc));
    if bits == [] {
      CombinedNil(r);
      assert Dividend([], crc) == RegisterPoly(crc);
    } else {
      StepBound(bits[0], crc);
      RegisterDivides(bits[1..], Step(bits[0], crc));
      DividendTurn(bits, crc);
      CombinedCons(bits[0] != (crc % 2 == 1), Quotient(bits[1..], Step(bits[0], crc)), r);
    }
  }

  lemma CombinedCons(x: bool, q: seq<bool>, r: seq<bool>)
    requires |r| == 16
    ensures Combined([x] + q, r) == XorBits(ShiftedGenerator(x, |q|), [false] + Combined(q, r))
  {
    hide Zeros, ShiftedGenerator;
    var q' := [x] + q;
    assert q'[1..] == q;
    var g, t, z := ShiftedGenerator(x, |q|), TimesGenerator(q), Zeros(|q|) + r;
    var t', z' := TimesGenerator(q'), Zeros(|q'|) + r;
    assert t' == XorBits(g, [false] + t);
    assert z' == [false] + z;
    forall i | 0 <= i < |q| + 17
      ensures XorBits(t', z')[i] == XorBits(g, [false] + XorBits(t, z))[i]
    {
    }
  }

  lemma {:induction false} RemainderUnique(q1: seq<bool>, r1: seq<bool>, q2: seq<bool>, r2: seq<bool>)
    requires |q1| == |q2| && |r1| == |r2| == 16
    requires Combined(q1, r1) == Combined(q2, r2)
    ensures r1 == r2
  {
    if q1 == [] {
      CombinedNil(r1);
      CombinedNil(r2);
    } else {
      var x1, x2, t1, t2 := q1[0], q2[0], q1[1..], q2[1..];
      assert q1 == [x1] + t1 && q2 == [x2] + t2;
      CombinedCons(x1, t1, r1);
      CombinedCons(x2, t2, r2);
      assert Combined(q1, r1)[0] == x1 && Combined(q2, r2)[0] == x2;
      XorCancel(ShiftedGenerator(x1, |t1|), [false] + Combined(t1, r1), [false] + Combined(t2, r2));
      assert Combined(t1, r1) == ([false] + Combined(t1, r1))[1..];
      assert Combined(t2, r2) == ([false] + Combined(t2, r2))[1..];
      RemainderUnique(t1, r1, t2, r2);
    }
  }

  lemma CombinedNil(r: seq<bool>)
    requires |r| == 16
    ensures Combined([], r) == r
  {
    assert Zeros(0) + r == r;
  }

  lemma XorCancel(g: seq<bool>, a: seq<bool>, b: seq<bool>)
    requires |g| == |a| == |b| && XorBits(g, a) == XorBits(g, b)
    ensures a == b
  {
    forall i | 0 <= i < |a|
      ensures a[i] == b[i]
    {
      assert XorBits(g, a)[i] == XorBits(g, b)[i];
    }
  }

  /** The register after a message is the remainder, and the only one, of
      message * x^16 + register * x^|message| by x^16 + x^15 + x^2 + 1. */
  lemma {:induction false} CrcIsRemainder(msg: seq<u8>, crc: u16, r: seq<bool>)
    ensures IsRemainder(Dividend(MessageBits(msg), crc), r) <==> r == RegisterPoly(CrcOf(msg, crc))
  {
    var bits := MessageBits(msg);
    var p, good := Dividend(bits, crc), RegisterPoly(CrcOf(msg, crc));
    RegisterDivides(bits, crc);
    if IsRemainder(p, r) {
      var q: seq<bool> :| |q| == |p| - 16 && p == Combined(q, r);
      RemainderUnique(q, r, Quotient(bits, crc), good);
    }
  }
}
