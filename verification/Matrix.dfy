/** The matrix benchmark of `core_matrix.c`.  An N x N matrix is an `array2`; entry
    (i, j) is the C code's M[i*N+j]. */
module Matrix {
  import opened MachineInts
  import opened Crc

  // --------------------------------------------------------- matrices as values

  /** The rows of a matrix. */
  type Rows = seq<seq<int>>

  predicate Square(m: Rows, n: nat) {
    |m| == n && forall i :: 0 <= i < n ==> |m[i]| == n
  }

  ghost function RowsOf(m: array2<int>): (r: Rows)
    requires m.Length0 == m.Length1
    reads m
    ensures Square(r, m.Length0)
    ensures forall i, j :: 0 <= i < m.Length0 && 0 <= j < m.Length0 ==> r[i][j] == m[i, j]
  {
    seq(m.Length0, i requires 0 <= i < m.Length0 reads m =>
      seq(m.Length0, j requires 0 <= j < m.Length0 reads m => m[i, j]))
  }

  lemma RowsEqual(a: Rows, b: Rows, n: nat)
    requires Square(a, n) && Square(b, n)
    requires forall i, j :: 0 <= i < n && 0 <= j < n ==> a[i][j] == b[i][j]
    ensures a == b
  {
    forall i | 0 <= i < n
      ensures a[i] == b[i]
    {
    }
  }

  // ------------------------------------------------------------- what is computed

  /** Every entry plus val, in 16 bits. */
  function AddConst(a: Rows, n: nat, val: s16): (r: Rows)
    requires Square(a, n)
    ensures Square(r, n)
  {
    seq(n, i requires 0 <= i < n => seq(n, j requires 0 <= j < n => ToS16(a[i][j] + val)))
  }

  function MulConst(a: Rows, n: nat, val: s16): (r: Rows)
    requires Square(a, n)
    ensures Square(r, n)
  {
    seq(n, i requires 0 <= i < n => seq(n, j requires 0 <= j < n => ToS32(a[i][j] * val)))
  }

  /** sum of a[i][k] * b[k][j] over k < m, over the integers */
  function Dot(a: Rows, b: Rows, n: nat, i: nat, j: nat, m: nat): int
    requires Square(a, n) && Square(b, n) && i < n && j < n && m <= n
  {
    if m == 0 then 0 else Dot(a, b, n, i, j, m - 1) + a[i][m - 1] * b[m - 1][j]
  }

  /** A matrix with a single entry. */
  predicate Single(e: Rows, n: nat, p: nat, q: nat, v: int)
    requires p < n && q < n
  {
    Square(e, n) && forall i, j :: 0 <= i < n && 0 <= j < n ==> e[i][j] == if i == p && j == q then v else 0
  }

  /** Times a matrix with the single entry v at (p, q), A leaves v times its column p, in column q. */
  lemma {:induction false} DotSingle(a: Rows, e: Rows, n: nat, p: nat, q: nat, v: int, i: nat, j: nat, m: nat)
    requires p < n && q < n && Square(a, n) && Single(e, n, p, q, v) && i < n && j < n && m <= n
    ensures Dot(a, e, n, i, j, m) == if j == q && p < m then a[i][p] * v else 0
  {
    if m > 0 {
      DotSingle(a, e, n, p, q, v, i, j, m - 1);
      assert e[m - 1][j] == if m - 1 == p && j == q then v else 0;
    }
  }

  /** The product is additive in its second factor, so that this is all there is to it. */
  lemma {:induction false} DotAdditive(a: Rows, b1: Rows, b2: Rows, b: Rows, n: nat, i: nat, j: nat, m: nat)
    requires Square(a, n) && Square(b1, n) && Square(b2, n) && Square(b, n) && i < n && j < n && m <= n
    requires forall x, y :: 0 <= x < n && 0 <= y < n ==> b[x][y] == b1[x][y] + b2[x][y]
    ensures Dot(a, b, n, i, j, m) == Dot(a, b1, n, i, j, m) + Dot(a, b2, n, i, j, m)
  {
    if m > 0 {
      DotAdditive(a, b1, b2, b, n, i, j, m - 1);
      Distributes(a[i][m - 1], b1[m - 1][j], b2[m - 1][j]);
    }
  }

  lemma Distributes(x: int, y: int, z: int)
    ensures x * (y + z) == x * y + x * z
  {
  }

  /** sum of a[i][k] * b[0][k] over k < m */
  function DotVect(a: Rows, b: Rows, n: nat, i: nat, m: nat): int
    requires Square(a, n) && Square(b, n) && i < n && m <= n
  {
    if m == 0 then 0 else DotVect(a, b, n, i, m - 1) + a[i][m - 1] * b[0][m - 1]
  }

  /** The vector is row 0 of B: the product is that with a matrix that has it as a column. */
  lemma {:induction false} VectorIsColumn(a: Rows, b: Rows, t: Rows, n: nat, i: nat, j: nat, m: nat)
    requires Square(a, n) && Square(b, n) && Square(t, n) && i < n && j < n && m <= n
    requires forall k :: 0 <= k < n ==> t[k][j] == b[0][k]
    ensures DotVect(a, b, n, i, m) == Dot(a, t, n, i, j, m)
  {
    if m > 0 {
      VectorIsColumn(a, b, t, n, i, j, m - 1);
      assert t[m - 1][j] == b[0][m - 1];
    }
  }

  /** bit_extract(x, 2, 4) * bit_extract(x, 5, 7) */
  function Extract(x: s32): int {
    x / 4 % 16 * (x / 32 % 128)
  }

  /** n bits from bit k on, the lowest first. */
  function BitField(x: int, k: nat, n: nat): int
    decreases n
  {
    if n == 0 then 0 else Bit(x, k) + 2 * BitField(x, k + 1, n - 1)
  }

  /** Four bits from bit 2 on times seven from bit 5 on. */
  lemma ExtractBits(x: s32)
    ensures Extract(x) == BitField(x, 2, 4) * BitField(x, 5, 7)
  {
    FieldIs(x, 2, 4);
    FieldIs(x, 5, 7);
    assert Pow2(2) == 4 && Pow2(5) == 32 && Pow2(4) == 16 && Pow2(7) == 128;
    hide BitField;
  }

  lemma {:induction false} FieldIs(x: int, k: nat, n: nat)
    ensures Pow2(k) > 0 && Pow2(n) > 0 && BitField(x, k, n) == x / Pow2(k) % Pow2(n)
    decreases n
  {
    Pow2Positive(k);
    Pow2Positive(n);
    hide Pow2;
    if n > 0 {
      FieldIs(x, k + 1, n - 1);
      PowerUp(k);
      PowerUp(n - 1);
      HalfOf(x, Pow2(k));
      LowBit(x / Pow2(k), Pow2(n - 1));
    } else {
      PowerUp(0);
    }
  }

  lemma PowerUp(k: nat)
    ensures Pow2(k + 1) == 2 * Pow2(k) && Pow2(0) == 1
  {
  }

  lemma HalfOf(x: int, p: nat)
    requires p > 0
    ensures x / p / 2 == x / (2 * p)
  {
    var q := x / p / 2;
    var r := x - 2 * p * q;
    assert x / p == 2 * q + x / p % 2 && x == p * (x / p) + x % p;
    assert p * (x / p) == 2 * p * q + p * (x / p % 2);
    assert 0 <= p * (x / p % 2) <= p;
    QuotientIs(x, 2 * p, q);
  }

  lemma LowBit(y: int, m: nat)
    requires m > 0
    ensures y % (2 * m) == y % 2 + 2 * (y / 2 % m)
  {
    var h := y / 2;
    var q := h / m;
    assert h == m * q + h % m;
    assert y - 2 * m * q == y % 2 + 2 * (h % m);
    QuotientIs(y, 2 * m, q);
    assert 2 * m * q == 2 * (m * q);
  }

  function DotExtract(a: Rows, b: Rows, n: nat, i: nat, j: nat, m: nat): int
    requires Square(a, n) && Square(b, n) && i < n && j < n && m <= n
  {
    if m == 0 then 0 else DotExtract(a, b, n, i, j, m - 1) + Extract(ToS32(a[i][m - 1] * b[m - 1][j]))
  }

  /** The same with bit fields: a single entry v at (p, q) leaves in column q what they give of
      v times column p. */
  lemma {:induction false} ExtractSingle(a: Rows, e: Rows, n: nat, p: nat, q: nat, v: int, i: nat, j: nat, m: nat)
    requires p < n && q < n && Square(a, n) && Single(e, n, p, q, v) && i < n && j < n && m <= n
    ensures DotExtract(a, e, n, i, j, m) == if j == q && p < m then Extract(ToS32(a[i][p] * v)) else 0
  {
    if m > 0 {
      ExtractSingle(a, e, n, p, q, v, i, j, m - 1);
      ExtractNothing();
      hide Extract, ToS32;
      assert e[m - 1][j] == if m - 1 == p && j == q then v else 0;
    }
  }

  lemma ExtractNothing()
    ensures Extract(ToS32(0)) == 0
  {
  }

  // ------------------------------------------------------------------ the loops

  method MatrixAddConst(n: nat, a: array2<int>, val: s16)
    requires a.Length0 == a.Length1 == n
    modifies a
    ensures RowsOf(a) == AddConst(old(RowsOf(a)), n, val)
    ensures forall i, j :: 0 <= i < n && 0 <= j < n ==> a[i, j] == ToS16(old(a[i, j]) + val)
  {
    ghost var a0 := RowsOf(a);
    var i := 0;
    while i < n
      invariant 0 <= i <= n
      invariant forall x, y :: 0 <= x < n && 0 <= y < n ==> a[x, y] == if x < i then ToS16(a0[x][y] + val) else a0[x][y]
    {
      var j := 0;
      while j < n
        invariant 0 <= j <= n
        invariant forall x, y :: 0 <= x < n && 0 <= y < n ==>
          a[x, y] == if x < i || (x == i && y < j) then ToS16(a0[x][y] + val) else a0[x][y]
      {
        a[i, j] := ToS16(a[i, j] + val);
        j := j + 1;
      }
      i := i + 1;
    }
    RowsEqual(RowsOf(a), AddConst(a0, n, val), n);
  }

  method MatrixMulConst(n: nat, c: array2<int>, a: array2<int>, val: s16)
    requires a.Length0 == a.Length1 == c.Length0 == c.Length1 == n && a != c
    modifies c
    ensures RowsOf(c) == MulConst(RowsOf(a), n, val)
    ensures forall i, j :: 0 <= i < n && 0 <= j < n ==> c[i, j] == ToS32(a[i, j] * val)
  {
    ghost var a0 := RowsOf(a);
    var i := 0;
    while i < n
      invariant 0 <= i <= n
      invariant forall x, y :: 0 <= x < i && 0 <= y < n ==> c[x, y] == ToS32(a0[x][y] * val)
    {
      var j := 0;
      while j < n
        invariant 0 <= j <= n
        invariant forall x, y :: 0 <= x < i && 0 <= y < n ==> c[x, y] == ToS32(a0[x][y] * val)
        invariant forall y :: 0 <= y < j ==> c[i, y] == ToS32(a0[i][y] * val)
      {
        c[i, j] := ToS32(a[i, j] * val);
        j := j + 1;
      }
      i := i + 1;
    }
    RowsEqual(RowsOf(c), MulConst(a0, n, val), n);
  }

  /** The result vector takes the first N entries of C, its row 0. */
  function MulVect(c: Rows, a: Rows, b: Rows, n: nat): (r: Rows)
    requires Square(a, n) && Square(b, n) && Square(c, n)
    ensures Square(r, n)
  {
    seq(n, i requires 0 <= i < n =>
      seq(n, j requires 0 <= j < n => if i == 0 then ToS32(DotVect(a, b, n, j, n)) else c[i][j]))
  }

  method MatrixMulVect(n: nat, c: array2<int>, a: array2<int>, b: array2<int>)
    requires a.Length0 == a.Length1 == b.Length0 == b.Length1 == c.Length0 == c.Length1 == n && a != c && b != c
    modifies c
    ensures RowsOf(c) == MulVect(old(RowsOf(c)), RowsOf(a), RowsOf(b), n)
    ensures forall j :: 0 <= j < n ==> c[0, j] == ToS32(DotVect(RowsOf(a), RowsOf(b), n, j, n))
    ensures forall i, j :: 0 < i < n && 0 <= j < n ==> c[i, j] == old(c[i, j])
  {
    hide ToS32;
    ghost var a0, b0, c0 := RowsOf(a), RowsOf(b), RowsOf(c);
    var i := 0;
    while i < n
      invariant 0 <= i <= n
      invariant forall y :: 0 <= y < i ==> c[0, y] == ToS32(DotVect(a0, b0, n, y, n))
      invariant forall x, y :: 0 <= x < n && 0 <= y < n && !(x == 0 && y < i) ==> c[x, y] == c0[x][y]
    {
      RowTimesVector(n, c, a, b, i);
      i := i + 1;
    }
    RowsEqual(RowsOf(c), MulVect(c0, a0, b0, n), n);
  }

  lemma WrapZero()
    ensures ToS32(0) == 0
  {
  }

  /** The inner loop: C[i] is set to row i of A times the first N entries of B. */
  method RowTimesVector(n: nat, c: array2<int>, a: array2<int>, b: array2<int>, i: nat)
    requires a.Length0 == a.Length1 == b.Length0 == b.Length1 == c.Length0 == c.Length1 == n && a != c && b != c
    requires i < n
    modifies c
    ensures c[0, i] == ToS32(DotVect(RowsOf(a), RowsOf(b), n, i, n))
    ensures forall x, y :: 0 <= x < n && 0 <= y < n && !(x == 0 && y == i) ==> c[x, y] == old(c[x, y])
  {
    WrapZero();
    hide ToS32;
    ghost var a0, b0 := RowsOf(a), RowsOf(b);
    c[0, i] := 0;
    var j := 0;
    while j < n
      invariant 0 <= j <= n
      invariant c[0, i] == ToS32(DotVect(a0, b0, n, i, j))
      invariant forall x, y :: 0 <= x < n && 0 <= y < n && !(x == 0 && y == i) ==> c[x, y] == old(c[x, y])
      invariant RowsOf(a) == a0 && RowsOf(b) == b0
    {
      WrapAdd(DotVect(a0, b0, n, i, j), a[i, j] * b[0, j]);
      c[0, i] := ToS32(c[0, i] + a[i, j] * b[0, j]);
      j := j + 1;
    }
  }

  function MulMatrix(a: Rows, b: Rows, n: nat): (r: Rows)
    requires Square(a, n) && Square(b, n)
    ensures Square(r, n)
  {
    seq(n, i requires 0 <= i < n => seq(n, j requires 0 <= j < n => ToS32(Dot(a, b, n, i, j, n))))
  }

  function MulMatrixExtract(a: Rows, b: Rows, n: nat): (r: Rows)
    requires Square(a, n) && Square(b, n)
    ensures Square(r, n)
  {
    seq(n, i requires 0 <= i < n => seq(n, j requires 0 <= j < n => ToS32(DotExtract(a, b, n, i, j, n))))
  }

  /** The innermost loop: one entry of the product. */
  method RowTimesColumn(n: nat, c: array2<int>, a: array2<int>, b: array2<int>, i: nat, j: nat)
    requires a.Length0 == a.Length1 == b.Length0 == b.Length1 == c.Length0 == c.Length1 == n && a != c && b != c
    requires i < n && j < n
    modifies c
    ensures c[i, j] == ToS32(Dot(RowsOf(a), RowsOf(b), n, i, j, n))
    ensures forall x, y :: 0 <= x < n && 0 <= y < n && !(x == i && y == j) ==> c[x, y] == old(c[x, y])
  {
    WrapZero();
    hide ToS32;
    ghost var a0, b0 := RowsOf(a), RowsOf(b);
    c[i, j] := 0;
    var k := 0;
    while k < n
      invariant 0 <= k <= n
      invariant c[i, j] == ToS32(Dot(a0, b0, n, i, j, k))
      invariant forall x, y :: 0 <= x < n && 0 <= y < n && !(x == i && y == j) ==> c[x, y] == old(c[x, y])
      invariant RowsOf(a) == a0 && RowsOf(b) == b0
    {
      WrapAdd(Dot(a0, b0, n, i, j, k), a[i, k] * b[k, j]);
      c[i, j] := ToS32(c[i, j] + a[i, k] * b[k, j]);
      k := k + 1;
    }
  }

  method MatrixMulMatrix(n: nat, c: array2<int>, a: array2<int>, b: array2<int>)
    requires a.Length0 == a.Length1 == b.Length0 == b.Length1 == c.Length0 == c.Length1 == n && a != c && b != c
    modifies c
    ensures RowsOf(c) == MulMatrix(RowsOf(a), RowsOf(b), n)
    ensures forall i, j :: 0 <= i < n && 0 <= j < n ==> c[i, j] == ToS32(Dot(RowsOf(a), RowsOf(b), n, i, j, n))
  {
    hide ToS32;
    ghost var a0, b0 := RowsOf(a), RowsOf(b);
    var i := 0;
    while i < n
      invariant 0 <= i <= n
      invariant forall x, y :: 0 <= x < i && 0 <= y < n ==> c[x, y] == ToS32(Dot(a0, b0, n, x, y, n))
    {
      var j := 0;
      while j < n
        invariant 0 <= j <= n
        invariant forall x, y :: 0 <= x < i && 0 <= y < n ==> c[x, y] == ToS32(Dot(a0, b0, n, x, y, n))
        invariant forall y :: 0 <= y < j ==> c[i, y] == ToS32(Dot(a0, b0, n, i, y, n))
      {
        RowTimesColumn(n, c, a, b, i, j);
        j := j + 1;
      }
      i := i + 1;
    }
    RowsEqual(RowsOf(c), MulMatrix(a0, b0, n), n);
  }

  method RowTimesColumnExtract(n: nat, c: array2<int>, a: array2<int>, b: array2<int>, i: nat, j: nat)
    requires a.Length0 == a.Length1 == b.Length0 == b.Length1 == c.Length0 == c.Length1 == n && a != c && b != c
    requires i < n && j < n
    modifies c
    ensures c[i, j] == ToS32(DotExtract(RowsOf(a), RowsOf(b), n, i, j, n))
    ensures forall x, y :: 0 <= x < n && 0 <= y < n && !(x == i && y == j) ==> c[x, y] == old(c[x, y])
  {
    WrapZero();
    hide ToS32, Extract;
    ghost var a0, b0 := RowsOf(a), RowsOf(b);
    c[i, j] := 0;
    var k := 0;
    while k < n
      invariant 0 <= k <= n
      invariant c[i, j] == ToS32(DotExtract(a0, b0, n, i, j, k))
      invariant forall x, y :: 0 <= x < n && 0 <= y < n && !(x == i && y == j) ==> c[x, y] == old(c[x, y])
      invariant RowsOf(a) == a0 && RowsOf(b) == b0
    {
      var tmp := ToS32(a[i, k] * b[k, j]);
      WrapAdd(DotExtract(a0, b0, n, i, j, k), Extract(tmp));
      c[i, j] := ToS32(c[i, j] + Extract(tmp));
      k := k + 1;
    }
  }

  method MatrixMulMatrixBitextract(n: nat, c: array2<int>, a: array2<int>, b: array2<int>)
    requires a.Length0 == a.Length1 == b.Length0 == b.Length1 == c.Length0 == c.Length1 == n && a != c && b != c
    modifies c
    ensures RowsOf(c) == MulMatrixExtract(RowsOf(a), RowsOf(b), n)
    ensures forall i, j :: 0 <= i < n && 0 <= j < n ==>
      c[i, j] == ToS32(DotExtract(RowsOf(a), RowsOf(b), n, i, j, n))
  {
    hide ToS32;
    ghost var a0, b0 := RowsOf(a), RowsOf(b);
    var i := 0;
    while i < n
      invariant 0 <= i <= n
      invariant forall x, y :: 0 <= x < i && 0 <= y < n ==> c[x, y] == ToS32(DotExtract(a0, b0, n, x, y, n))
    {
      var j := 0;
      while j < n
        invariant 0 <= j <= n
        invariant forall x, y :: 0 <= x < i && 0 <= y < n ==> c[x, y] == ToS32(DotExtract(a0, b0, n, x, y, n))
        invariant forall y :: 0 <= y < j ==> c[i, y] == ToS32(DotExtract(a0, b0, n, i, y, n))
      {
        RowTimesColumnExtract(n, c, a, b, i, j);
        j := j + 1;
      }
      i := i + 1;
    }
    RowsEqual(RowsOf(c), MulMatrixExtract(a0, b0, n), n);
  }

  // ------------------------------------------------------------ no overflow

  predicate Bounded(m: Rows, n: nat, lo: int, hi: int)
    requires Square(m, n)
  {
    forall i, j :: 0 <= i < n && 0 <= j < n ==> lo <= m[i][j] <= hi
  }

  lemma {:induction false} DotBound(a: Rows, b: Rows, n: nat, i: nat, j: nat, m: nat)
    requires Square(a, n) && Square(b, n) && i < n && j < n && m <= n
    requires Bounded(a, n, -510, 510) && Bounded(b, n, -0x8000, 0x7fff)
    ensures -510 * 0x8000 * m <= Dot(a, b, n, i, j, m) <= 510 * 0x8000 * m
  {
    if m > 0 {
      DotBound(a, b, n, i, j, m - 1);
      ProductBound(a[i][m - 1], b[m - 1][j]);
    }
  }

  lemma ProductBound(x: int, y: int)
    requires -510 <= x <= 510 && -0x8000 <= y <= 0x7fff
    ensures -510 * 0x8000 <= x * y <= 510 * 0x8000
  {
    var z := if x >= 0 then x else -x;
    NonNegative(z, 0x8000 - y);
    NonNegative(z, 0x8000 + y);
    assert z * (0x8000 - y) == z * 0x8000 - z * y && z * (0x8000 + y) == z * 0x8000 + z * y;
    assert z * y == x * y || z * y == -(x * y);
  }

  lemma NonNegative(x: int, y: int)
    requires x >= 0 && y >= 0
    ensures x * y >= 0
  {
  }

  lemma {:induction false} DotVectBound(a: Rows, b: Rows, n: nat, i: nat, m: nat)
    requires Square(a, n) && Square(b, n) && i < n && m <= n
    requires Bounded(a, n, -510, 510) && Bounded(b, n, -0x8000, 0x7fff)
    ensures -510 * 0x8000 * m <= DotVect(a, b, n, i, m) <= 510 * 0x8000 * m
  {
    if m > 0 {
      DotVectBound(a, b, n, i, m - 1);
      ProductBound(a[i][m - 1], b[0][m - 1]);
    }
  }

  predicate InWord(x: int) {
    -0x8000_0000 <= x < 0x8000_0000
  }

  lemma SingleProducts(a: Rows, b: Rows, n: nat)
    requires Square(a, n) && Square(b, n)
    requires Bounded(a, n, -510, 510) && Bounded(b, n, -0x8000, 0x7fff)
    ensures forall i, k, x, y :: 0 <= i < n && 0 <= k < n && 0 <= x < n && 0 <= y < n ==> InWord(a[i][k] * b[x][y])
  {
    forall i, k, x, y | 0 <= i < n && 0 <= k < n && 0 <= x < n && 0 <= y < n
      ensures InWord(a[i][k] * b[x][y])
    {
      SingleProduct(a, b, n, i, k, x, y);
    }
  }

  lemma SingleProduct(a: Rows, b: Rows, n: nat, i: nat, k: nat, x: nat, y: nat)
    requires Square(a, n) && Square(b, n) && i < n && k < n && x < n && y < n
    requires Bounded(a, n, -510, 510) && Bounded(b, n, -0x8000, 0x7fff)
    ensures InWord(a[i][k] * b[x][y])
  {
    ProductBound(a[i][k], b[x][y]);
  }

  lemma PartialSums(a: Rows, b: Rows, n: nat)
    requires Square(a, n) && Square(b, n) && n <= 128
    requires Bounded(a, n, -510, 510) && Bounded(b, n, -0x8000, 0x7fff)
    ensures forall i, j, m :: 0 <= i < n && 0 <= j < n && 0 <= m <= n ==> InWord(Dot(a, b, n, i, j, m))
    ensures forall i, m :: 0 <= i < n && 0 <= m <= n ==> InWord(DotVect(a, b, n, i, m))
  {
    hide Bounded, Dot, DotVect;
    forall i, j, m | 0 <= i < n && 0 <= j < n && 0 <= m <= n
      ensures InWord(Dot(a, b, n, i, j, m))
    {
      DotBound(a, b, n, i, j, m);
    }
    forall i, m | 0 <= i < n && 0 <= m <= n
      ensures InWord(DotVect(a, b, n, i, m))
    {
      DotVectBound(a, b, n, i, m);
    }
  }

  lemma ProductEntries(c: Rows, a: Rows, b: Rows, n: nat)
    requires Square(c, n) && Square(a, n) && Square(b, n)
    requires forall i, j, m :: 0 <= i < n && 0 <= j < n && 0 <= m <= n ==> InWord(Dot(a, b, n, i, j, m))
    requires forall i, m :: 0 <= i < n && 0 <= m <= n ==> InWord(DotVect(a, b, n, i, m))
    ensures forall i, j :: 0 <= i < n && 0 <= j < n ==> MulMatrix(a, b, n)[i][j] == Dot(a, b, n, i, j, n)
    ensures forall i :: 0 <= i < n ==> MulVect(c, a, b, n)[0][i] == DotVect(a, b, n, i, n)
  {
    hide Dot, DotVect;
  }

  /** With A at most 510 in size, B any 16-bit values and N at most 128, no product and no
      partial sum of the matrix or the vector product leaves 32 bits: the results are the
      exact integer products. */
  lemma ProductsExact(c: Rows, a: Rows, b: Rows, n: nat)
    requires Square(c, n) && Square(a, n) && Square(b, n) && n <= 128
    requires Bounded(a, n, -510, 510) && Bounded(b, n, -0x8000, 0x7fff)
    ensures forall i, k, x, y :: 0 <= i < n && 0 <= k < n && 0 <= x < n && 0 <= y < n ==> InWord(a[i][k] * b[x][y])
    ensures forall i, j, m :: 0 <= i < n && 0 <= j < n && 0 <= m <= n ==> InWord(Dot(a, b, n, i, j, m))
    ensures forall i, m :: 0 <= i < n && 0 <= m <= n ==> InWord(DotVect(a, b, n, i, m))
    ensures forall i, j :: 0 <= i < n && 0 <= j < n ==> MulMatrix(a, b, n)[i][j] == Dot(a, b, n, i, j, n)
    ensures forall i :: 0 <= i < n ==> MulVect(c, a, b, n)[0][i] == DotVect(a, b, n, i, n)
  {
    hide *;
    SingleProducts(a, b, n);
    PartialSums(a, b, n);
    ProductEntries(c, a, b, n);
  }

  // -------------------------------------------------------------- matrix_test

  /** `-val` as a 16-bit argument */
  function Negated(val: s16): s16 {
    ToS16(-(val as int))
  }

  /** Adding val and then -val gives every 16-bit matrix back, wrap-around included. */
  lemma AddConstUndone(a: Rows, n: nat, val: s16)
    requires Square(a, n) && Bounded(a, n, -0x8000, 0x7fff)
    ensures AddConst(AddConst(a, n, val), n, Negated(val)) == a
  {
    var t := AddConst(a, n, val);
    var r := AddConst(t, n, Negated(val));
    forall i, j | 0 <= i < n && 0 <= j < n
      ensures r[i][j] == a[i][j]
    {
      assert a[i][j] == a[i][j] as s16;
      AddConstAt(a, n, val, i, j);
      AddConstAt(t, n, Negated(val), i, j);
      Undo16(a[i][j], val);
    }
    hide AddConst;
    RowsEqual(r, a, n);
  }

  lemma AddConstAt(a: Rows, n: nat, val: s16, i: nat, j: nat)
    requires Square(a, n) && i < n && j < n
    ensures AddConst(a, n, val)[i][j] == ToS16(a[i][j] + val)
  {
    hide ToS16;
  }

  lemma Undo16(x: s16, val: s16)
    ensures ToS16(ToS16(x + val) + Negated(val)) == x
  {
  }

  datatype Accumulator = Accumulator(tmp: int, prev: int, ret: int)

  /** One turn of `matrix_sum`. */
  function Accumulate(s: Accumulator, cur: int, clipval: s16): Accumulator {
    var tmp := ToS32(s.tmp + cur);
    if tmp > clipval then Accumulator(0, cur, ToS16(s.ret + 10))
    else Accumulator(tmp, cur, ToS16(s.ret + (if cur > s.prev then 1 else 0)))
  }

  function SumRow(row: seq<int>, m: nat, s: Accumulator, clipval: s16): Accumulator
    requires m <= |row|
  {
    if m == 0 then s else Accumulate(SumRow(row, m - 1, s, clipval), row[m - 1], clipval)
  }

  function SumRows(c: Rows, n: nat, m: nat, clipval: s16): Accumulator
    requires Square(c, n) && m <= n
  {
    if m == 0 then Accumulator(0, 0, 0) else SumRow(c[m - 1], n, SumRows(c, n, m - 1, clipval), clipval)
  }

  /** `matrix_sum` as a 16-bit pattern */
  function SumOf(c: Rows, n: nat, clipval: s16): u16
    requires Square(c, n)
  {
    SumRows(c, n, n, clipval).ret % 0x1_0000
  }

  method MatrixSum(n: nat, c: array2<int>, clipval: s16) returns (r: u16)
    requires c.Length0 == c.Length1 == n
    ensures r == SumOf(RowsOf(c), n, clipval)
  {
    hide SumRow;
    ghost var c0 := RowsOf(c);
    var tmp: int, prev: int, ret: int := 0, 0, 0;
    var i := 0;
    while i < n
      invariant 0 <= i <= n
      invariant Accumulator(tmp, prev, ret) == SumRows(c0, n, i, clipval)
    {
      tmp, prev, ret := SumOneRow(n, c, clipval, i, tmp, prev, ret);
      i := i + 1;
    }
    r := ret % 0x1_0000;
  }

  /** The inner loop of `matrix_sum`. */
  method SumOneRow(n: nat, c: array2<int>, clipval: s16, i: nat, tmp0: int, prev0: int, ret0: int)
    returns (tmp: int, prev: int, ret: int)
    requires c.Length0 == c.Length1 == n && i < n
    ensures Accumulator(tmp, prev, ret) == SumRow(RowsOf(c)[i], n, Accumulator(tmp0, prev0, ret0), clipval)
  {
    hide ToS16, ToS32;
    tmp, prev, ret := tmp0, prev0, ret0;
    ghost var row := RowsOf(c)[i];
    var j := 0;
    while j < n
      invariant 0 <= j <= n
      invariant Accumulator(tmp, prev, ret) == SumRow(row, j, Accumulator(tmp0, prev0, ret0), clipval)
    {
      var cur: int := c[i, j];
      tmp := ToS32(tmp + cur);
      if tmp > clipval {
        ret := ToS16(ret + 10);
        tmp := 0;
      } else {
        ret := ToS16(ret + (if cur > prev then 1 else 0));
      }
      prev := cur;
      j := j + 1;
    }
  }

  // ------------------------------------------------------------- what the sum counts

  /** The entries row by row. */
  function Flat(c: Rows, n: nat, m: nat): (e: seq<int>)
    requires Square(c, n) && m <= n
    ensures |e| == m * n
    ensures forall i, j :: 0 <= i < m && 0 <= j < n ==> EntryIs(e, i * n + j, c[i][j])
  {
    if m == 0 then [] else
      var e := Flat(c, n, m - 1) + c[m - 1];
      FlatEntries(c, n, m, e);
      e
  }

  predicate EntryIs(e: seq<int>, k: int, x: int) {
    0 <= k < |e| && e[k] == x
  }

  lemma FlatEntries(c: Rows, n: nat, m: nat, e: seq<int>)
    requires Square(c, n) && 0 < m <= n && |e| == m * n && e[(m - 1) * n..] == c[m - 1]
    requires forall i, j :: 0 <= i < m - 1 && 0 <= j < n ==> EntryIs(e[..(m - 1) * n], i * n + j, c[i][j])
    ensures forall i, j :: 0 <= i < m && 0 <= j < n ==> EntryIs(e, i * n + j, c[i][j])
  {
    forall i, j | 0 <= i < m && 0 <= j < n
      ensures EntryIs(e, i * n + j, c[i][j])
    {
      if i < m - 1 {
        assert EntryIs(e[..(m - 1) * n], i * n + j, c[i][j]);
      } else {
        assert e[(m - 1) * n..][j] == e[(m - 1) * n + j];
      }
    }
  }

  /** The sum of the entries from i on to j. */
  function SumOver(e: seq<int>, i: nat, j: nat): int
    requires i <= j <= |e|
  {
    if i == j then 0 else SumOver(e, i, j - 1) + e[j - 1]
  }

  /** The sum behind the last clip, up to entry k, is above the limit. */
  predicate ClipAt(e: seq<int>, clipval: s16, k: nat)
    requires k < |e|
    decreases k, 1
  {
    ToS32(SumOver(e, BehindClip(e, clipval, k), k + 1)) > clipval
  }

  /** The place behind the last clip before k. */
  function BehindClip(e: seq<int>, clipval: s16, k: nat): (i: nat)
    requires k <= |e|
    ensures i <= k
    decreases k, 0
  {
    if k == 0 then 0 else if ClipAt(e, clipval, k - 1) then k else BehindClip(e, clipval, k - 1)
  }

  /** Entry k does not clip and is larger than the one in front of it; the first one is compared
      with 0. */
  predicate RiseAt(e: seq<int>, clipval: s16, k: nat)
    requires k < |e|
  {
    !ClipAt(e, clipval, k) && e[k] > if k == 0 then 0 else e[k - 1]
  }

  function Clips(e: seq<int>, clipval: s16, n: nat): nat
    requires n <= |e|
  {
    if n == 0 then 0 else Clips(e, clipval, n - 1) + (if ClipAt(e, clipval, n - 1) then 1 else 0)
  }

  function Rises(e: seq<int>, clipval: s16, n: nat): nat
    requires n <= |e|
  {
    if n == 0 then 0 else Rises(e, clipval, n - 1) + (if RiseAt(e, clipval, n - 1) then 1 else 0)
  }

  lemma WrapAdd16(x: int, y: int)
    ensures ToS16(ToS16(x) + y) == ToS16(x + y)
  {
    var k := (x + 0x8000) / 0x1_0000;
    assert ToS16(x) == x - k * 0x1_0000;
    Wrap16(x + y, k);
  }

  lemma Wrap16(x: int, k: int)
    ensures ToS16(x - k * 0x1_0000) == ToS16(x)
  {
    var q, r := (x + 0x8000) / 0x1_0000, (x + 0x8000) % 0x1_0000;
    assert x - k * 0x1_0000 + 0x8000 == (q - k) * 0x1_0000 + r;
  }

  /** The accumulator after k entries. */
  lemma {:induction false} AccumulatorAt(e: seq<int>, clipval: s16, k: nat)
    requires k <= |e|
    ensures SumRow(e, k, Accumulator(0, 0, 0), clipval) == Accumulator(
      ToS32(SumOver(e, BehindClip(e, clipval, k), k)), if k == 0 then 0 else e[k - 1],
      ToS16(10 * Clips(e, clipval, k) + Rises(e, clipval, k)))
  {
    hide *;
    if k == 0 {
      AccumulatorStart(e, clipval);
    } else {
      AccumulatorAt(e, clipval, k - 1);
      var i := BehindClip(e, clipval, k - 1);
      WrapAdd(SumOver(e, i, k - 1), e[k - 1]);
      CountsAt(e, clipval, k);
      var r := 10 * Clips(e, clipval, k - 1) + Rises(e, clipval, k - 1);
      WrapAdd16(r, 10);
      WrapAdd16(r, 1);
      WrapAdd16(r, 0);
      NextEntry(e, k, clipval, SumRow(e, k - 1, Accumulator(0, 0, 0), clipval));
    }
  }

  lemma AccumulatorStart(e: seq<int>, clipval: s16)
    ensures SumRow(e, 0, Accumulator(0, 0, 0), clipval) == Accumulator(
      ToS32(SumOver(e, BehindClip(e, clipval, 0), 0)), 0, ToS16(10 * Clips(e, clipval, 0) + Rises(e, clipval, 0)))
  {
  }

  lemma NextEntry(e: seq<int>, k: nat, clipval: s16, s: Accumulator)
    requires 0 < k <= |e| && s == SumRow(e, k - 1, Accumulator(0, 0, 0), clipval)
    ensures SumRow(e, k, Accumulator(0, 0, 0), clipval) ==
      if ToS32(s.tmp + e[k - 1]) > clipval then Accumulator(0, e[k - 1], ToS16(s.ret + 10))
      else Accumulator(ToS32(s.tmp + e[k - 1]), e[k - 1], ToS16(s.ret + (if e[k - 1] > s.prev then 1 else 0)))
  {
    hide ToS16, ToS32;
  }

  lemma CountsAt(e: seq<int>, clipval: s16, k: nat)
    requires 0 < k <= |e|
    ensures var i, x := BehindClip(e, clipval, k - 1), e[k - 1];
      var clip, rise := ClipAt(e, clipval, k - 1), RiseAt(e, clipval, k - 1);
      && SumOver(e, i, k) == SumOver(e, i, k - 1) + x && (clip <==> ToS32(SumOver(e, i, k)) > clipval)
      && (rise <==> !clip && x > if k == 1 then 0 else e[k - 2])
      && Clips(e, clipval, k) == Clips(e, clipval, k - 1) + (if clip then 1 else 0)
      && Rises(e, clipval, k) == Rises(e, clipval, k - 1) + (if rise then 1 else 0)
      && BehindClip(e, clipval, k) == (if clip then k else i)
      && SumOver(e, k, k) == 0 && ToS32(0) == 0
  {
  }

  /** Rows one after the other are the flat sequence. */
  lemma {:induction false} RowsAreFlat(c: Rows, n: nat, m: nat, clipval: s16)
    requires Square(c, n) && m <= n
    ensures SumRows(c, n, m, clipval) == SumRow(Flat(c, n, m), |Flat(c, n, m)|, Accumulator(0, 0, 0), clipval)
  {
    hide *;
    if m > 0 {
      RowsAreFlat(c, n, m - 1, clipval);
      FlatNext(c, n, m, clipval);
      RowBehind(Flat(c, n, m - 1), c[m - 1], n, Accumulator(0, 0, 0), clipval);
    } else {
      FlatNone(c, n, m, clipval);
    }
  }

  lemma FlatNone(c: Rows, n: nat, m: nat, clipval: s16)
    requires Square(c, n) && m == 0
    ensures SumRows(c, n, m, clipval) == SumRow(Flat(c, n, m), |Flat(c, n, m)|, Accumulator(0, 0, 0), clipval)
  {
  }

  lemma FlatNext(c: Rows, n: nat, m: nat, clipval: s16)
    requires Square(c, n) && 0 < m <= n
    ensures |c| == n && |c[m - 1]| == n && Flat(c, n, m) == Flat(c, n, m - 1) + c[m - 1]
    ensures SumRows(c, n, m, clipval) == SumRow(c[m - 1], n, SumRows(c, n, m - 1, clipval), clipval)
  {
    hide SumRow;
  }

  lemma {:induction false} RowBehind(a: seq<int>, b: seq<int>, k: nat, s: Accumulator, clipval: s16)
    requires k <= |b|
    ensures SumRow(a + b, |a| + k, s, clipval) == SumRow(b, k, SumRow(a, |a|, s, clipval), clipval)
  {
    hide Accumulate;
    if k > 0 {
      RowBehind(a, b, k - 1, s, clipval);
    } else {
      SamePrefix(a, b, |a|, s, clipval);
    }
  }

  lemma {:induction false} SamePrefix(a: seq<int>, b: seq<int>, k: nat, s: Accumulator, clipval: s16)
    requires k <= |a|
    ensures SumRow(a + b, k, s, clipval) == SumRow(a, k, s, clipval)
  {
    hide Accumulate;
    if k > 0 {
      SamePrefix(a, b, k - 1, s, clipval);
    }
  }

  /** `matrix_sum` is ten times the clips and once the rises, on 16 bits. */
  lemma SumCounts(c: Rows, n: nat, clipval: s16)
    requires Square(c, n)
    ensures var e := Flat(c, n, n);
      SumOf(c, n, clipval) == (10 * Clips(e, clipval, |e|) + Rises(e, clipval, |e|)) % 0x1_0000
  {
    hide *;
    var e := Flat(c, n, n);
    RowsAreFlat(c, n, n, clipval);
    AccumulatorAt(e, clipval, |e|);
    PatternOf(10 * Clips(e, clipval, |e|) + Rises(e, clipval, |e|));
    SumIs(c, n, clipval);
  }

  lemma SumIs(c: Rows, n: nat, clipval: s16)
    requires Square(c, n)
    ensures SumOf(c, n, clipval) == SumRows(c, n, n, clipval).ret % 0x1_0000
  {
    hide SumRows;
  }

  lemma PatternOf(x: int)
    ensures ToS16(x) % 0x1_0000 == x % 0x1_0000
  {
  }

  /** With a negative limit and no negative entry every entry clips. */
  lemma AllClip(c: Rows, n: nat, clipval: s16)
    requires Square(c, n) && clipval < 0
    requires forall i, j :: 0 <= i < n && 0 <= j < n ==> 0 <= c[i][j] < 0x8000_0000
    ensures SumOf(c, n, clipval) == 10 * (n * n) % 0x1_0000
  {
    hide *;
    var e := Flat(c, n, n);
    FlatBounds(c, n, n);
    FlatSize(c, n, n);
    SumCounts(c, n, clipval);
    ClipsAll(e, clipval, |e|);
  }

  lemma FlatSize(c: Rows, n: nat, m: nat)
    requires Square(c, n) && m <= n
    ensures |Flat(c, n, m)| == m * n
  {
  }

  lemma {:induction false} FlatBounds(c: Rows, n: nat, m: nat)
    requires Square(c, n) && m <= n
    requires forall i, j :: 0 <= i < n && 0 <= j < n ==> 0 <= c[i][j] < 0x8000_0000
    ensures forall k :: 0 <= k < |Flat(c, n, m)| ==> 0 <= Flat(c, n, m)[k] < 0x8000_0000
  {
    if m > 0 {
      FlatBounds(c, n, m - 1);
      hide Flat, SumRows;
      FlatNext(c, n, m, 0);
    } else {
      assert Flat(c, n, m) == [];
    }
  }

  lemma {:induction false} ClipsAll(e: seq<int>, clipval: s16, k: nat)
    requires k <= |e| && clipval < 0 && forall i :: 0 <= i < |e| ==> 0 <= e[i] < 0x8000_0000
    ensures Clips(e, clipval, k) == k && Rises(e, clipval, k) == 0 && BehindClip(e, clipval, k) == k
  {
    hide *;
    if k > 0 {
      ClipsAll(e, clipval, k - 1);
      CountsAt(e, clipval, k);
      NothingYet(e, clipval, k - 1);
      InWordAsIs(e[k - 1]);
    } else {
      NothingYet(e, clipval, 0);
    }
  }

  lemma NothingYet(e: seq<int>, clipval: s16, k: nat)
    requires k <= |e|
    ensures Clips(e, clipval, 0) == 0 && Rises(e, clipval, 0) == 0 && BehindClip(e, clipval, 0) == 0
    ensures SumOver(e, k, k) == 0
  {
  }

  lemma InWordAsIs(x: int)
    requires 0 <= x < 0x8000_0000
    ensures ToS32(x) == x
  {
  }

  /** matrix_big(val) */
  function Big(val: s16): s16 {
    ToS16(Or(0xf000, val % 0x1_0000))
  }

  /** The limit is negative, with the low twelve bits of the value. */
  lemma BigMeans(val: s16)
    ensures -0x1000 <= Big(val) < 0 && Big(val) % 0x1000 == val % 0x1000
  {
    BigIs(val);
    hide *;
    var w := val % 0x1_0000;
    var lo, hi := TwelveBits(w);
    BigParts(lo, hi);
    BigWraps(lo, val, w);
  }

  lemma BigIs(val: s16)
    ensures Big(val) == ToS16(Or(0xf000, val % 0x1_0000))
  {
    hide Or, ToS16;
  }

  lemma TwelveBits(w: u16) returns (lo: nat, hi: nat)
    ensures w == lo + 0x1000 * hi && lo == w % 0x1000 && hi < 16
  {
    lo, hi := w % 0x1000, w / 0x1000;
  }

  lemma BigParts(lo: nat, hi: nat)
    requires lo < 0x1000 && hi < 16
    ensures Or(0xf000, lo + 0x1000 * hi) == lo + 0xf000
  {
    FourBits(hi);
    ShiftTwelve(15);
    ShiftTwelve(hi);
    hide *;
    OrParts(0, 15, lo, hi, 12);
    OrZero(lo);
  }

  lemma FourBits(hi: nat)
    requires hi < 16
    ensures Or(15, hi) == 15 && Pow2(12) == 0x1000
  {
    assert Pow2(6) == 64;
    assert Or(3, hi / 4) == 3;
    assert Or(7, hi / 2) == 7;
  }

  lemma ShiftTwelve(h: nat)
    ensures Shift(h, 12) == 0x1000 * h
  {
    ShiftValues(h);
    assert Shift(h, 9) == 2 * Shift(h, 8);
    assert Shift(h, 10) == 4 * Shift(h, 8);
    assert Shift(h, 11) == 8 * Shift(h, 8);
  }

  lemma BigWraps(lo: nat, val: s16, w: nat)
    requires w == val % 0x1_0000 && lo == w % 0x1000
    ensures ToS16(lo + 0xf000) == lo - 0x1000 && (lo - 0x1000) % 0x1000 == val % 0x1000
  {
  }

  /** What `matrix_test` computes from A, B and val: the CRC of the four sums. */
  function TestCrc(a: Rows, b: Rows, n: nat, val: s16): u16
    requires Square(a, n) && Square(b, n)
  {
    var clip, a1 := Big(val), AddConst(a, n, val);
    var c1 := MulConst(a1, n, val);
    var c2 := MulVect(c1, a1, b, n);
    var crc1 := CrcOf(Bytes16(SumOf(c1, n, clip)), 0);
    var crc2 := CrcOf(Bytes16(SumOf(c2, n, clip)), crc1);
    var crc3 := CrcOf(Bytes16(SumOf(MulMatrix(a1, b, n), n, clip)), crc2);
    CrcOf(Bytes16(SumOf(MulMatrixExtract(a1, b, n), n, clip)), crc3)
  }

  /** The four sums in order: of A plus the constant times the constant; of the same with its
      first row replaced by the vector product; of the matrix product; of the product of bit
      fields. */
  function TestSums(a: Rows, b: Rows, n: nat, val: s16): (sums: seq<u16>)
    requires Square(a, n) && Square(b, n)
    ensures |sums| == 4
  {
    var clip, a1 := Big(val), AddConst(a, n, val);
    [SumOf(MulConst(a1, n, val), n, clip), SumOf(MulVect(MulConst(a1, n, val), a1, b, n), n, clip),
     SumOf(MulMatrix(a1, b, n), n, clip), SumOf(MulMatrixExtract(a1, b, n), n, clip)]
  }

  /** `matrix_test` returns the CRC of the four sums in a row, each with its low byte first. */
  lemma TestMessage(a: Rows, b: Rows, n: nat, val: s16)
    requires Square(a, n) && Square(b, n)
    ensures var s := TestSums(a, b, n, val);
      TestCrc(a, b, n, val) == CrcOf(Bytes16(s[0]) + Bytes16(s[1]) + Bytes16(s[2]) + Bytes16(s[3]), 0)
  {
    TestChain(a, b, n, val);
    hide *;
    var s := TestSums(a, b, n, val);
    CrcOfAppend(Bytes16(s[0]) + Bytes16(s[1]) + Bytes16(s[2]), Bytes16(s[3]), 0);
    CrcOfAppend(Bytes16(s[0]) + Bytes16(s[1]), Bytes16(s[2]), 0);
    CrcOfAppend(Bytes16(s[0]), Bytes16(s[1]), 0);
  }

  lemma TestChain(a: Rows, b: Rows, n: nat, val: s16)
    requires Square(a, n) && Square(b, n)
    ensures var s := TestSums(a, b, n, val);
      TestCrc(a, b, n, val)
      == CrcOf(Bytes16(s[3]), CrcOf(Bytes16(s[2]), CrcOf(Bytes16(s[1]), CrcOf(Bytes16(s[0]), 0))))
  {
    hide Big, AddConst, MulConst, MulVect, MulMatrix, MulMatrixExtract, SumOf, CrcOf, Bytes16;
  }

  method MatrixTest(n: nat, c: array2<int>, a: array2<int>, b: array2<int>, val: s16) returns (crc: u16)
    requires a.Length0 == a.Length1 == b.Length0 == b.Length1 == c.Length0 == c.Length1 == n && a != c && b != c
      && a != b
    requires Bounded(RowsOf(a), n, -0x8000, 0x7fff)
    modifies a, c
    ensures RowsOf(a) == old(RowsOf(a)) && RowsOf(b) == old(RowsOf(b))
    ensures crc == TestCrc(old(RowsOf(a)), RowsOf(b), n, val)
  {
    hide AddConst, MulConst, MulVect, MulMatrix, MulMatrixExtract, SumOf, ToS16, Big, CrcOf, Bytes16, Bounded;
    var clipval := Big(val);
    ghost var a0, b0 := RowsOf(a), RowsOf(b);
    MatrixAddConst(n, a, val);
    MatrixMulConst(n, c, a, val);
    var sum := MatrixSum(n, c, clipval);
    crc := Crc16(sum, 0);
    MatrixMulVect(n, c, a, b);
    sum := MatrixSum(n, c, clipval);
    crc := Crc16(sum, crc);
    MatrixMulMatrix(n, c, a, b);
    sum := MatrixSum(n, c, clipval);
    crc := Crc16(sum, crc);
    MatrixMulMatrixBitextract(n, c, a, b);
    sum := MatrixSum(n, c, clipval);
    crc := Crc16(sum, crc);
    MatrixAddConst(n, a, Negated(val));
    AddConstUndone(a0, n, val);
  }

  function BenchCrc(a: Rows, b: Rows, n: nat, seed: s16, crc: u16): u16
    requires Square(a, n) && Square(b, n)
  {
    CrcOf(Bytes16(TestCrc(a, b, n, seed)), crc)
  }

  method CoreBenchMatrix(n: nat, c: array2<int>, a: array2<int>, b: array2<int>, seed: s16, crc: u16) returns (r: u16)
    requires a.Length0 == a.Length1 == b.Length0 == b.Length1 == c.Length0 == c.Length1 == n && a != c && b != c
      && a != b
    requires Bounded(RowsOf(a), n, -0x8000, 0x7fff)
    modifies a, c
    ensures RowsOf(a) == old(RowsOf(a)) && RowsOf(b) == old(RowsOf(b))
    ensures r == BenchCrc(old(RowsOf(a)), RowsOf(b), n, seed, crc)
  {
    var t := MatrixTest(n, c, a, b, seed);
    r := Crc16(t, crc);
  }
}
