/** How `core_init_matrix` chooses the dimension, lays the three matrices out in its
    block and fills A and B. */
module MatrixInit {
  import opened MachineInts
  import opened Matrix

  /** The largest dimension the search can reach before 8*i*i passes 2^32. */
  const MAX_DIM := 23170

  lemma SquareMonotone(m: nat, n: nat)
    ensures m <= n ==> m * m <= n * n
    ensures m * m < n * n ==> m < n
  {
    if m <= n {
      assert n * n - m * m == (n - m) * (n + m);
    } else {
      assert m * m - n * n == (m - n) * (m + n);
    }
  }

  /** The bytes three matrices of dimension i need. */
  function Needed(i: nat): nat {
    8 * i * i
  }

  lemma NeededMonotone(m: nat, n: nat)
    ensures Needed(m) < Needed(n) ==> m < n
    ensures m <= n ==> Needed(m) <= Needed(n)
  {
    SquareMonotone(m, n);
    assert Needed(m) == 8 * (m * m) && Needed(n) == 8 * (n * n);
  }

  /** `i * i * 2 * 4`, in 32 bits */
  function Computed(i: nat): u32 {
    i * i * 2 * 4 % 0x1_0000_0000
  }

  lemma ComputedNeeded(i: nat)
    requires i <= MAX_DIM
    ensures Computed(i) == Needed(i)
  {
    NeededMonotone(i, MAX_DIM);
    assert i * i * 2 * 4 == 8 * i * i;
  }

  /** The search loop: N is the largest number with 8*N*N < blksize.  In an empty block the
      loop is not entered, and N is -1 as an unsigned number. */
  method ChooseDimension(blksize: u32) returns (n: u32)
    requires blksize <= 8 * MAX_DIM * MAX_DIM
    ensures blksize == 0 ==> n == 0xFFFF_FFFF
    ensures blksize > 0 ==> Needed(n) < blksize && forall m: nat :: Needed(m) < blksize ==> m <= n
  {
    assert blksize <= Needed(MAX_DIM) && Needed(0) == 0;
    hide Needed, Computed;
    var i, j := 0, 0;
    while j < blksize
      invariant 0 <= i <= MAX_DIM && j == Needed(i)
      invariant i > 0 ==> Needed(i - 1) < blksize
      decreases MAX_DIM - i
    {
      NeededMonotone(i, MAX_DIM);
      i := i + 1;
      ComputedNeeded(i);
      j := Computed(i);
    }
    n := (i - 1) % 0x1_0000_0000;
    if blksize > 0 {
      forall m: nat | Needed(m) < blksize
        ensures m <= n
      {
        NeededMonotone(m, i);
      }
    }
  }

  /** The bound is exact: on a larger block the 32-bit product wraps before it reaches the
      size, and the search goes past the largest dimension that fits. */
  lemma SearchOverruns(blksize: u32, i: nat)
    requires blksize > 8 * MAX_DIM * MAX_DIM && i <= MAX_DIM + 1
    ensures Computed(i) < blksize && Needed(MAX_DIM + 1) >= blksize
  {
    if i <= MAX_DIM {
      ComputedNeeded(i);
      NeededMonotone(i, MAX_DIM);
    }
  }

  // --------------------------------------------------------------------- layout

  /** align_mem */
  function Align(x: nat): nat {
    4 + (x - 1) / 4 * 4
  }

  /** Byte addresses of the three matrices: 16-bit entries in A and B, 32-bit in C. */
  datatype Layout = Layout(a: nat, b: nat, c: nat, end: nat)

  /** The entries of a matrix. */
  function Entries(n: nat): nat {
    n * n
  }

  function LayoutOf(memblk: nat, n: nat): Layout {
    var a := Align(memblk);
    var b := a + 2 * Entries(n);
    var c := Align(b + 2 * Entries(n));
    Layout(a, b, c, c + 4 * Entries(n))
  }

  /** The matrices follow one another without overlap; they stay inside the block
      exactly when the bytes lost to alignment still leave room, which a 4-aligned
      block always does and an unaligned one may not. */
  lemma LayoutFits(memblk: nat, blksize: nat, n: nat)
    requires Needed(n) < blksize
    ensures var l := LayoutOf(memblk, n);
      && memblk <= l.a && l.a + 2 * Entries(n) <= l.b && l.b + 2 * Entries(n) <= l.c && l.a % 4 == 0 && l.c % 4 == 0
      && (l.end <= memblk + blksize <==> (Align(memblk) - memblk) + 8 * Entries(n) <= blksize)
      && (memblk % 4 == 0 ==> l.a == memblk && l.end <= memblk + blksize)
  {
    NeededEntries(n);
    hide Align, Needed, Entries;
    AlignTwice(memblk, Entries(n));
  }

  lemma NeededEntries(n: nat)
    ensures Needed(n) == 8 * Entries(n)
  {
  }

  lemma AlignTwice(memblk: nat, q: nat)
    ensures var a := Align(memblk);
      memblk <= a && a % 4 == 0 && Align(a + 2 * q + 2 * q) == a + 4 * q && (memblk % 4 == 0 ==> a == memblk)
  {
    var a := Align(memblk);
    assert a == 4 * ((memblk - 1) / 4 + 1);
    assert a + 2 * q + 2 * q == 4 * ((memblk - 1) / 4 + 1 + q);
    AlignMultiple((memblk - 1) / 4 + 1 + q);
  }

  lemma AlignMultiple(k: nat)
    ensures Align(4 * k) == 4 * k
  {
  }

  /** A block of 9 bytes at address 1 gives N = 1, and C ends past the block. */
  lemma UnalignedOverrun()
    ensures Needed(1) < 9 && LayoutOf(1, 1).end > 1 + 9
  {
    var l := LayoutOf(1, 1);
    assert l.a == 4 && l.b == 6 && l.c == 8;
  }

  // ------------------------------------------------------------------- contents

  /** C's remainder, truncated toward zero */
  function Rem(x: int, m: int): int
    requires m > 0
  {
    if x >= 0 then x % m else -(-x % m)
  }

  /** The seed after k entries. */
  function SeedAfter(seed: s32, k: nat): int {
    if k == 0 then (if seed == 0 then 1 else seed) else Rem(ToS32(k * SeedAfter(seed, k - 1)), 65536)
  }

  /** The k-th entries written to B and A, counting from 1. */
  function EntryB(seed: s32, k: nat): int {
    ToS16(SeedAfter(seed, k) + k)
  }

  function EntryA(seed: s32, k: nat): int {
    ToS16(EntryB(seed, k) + k) % 0x100
  }

  function Factorial(k: nat): nat {
    if k == 0 then 1 else k * Factorial(k - 1)
  }

  /** The seed the entries start from. */
  function FirstSeed(seed: s32): int {
    if seed == 0 then 1 else seed
  }

  /** After k entries the seed is k! times the first one, but for multiples of 2^16. */
  lemma {:induction false} SeedIsFactorial(seed: s32, k: nat) returns (q: int)
    ensures SeedAfter(seed, k) == Factorial(k) * FirstSeed(seed) + 0x1_0000 * q
  {
    hide *;
    if k == 0 {
      q := 0;
      SeedZero(seed);
    } else {
      q := SeedIsFactorial(seed, k - 1);
      SeedNext(seed, k);
      var r, t := Wrapped(k * SeedAfter(seed, k - 1));
      Distributed(k, Factorial(k - 1), FirstSeed(seed), q);
      q := k * q + 0x1_0000 * r + t;
    }
  }

  lemma SeedZero(seed: s32)
    ensures SeedAfter(seed, 0) == FirstSeed(seed) && Factorial(0) == 1
  {
  }

  lemma SeedNext(seed: s32, k: nat)
    requires k > 0
    ensures SeedAfter(seed, k) == Rem(ToS32(k * SeedAfter(seed, k - 1)), 0x1_0000)
    ensures Factorial(k) == k * Factorial(k - 1)
  {
    hide Rem, ToS32;
  }

  /** Conversion to 32 bits and the remainder take away multiples of 2^16. */
  lemma Wrapped(y: int) returns (r: int, t: int)
    ensures Rem(ToS32(y), 0x1_0000) == y + 0x1_0000 * (0x1_0000 * r + t)
  {
    r := -((y + 0x8000_0000) / 0x1_0000_0000);
    var z := ToS32(y);
    assert z == y + 0x1_0000_0000 * r;
    t := if z >= 0 then -(z / 0x1_0000) else -(z as int) / 0x1_0000;
  }

  lemma Distributed(k: nat, f: nat, s: int, q: int)
    ensures k * (f * s + 0x1_0000 * q) == k * f * s + 0x1_0000 * (k * q)
  {
    assert k * (f * s) == k * f * s;
  }

  /** The entries in closed form: k! times the seed plus k, and plus k again. */
  lemma EntriesClosed(seed: s32, k: nat)
    ensures EntryB(seed, k) == ToS16(Factorial(k) * FirstSeed(seed) + k)
    ensures EntryA(seed, k) == (Factorial(k) * FirstSeed(seed) + 2 * k) % 0x100
  {
    var q := SeedIsFactorial(seed, k);
    hide SeedAfter, Factorial, FirstSeed;
    HalfWords(Factorial(k) * FirstSeed(seed), k, q);
  }

  lemma HalfWords(x: int, k: nat, q: int)
    ensures ToS16(x + 0x1_0000 * q + k) == ToS16(x + k)
    ensures ToS16(ToS16(x + k) + k) % 0x100 == (x + 2 * k) % 0x100
  {
    Wrap16(x + k, -q);
    WrapAdd16(x + k, k);
    assert x + k + k == x + 2 * k;
    LowByte(x + 2 * k);
    hide ToS16;
  }

  lemma LowByte(x: int)
    ensures ToS16(x) % 0x100 == x % 0x100
  {
    var p := Turns(x);
    hide ToS16;
    SameLowByte(x, 0x100 * p);
  }

  lemma Turns(x: int) returns (p: int)
    ensures ToS16(x) == x - 0x1_0000 * p
  {
    p := (x + 0x8000) / 0x1_0000;
  }

  lemma SameLowByte(x: int, m: int)
    ensures (x - 0x100 * m) % 0x100 == x % 0x100
  {
    assert x - 0x100 * m == 0x100 * (x / 0x100 - m) + x % 0x100;
  }

  /** 18! is a multiple of 2^16, so from the eighteenth entry on the seed plays no part: B gets
      the number of the entry and A twice that. */
  lemma SeedForgotten(seed: s32, k: nat)
    requires k >= 18
    ensures EntryB(seed, k) == ToS16(k) && EntryA(seed, k) == 2 * k % 0x100
  {
    EntriesClosed(seed, k);
    var c := FactorialMultiple(k);
    hide *;
    Scaled(c, FirstSeed(seed));
    Dropped(c * FirstSeed(seed), k);
  }

  lemma Scaled(c: nat, s: int)
    ensures 0x1_0000 * c * s == 0x1_0000 * (c * s)
  {
  }

  lemma Dropped(m: int, k: nat)
    ensures ToS16(0x1_0000 * m + k) == ToS16(k) && (0x1_0000 * m + 2 * k) % 0x100 == 2 * k % 0x100
  {
    Wrap16(k, -m);
    hide ToS16;
    assert 0x1_0000 * m + 2 * k == 2 * k + 0x100 * (0x100 * m);
  }

  lemma {:induction false} FactorialMultiple(k: nat) returns (c: nat)
    requires k >= 18
    ensures Factorial(k) == 0x1_0000 * c
  {
    if k == 18 {
      c := 97692469875;
      assert Factorial(6) == 720;
      assert Factorial(12) == 479001600;
    } else {
      c := FactorialMultiple(k - 1);
      c := k * c;
    }
  }

  lemma EntryRanges(seed: s32, k: nat)
    ensures 0 <= EntryA(seed, k) <= 0xff && -0x8000 <= EntryB(seed, k) <= 0x7fff
  {
  }

  /** The number of entry (i, j), counting from 1. */
  function Order(n: nat, i: nat, j: nat): nat {
    i * n + j + 1
  }

  lemma OrderIs(n: nat, i: nat, j: nat)
    ensures Order(n, i, j) == i * n + j + 1
  {
  }

  /** One turn of the fill loop: the seed moves on and gives both entries. */
  method NextEntries(seed0: s32, order: nat, seed1: int) returns (seed: int, entryB: int, entryA: int)
    requires order >= 1 && seed1 == SeedAfter(seed0, order - 1)
    ensures seed == SeedAfter(seed0, order) && entryB == EntryB(seed0, order) && entryA == EntryA(seed0, order)
  {
    seed := Rem(ToS32(order * seed1), 65536);
    var val: int := ToS16(seed + order);
    ClipHalf(val);
    val := ToS16(val % 0x1_0000);
    entryB := val;
    val := ToS16(val + order);
    val := val % 0x100;
    entryA := val;
  }

  method FillRow(n: nat, seed0: s32, i: nat, seed1: int, a: array2<int>, b: array2<int>) returns (seed: int)
    requires a.Length0 == a.Length1 == b.Length0 == b.Length1 == n && a != b && i < n
    requires seed1 == SeedAfter(seed0, i * n)
    modifies a, b
    ensures seed == SeedAfter(seed0, i * n + n)
    ensures forall y :: 0 <= y < n ==>
      a[i, y] == EntryA(seed0, Order(n, i, y)) && b[i, y] == EntryB(seed0, Order(n, i, y))
    ensures forall x, y :: 0 <= x < n && 0 <= y < n && x != i ==> a[x, y] == old(a[x, y]) && b[x, y] == old(b[x, y])
  {
    hide SeedAfter, EntryA, EntryB;
    var order: int := i * n + 1;
    var j := 0;
    seed := seed1;
    while j < n
      invariant 0 <= j <= n && order == i * n + j + 1
      invariant seed == SeedAfter(seed0, i * n + j)
      invariant forall y :: 0 <= y < j ==>
        a[i, y] == EntryA(seed0, Order(n, i, y)) && b[i, y] == EntryB(seed0, Order(n, i, y))
      invariant forall x, y :: 0 <= x < n && 0 <= y < n && x != i ==> a[x, y] == old(a[x, y]) && b[x, y] == old(b[x, y])
    {
      var entryB, entryA;
      seed, entryB, entryA := NextEntries(seed0, order, seed);
      b[i, j] := entryB;
      a[i, j] := entryA;
      order := order + 1;
      j := j + 1;
    }
  }

  lemma ClipHalf(val: s16)
    ensures ToS16(val % 0x1_0000) == val
  {
  }

  /** The fill loops: A gets 8-bit, B 16-bit values, all fixed by the seed. */
  method FillMatrices(n: nat, seed0: s32, a: array2<int>, b: array2<int>)
    requires a.Length0 == a.Length1 == b.Length0 == b.Length1 == n && a != b
    modifies a, b
    ensures forall i, j :: 0 <= i < n && 0 <= j < n ==>
      a[i, j] == EntryA(seed0, Order(n, i, j)) && b[i, j] == EntryB(seed0, Order(n, i, j))
    ensures forall i, j :: 0 <= i < n && 0 <= j < n ==>
      a[i, j] == EntryA(seed0, i * n + j + 1) && b[i, j] == EntryB(seed0, i * n + j + 1)
    ensures Bounded(RowsOf(a), n, 0, 0xff) && Bounded(RowsOf(b), n, -0x8000, 0x7fff)
  {
    hide EntryA, EntryB, Order, SeedAfter;
    var seed: int := if seed0 == 0 then 1 else seed0;
    SeedStart(seed0);
    var i := 0;
    while i < n
      invariant 0 <= i <= n && seed == SeedAfter(seed0, i * n)
      invariant forall x, y :: 0 <= x < i && 0 <= y < n ==>
        a[x, y] == EntryA(seed0, Order(n, x, y)) && b[x, y] == EntryB(seed0, Order(n, x, y))
    {
      seed := FillRow(n, seed0, i, seed, a, b);
      assert (i + 1) * n == i * n + n;
      i := i + 1;
    }
    forall x, y | 0 <= x < n && 0 <= y < n
      ensures 0 <= a[x, y] <= 0xff && -0x8000 <= b[x, y] <= 0x7fff
      ensures a[x, y] == EntryA(seed0, x * n + y + 1) && b[x, y] == EntryB(seed0, x * n + y + 1)
    {
      EntryRanges(seed0, Order(n, x, y));
      OrderIs(n, x, y);
    }
  }

  lemma SeedStart(seed: s32)
    ensures SeedAfter(seed, 0) == if seed == 0 then 1 else seed
  {
  }

  /** In a block of at most 133128 bytes, with any constant the benchmark adds, neither the
      addition nor any product or partial sum of the initialized matrices wraps: matrix and
      vector product are exact. */
  lemma BenchmarkExact(c: Rows, a: Rows, b: Rows, n: nat, blksize: nat, val: s16)
    requires Square(c, n) && Square(a, n) && Square(b, n) && Needed(n) < blksize <= 133128
    requires Bounded(a, n, 0, 0xff) && Bounded(b, n, -0x8000, 0x7fff) && 0 <= val <= 0xff
    ensures n <= 128
    ensures var a1 := AddConst(a, n, val);
      && (forall i, j :: 0 <= i < n && 0 <= j < n ==> a1[i][j] == a[i][j] + val)
      && (forall i, k, x, y :: 0 <= i < n && 0 <= k < n && 0 <= x < n && 0 <= y < n ==> InWord(a1[i][k] * b[x][y]))
      && (forall i, j, m :: 0 <= i < n && 0 <= j < n && 0 <= m <= n ==> InWord(Dot(a1, b, n, i, j, m)))
      && (forall i, m :: 0 <= i < n && 0 <= m <= n ==> InWord(DotVect(a1, b, n, i, m)))
      && (forall i, j :: 0 <= i < n && 0 <= j < n ==> MulMatrix(a1, b, n)[i][j] == Dot(a1, b, n, i, j, n))
      && (forall i :: 0 <= i < n ==> MulVect(c, a1, b, n)[0][i] == DotVect(a1, b, n, i, n))
  {
    SquareMonotone(n, 129);
    assert Needed(n) == 8 * (n * n);
    var a1 := AddConst(a, n, val);
    assert forall i, j :: 0 <= i < n && 0 <= j < n ==> a1[i][j] == a[i][j] + val;
    assert Bounded(a1, n, -510, 510);
    hide AddConst, MulMatrix, MulVect, Dot, DotVect, Bounded, InWord;
    ProductsExact(c, a1, b, n);
  }
}
