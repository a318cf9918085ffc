/** The word-at-a-time string and block routines: `strcpy` and `strcmp` of the Dhrystone
    `stdlib.c`, `memcpy` and `memset` of `syscalls.c`.

    Memory is one array of bytes, a whole number of 32-bit words long; a pointer is an
    index into it, and a word access takes four bytes, the lowest first. */
module WordStrings {
  import opened MachineInts

  type byte = bv8
  type word = bv32

  // ----------------------------------------------------------------------- words

  function Word(b0: byte, b1: byte, b2: byte, b3: byte): word {
    (b0 as bv32) | ((b1 as bv32) << 8) | ((b2 as bv32) << 16) | ((b3 as bv32) << 24)
  }

  /** The i-th byte of a word: `(v >> 8*i) & 0xff`. */
  function ByteOf(v: word, i: nat): byte
    requires i < 4
  {
    if i == 0 then (v & 0xff) as bv8
    else if i == 1 then ((v >> 8) & 0xff) as bv8
    else if i == 2 then ((v >> 16) & 0xff) as bv8
    else ((v >> 24) & 0xff) as bv8
  }

  lemma ByteOfWord(b0: byte, b1: byte, b2: byte, b3: byte)
    ensures ByteOf(Word(b0, b1, b2, b3), 0) == b0 && ByteOf(Word(b0, b1, b2, b3), 1) == b1
    ensures ByteOf(Word(b0, b1, b2, b3), 2) == b2 && ByteOf(Word(b0, b1, b2, b3), 3) == b3
  {
  }

  /** The test that both loops make on each word. */
  function ZeroTest(v: word): word {
    (v - 0x0101_0101) & !v & 0x8080_8080
  }

  /** The test is exact: no false alarm and no miss, for every word. */
  lemma ZeroTestExact(b0: byte, b1: byte, b2: byte, b3: byte)
    ensures ZeroTest(Word(b0, b1, b2, b3)) != 0 <==> b0 == 0 || b1 == 0 || b2 == 0 || b3 == 0
  {
  }

  function WordAt(m: seq<byte>, a: nat): word
    requires a + 4 <= |m|
  {
    Word(m[a], m[a + 1], m[a + 2], m[a + 3])
  }

  lemma WordBytes(m: seq<byte>, a: nat)
    requires a + 4 <= |m|
    ensures forall i :: 0 <= i < 4 ==> ByteOf(WordAt(m, a), i) == m[a + i]
    ensures ZeroTest(WordAt(m, a)) != 0 <==> m[a] == 0 || m[a + 1] == 0 || m[a + 2] == 0 || m[a + 3] == 0
  {
    ByteOfWord(m[a], m[a + 1], m[a + 2], m[a + 3]);
    ZeroTestExact(m[a], m[a + 1], m[a + 2], m[a + 3]);
    hide ByteOf, Word, ZeroTest;
  }

  /** A whole number of words. */
  predicate Whole(a: nat) {
    a % 4 == 0
  }

  lemma NextWord(a: nat)
    ensures Whole(a) ==> Whole(a + 4)
  {
  }

  /** Memory is whole words, so an aligned word that starts inside it lies inside. */
  lemma WordAligned(length: nat, a: nat)
    requires Whole(length) && Whole(a) && a < length
    ensures a + 4 <= length
  {
  }

  /** `((x | y) & 3) == 0` */
  predicate BothAligned(x: nat, y: nat) {
    Or(x, y) % 4 == 0
  }

  lemma AlignedParts(x: nat, y: nat)
    ensures BothAligned(x, y) <==> Whole(x) && Whole(y)
  {
    OrHalves(x, y);
    OrHalves(x / 2, y / 2);
    Quarters(x);
    Quarters(y);
    Quarters(Or(x, y));
    hide Or, Whole;
    assert BothAligned(x, y) <==> Whole(Or(x, y)) by {
      WholeIs(Or(x, y));
    }
  }

  lemma OrHalves(x: nat, y: nat)
    ensures Or(x, y) / 2 == Or(x / 2, y / 2) && (Or(x, y) % 2 == 0 <==> x % 2 == 0 && y % 2 == 0)
  {
    assert Or(x, y) == 2 * Or(x / 2, y / 2) + (if x % 2 == 1 || y % 2 == 1 then 1 else 0);
  }

  lemma Quarters(x: nat)
    ensures Whole(x) <==> x % 2 == 0 && x / 2 % 2 == 0
  {
  }

  method LoadWord(mem: array<byte>, a: nat) returns (v: word)
    requires a + 4 <= mem.Length
    ensures v == WordAt(mem[..], a)
  {
    v := Word(mem[a], mem[a + 1], mem[a + 2], mem[a + 3]);
  }

  method StoreWord(mem: array<byte>, a: nat, v: word)
    requires a + 4 <= mem.Length
    modifies mem
    ensures mem[a] == ByteOf(v, 0) && mem[a + 1] == ByteOf(v, 1) && mem[a + 2] == ByteOf(v, 2)
      && mem[a + 3] == ByteOf(v, 3)
    ensures forall k :: 0 <= k < mem.Length && !(a <= k < a + 4) ==> mem[k] == old(mem[k])
  {
    hide ByteOf;
    mem[a], mem[a + 1], mem[a + 2], mem[a + 3] := ByteOf(v, 0), ByteOf(v, 1), ByteOf(v, 2), ByteOf(v, 3);
  }

  // ---------------------------------------------------------------------- strings

  /** A string of n bytes stands at a, the first NUL right behind it. */
  ghost predicate StringAt(m: seq<byte>, a: nat, n: nat) {
    a + n < |m| && m[a + n] == 0 && forall k :: a <= k < a + n ==> m[k] != 0
  }

  /** The memory with n bytes at dst replaced by those that stood at src. */
  ghost predicate Copied(m: seq<byte>, m0: seq<byte>, dst: nat, src: nat, n: nat)
    requires dst + n <= |m0| && src + n <= |m0|
  {
    |m| == |m0| && forall k :: 0 <= k < |m| ==> m[k] == Moved(m0, dst, src, n, k)
  }

  /** What stands at k after the copy. */
  function Moved(m0: seq<byte>, dst: nat, src: nat, n: nat, k: nat): byte
    requires dst + n <= |m0| && src + n <= |m0| && k < |m0|
  {
    if dst <= k < dst + n then m0[k - dst + src] else m0[k]
  }

  ghost predicate Apart(a: nat, b: nat, n: nat) {
    a + n <= b || b + n <= a
  }

  /** Halfway through a copy: i bytes of the string are there, none of them its NUL. */
  ghost predicate Copying(m: seq<byte>, m0: seq<byte>, dst: nat, src: nat, n: nat, i: nat) {
    && StringAt(m0, src, n) && dst + n < |m0| && Apart(src, dst, n + 1)
    && i <= n && Copied(m, m0, dst, src, i)
  }

  /** What the loops read has not been written over. */
  lemma SourceIntact(m: seq<byte>, m0: seq<byte>, dst: nat, src: nat, n: nat, i: nat, k: nat)
    requires Copying(m, m0, dst, src, n, i) && src <= k <= src + n
    ensures |m| == |m0| && src + n < |m| && m[k] == m0[k] && dst + n < |m|
    ensures m[k] == 0 <==> k == src + n
  {
  }

  /** One more byte. */
  lemma CopyStep(m: seq<byte>, m1: seq<byte>, m0: seq<byte>, dst: nat, src: nat, n: nat, i: nat)
    requires Copying(m, m0, dst, src, n, i) && |m1| == |m|
    requires m1 == m[dst + i := m[src + i]]
    ensures Copied(m1, m0, dst, src, i + 1) && (m[src + i] != 0 ==> Copying(m1, m0, dst, src, n, i + 1))
    ensures m[src + i] == 0 ==> i == n
  {
    SourceIntact(m, m0, dst, src, n, i, src + i);
  }

  /** Copies the string with its NUL and touches nothing else, however the two pointers
      are aligned. */
  method StrCpy(mem: array<byte>, dst0: nat, src0: nat, ghost n: nat) returns (r: nat)
    requires Whole(mem.Length)
    requires StringAt(mem[..], src0, n) && dst0 + n < mem.Length && Apart(src0, dst0, n + 1)
    modifies mem
    ensures r == dst0 && Copied(mem[..], old(mem[..]), dst0, src0, n + 1)
  {
    var dst, src := dst0, src0;
    r := dst;
    ghost var i, m0 := 0, mem[..];
    CopyStart(m0, dst0, src0, n);
    hide *;
    while !BothAligned(dst, src)
      invariant Copying(mem[..], m0, dst0, src0, n, i)
      invariant i <= n && dst == dst0 + i && src == src0 + i
      decreases n - i
    {
      ghost var m := mem[..];
      SourceIntact(m, m0, dst0, src0, n, i, src);
      var c := mem[src];
      src := src + 1;
      mem[dst] := c;
      CopyStep(m, mem[..], m0, dst0, src0, n, i);
      dst := dst + 1;
      if c == 0 {
        return;
      }
      i := i + 1;
      CopyingBound(mem[..], m0, dst0, src0, n, i);
    }
    AlignedParts(dst, src);
    CopyWords(mem, dst, src, dst0, src0, n, i, m0);
  }

  lemma CopyStart(m0: seq<byte>, dst: nat, src: nat, n: nat)
    requires StringAt(m0, src, n) && dst + n < |m0| && Apart(src, dst, n + 1)
    ensures Copying(m0, m0, dst, src, n, 0)
  {
  }

  lemma CopyingBound(m: seq<byte>, m0: seq<byte>, dst: nat, src: nat, n: nat, i: nat)
    requires Copying(m, m0, dst, src, n, i)
    ensures i <= n && |m| == |m0| && src + n < |m| && dst + n < |m|
  {
  }

  /** The word loop of `strcpy`. */
  method CopyWords(mem: array<byte>, dst1: nat, src1: nat, ghost dst0: nat, ghost src0: nat, ghost n: nat,
                   ghost i0: nat, ghost m0: seq<byte>)
    requires Whole(mem.Length) && Whole(dst1) && Whole(src1)
    requires Copying(mem[..], m0, dst0, src0, n, i0) && dst1 == dst0 + i0 && src1 == src0 + i0
    modifies mem
    ensures |m0| == mem.Length && src0 + n < |m0| && dst0 + n < |m0| && Copied(mem[..], m0, dst0, src0, n + 1)
  {
    hide *;
    var dst, src := dst1, src1;
    ghost var i := i0;
    CopyingBound(mem[..], m0, dst0, src0, n, i);
    while true
      invariant Copying(mem[..], m0, dst0, src0, n, i)
      invariant i <= n && dst == dst0 + i && src == src0 + i && Whole(dst) && Whole(src)
      invariant |m0| == mem.Length && src0 + n < |m0| && dst0 + n < |m0|
      decreases n - i
    {
      ghost var m := mem[..];
      WordAligned(mem.Length, src);
      var v := LoadWord(mem, src);
      if ZeroTest(v) != 0 {
        CopyLast(mem, dst, v, src, dst0, src0, n, i, m0);
        return;
      }
      CopyWord(mem, dst, v, src, dst0, src0, n, i, m0);
      NextWord(dst);
      NextWord(src);
      src := src + 4;
      dst := dst + 4;
      i := i + 4;
    }
  }

  /** Stores a word without zero bytes. */
  method CopyWord(mem: array<byte>, dst: nat, v: word, ghost src: nat, ghost dst0: nat, ghost src0: nat,
                  ghost n: nat, ghost i: nat, ghost m0: seq<byte>)
    requires Copying(mem[..], m0, dst0, src0, n, i) && src == src0 + i && dst == dst0 + i
    requires src + 4 <= mem.Length && v == WordAt(mem[..], src) && ZeroTest(v) == 0
    modifies mem
    ensures i + 4 <= n && Copying(mem[..], m0, dst0, src0, n, i + 4)
  {
    hide *;
    ghost var m := mem[..];
    WordBytes(m, src);
    WordInside(m, m0, dst0, src0, n, i);
    CopyingBound(m, m0, dst0, src0, n, i);
    StoreWord(mem, dst, v);
    CopyWordStep(m, mem[..], m0, dst0, src0, n, i);
  }

  /** A word without zero bytes lies inside the string. */
  lemma WordInside(m: seq<byte>, m0: seq<byte>, dst: nat, src: nat, n: nat, i: nat)
    requires Copying(m, m0, dst, src, n, i) && src + i + 4 <= |m|
    requires m[src + i] != 0 && m[src + i + 1] != 0 && m[src + i + 2] != 0 && m[src + i + 3] != 0
    ensures i + 4 <= n
  {
    SourceIntact(m, m0, dst, src, n, i, src + n);
    assert m[src + n] == 0;
    assert n == i || n == i + 1 || n == i + 2 || n == i + 3 || i + 4 <= n;
  }

  lemma CopyWordStep(m: seq<byte>, m1: seq<byte>, m0: seq<byte>, dst: nat, src: nat, n: nat, i: nat)
    requires Copying(m, m0, dst, src, n, i) && i + 4 <= n && |m1| == |m| && src + n < |m| && dst + n < |m|
    requires forall k :: 0 <= k < |m| && !(dst + i <= k < dst + i + 4) ==> m1[k] == m[k]
    requires m1[dst + i] == m[src + i] && m1[dst + i + 1] == m[src + i + 1]
    requires m1[dst + i + 2] == m[src + i + 2] && m1[dst + i + 3] == m[src + i + 3]
    ensures Copying(m1, m0, dst, src, n, i + 4)
  {
    SourceIntact(m, m0, dst, src, n, i, src + i);
    SourceIntact(m, m0, dst, src, n, i, src + i + 1);
    SourceIntact(m, m0, dst, src, n, i, src + i + 2);
    SourceIntact(m, m0, dst, src, n, i, src + i + 3);
    forall k | 0 <= k < |m1|
      ensures m1[k] == Moved(m0, dst, src, i + 4, k)
    {
      assert m[k] == Moved(m0, dst, src, i, k);
      if dst + i <= k < dst + i + 4 {
        assert k == dst + i || k == dst + i + 1 || k == dst + i + 2 || k == dst + i + 3;
      }
    }
  }

  /** The bytes of the last word, up to its first NUL. */
  method CopyLast(mem: array<byte>, dst: nat, v: word, ghost src: nat, ghost dst0: nat, ghost src0: nat,
                  ghost n: nat, ghost i: nat, ghost m0: seq<byte>)
    requires Copying(mem[..], m0, dst0, src0, n, i) && src == src0 + i && dst == dst0 + i
    requires src + 4 <= mem.Length && v == WordAt(mem[..], src) && ZeroTest(v) != 0
    modifies mem
    ensures |m0| == mem.Length && src0 + n < |m0| && dst0 + n < |m0| && Copied(mem[..], m0, dst0, src0, n + 1)
  {
    hide *;
    WordBytes(mem[..], src);
    var last := CopyByte(mem, dst, v, 0, src, dst0, src0, n, i, m0);
    if last { return; }
    InsideString(mem[..], m0, dst0, src0, n, i + 1);
    last := CopyByte(mem, dst, v, 1, src, dst0, src0, n, i, m0);
    if last { return; }
    InsideString(mem[..], m0, dst0, src0, n, i + 2);
    last := CopyByte(mem, dst, v, 2, src, dst0, src0, n, i, m0);
    if last { return; }
    InsideString(mem[..], m0, dst0, src0, n, i + 3);
    last := CopyByte(mem, dst, v, 3, src, dst0, src0, n, i, m0);
  }

  /** The part of the string still to come lies inside memory. */
  lemma InsideString(m: seq<byte>, m0: seq<byte>, dst: nat, src: nat, n: nat, i: nat)
    requires Copying(m, m0, dst, src, n, i)
    ensures src + i <= src + n < |m|
  {
  }

  /** Stores one byte of the last word; says whether it was the NUL. */
  method CopyByte(mem: array<byte>, dst: nat, v: word, j: nat, ghost src: nat, ghost dst0: nat, ghost src0: nat,
                  ghost n: nat, ghost i: nat, ghost m0: seq<byte>)
    returns (last: bool)
    requires j < 4 && Copying(mem[..], m0, dst0, src0, n, i + j) && src == src0 + i && dst == dst0 + i
    requires src + j < mem.Length && ByteOf(v, j) == mem[src + j]
    modifies mem
    ensures last == (ByteOf(v, j) == 0)
    ensures !last ==> Copying(mem[..], m0, dst0, src0, n, i + j + 1)
    ensures last ==> |m0| == mem.Length && src0 + n < |m0| && dst0 + n < |m0| && Copied(mem[..], m0, dst0, src0, n + 1)
    ensures forall k :: src0 <= k <= src0 + n && k < mem.Length ==> mem[k] == old(mem[k])
  {
    hide *;
    ghost var m := mem[..];
    CopyingBound(m, m0, dst0, src0, n, i + j);
    mem[dst + j] := ByteOf(v, j);
    CopyStep(m, mem[..], m0, dst0, src0, n, i + j);
    last := ByteOf(v, j) == 0;
    SourceStill(m, mem[..], m0, dst0, src0, n, i + j);
  }

  lemma SourceStill(m: seq<byte>, m1: seq<byte>, m0: seq<byte>, dst: nat, src: nat, n: nat, i: nat)
    requires Copying(m, m0, dst, src, n, i) && dst + i < |m| && src + n < |m| && |m1| == |m|
    requires m1 == m[dst + i := m1[dst + i]]
    ensures forall k :: src <= k <= src + n ==> m1[k] == m[k]
  {
  }

  // ------------------------------------------------------------------- comparison

  /** The byte loop: the sign of the first difference, bytes taken as unsigned. */
  ghost function ByteCompare(m: seq<byte>, a: nat, b: nat, n: nat, k: nat): int
    requires StringAt(m, a, n) && StringAt(m, b, k)
    decreases n
  {
    if m[a] != m[b] then (if m[a] < m[b] then -1 else 1)
    else if m[a] == 0 then 0
    else
      StringTail(m, a, n);
      StringTail(m, b, k);
      ByteCompare(m, a + 1, b + 1, n - 1, k - 1)
  }

  lemma StringTail(m: seq<byte>, a: nat, n: nat)
    requires StringAt(m, a, n)
    ensures a + n < |m| && (m[a] == 0 <==> n == 0) && (n > 0 ==> StringAt(m, a + 1, n - 1))
  {
  }

  /** The strings at a and b agree up to position j and differ there, the one at a below. */
  ghost predicate Below(m: seq<byte>, a: nat, b: nat, j: nat) {
    a + j < |m| && b + j < |m| && m[a..a + j] == m[b..b + j] && m[a + j] < m[b + j]
  }

  /** The string at a, of n bytes, precedes the one at b, of k bytes, in dictionary order. */
  ghost predicate Precedes(m: seq<byte>, a: nat, b: nat, n: nat, k: nat) {
    exists j :: 0 <= j <= n && j <= k && Below(m, a, b, j)
  }

  /** The result is 0 for equal strings only, and negative exactly if the string at a comes
      first in dictionary order. */
  lemma {:induction false} ByteCompareMeaning(m: seq<byte>, a: nat, b: nat, n: nat, k: nat)
    requires StringAt(m, a, n) && StringAt(m, b, k)
    ensures var r := ByteCompare(m, a, b, n, k);
      && (r == 0 <==> m[a..a + n] == m[b..b + k])
      && (r == -1 <==> Precedes(m, a, b, n, k))
      && -1 <= r <= 1
    decreases n
  {
    var r := ByteCompare(m, a, b, n, k);
    StringTail(m, a, n);
    StringTail(m, b, k);
    if m[a] != m[b] {
      DifferAtOnce(m, a, b, n, k);
    } else if m[a] == 0 {
    } else {
      ByteCompareMeaning(m, a + 1, b + 1, n - 1, k - 1);
      hide StringAt, ByteCompare, Precedes;
      Cons(m, a, n);
      Cons(m, b, k);
      BelowTail(m, a, b, n, k);
    }
  }

  lemma Cons(m: seq<byte>, a: nat, n: nat)
    requires 0 < n && a + n <= |m|
    ensures m[a..a + n] == [m[a]] + m[a + 1..a + 1 + (n - 1)]
  {
  }

  lemma AgreeFirst(m: seq<byte>, a: nat, b: nat, j: nat)
    ensures Below(m, a, b, j) && m[a] != m[b] ==> j == 0
  {
    if Below(m, a, b, j) && j > 0 {
      assert m[a..a + j][0] == m[a] && m[b..b + j][0] == m[b];
    }
  }

  lemma DifferAtOnce(m: seq<byte>, a: nat, b: nat, n: nat, k: nat)
    requires a + n < |m| && b + k < |m| && m[a] != m[b] && (m[a] == 0 <==> n == 0) && (m[b] == 0 <==> k == 0)
    ensures m[a..a + n] != m[b..b + k]
    ensures m[a] < m[b] <==> Precedes(m, a, b, n, k)
  {
    if n > 0 && k > 0 {
      assert m[a..a + n][0] == m[a] && m[b..b + k][0] == m[b];
    }
    if m[a] < m[b] {
      assert m[a..a + 0] == m[b..b + 0];
      assert Below(m, a, b, 0);
    }
    if Precedes(m, a, b, n, k) {
      var j :| 0 <= j <= n && j <= k && Below(m, a, b, j);
      AgreeFirst(m, a, b, j);
    }
  }

  lemma BelowNext(m: seq<byte>, a: nat, b: nat, j: nat)
    requires a + 1 + j < |m| && b + 1 + j < |m| && m[a] == m[b]
    ensures Below(m, a, b, j + 1) <==> Below(m, a + 1, b + 1, j)
  {
    Cons(m, a, j + 1);
    Cons(m, b, j + 1);
    var s, t := m[a + 1..a + 1 + j], m[b + 1..b + 1 + j];
    assert ([m[a]] + s)[1..] == s && ([m[b]] + t)[1..] == t;
  }

  lemma BelowTail(m: seq<byte>, a: nat, b: nat, n: nat, k: nat)
    requires 0 < n && 0 < k && a + n < |m| && b + k < |m| && m[a] == m[b]
    ensures Precedes(m, a, b, n, k) <==> Precedes(m, a + 1, b + 1, n - 1, k - 1)
  {
    if Precedes(m, a, b, n, k) {
      var j :| 0 <= j <= n && j <= k && Below(m, a, b, j);
      assert j > 0;
      hide Below;
      BelowNext(m, a, b, j - 1);
    }
    if Precedes(m, a + 1, b + 1, n - 1, k - 1) {
      var c, d := a + 1, b + 1;
      hide Below;
      var j :| 0 <= j <= n - 1 && j <= k - 1 && Below(m, c, d, j);
      BelowNext(m, a, b, j);
    }
  }

  /** One turn of the byte loop. */
  lemma CompareStep(m: seq<byte>, a: nat, b: nat, n: nat, k: nat)
    requires StringAt(m, a, n) && StringAt(m, b, k)
    ensures a <= a + n < |m| && b <= b + k < |m|
    ensures m[a] != m[b] ==> ByteCompare(m, a, b, n, k) == if m[a] < m[b] then -1 else 1
    ensures m[a] == m[b] == 0 ==> ByteCompare(m, a, b, n, k) == 0
    ensures m[a] == m[b] != 0 ==> (
      && n > 0 && k > 0 && StringAt(m, a + 1, n - 1) && StringAt(m, b + 1, k - 1)
      && ByteCompare(m, a, b, n, k) == ByteCompare(m, a + 1, b + 1, n - 1, k - 1))
  {
    StringTail(m, a, n);
    StringTail(m, b, k);
  }

  /** Compares as the byte loop does, however the two pointers are aligned. */
  method StrCmp(mem: array<byte>, s1_0: nat, s2_0: nat, ghost n0: nat, ghost k0: nat) returns (r: int)
    requires Whole(mem.Length) && StringAt(mem[..], s1_0, n0) && StringAt(mem[..], s2_0, k0)
    ensures r == ByteCompare(mem[..], s1_0, s2_0, n0, k0)
  {
    hide *;
    var s1: nat, s2: nat := s1_0, s2_0;
    ghost var n, k, m := n0, k0, mem[..];
    while !BothAligned(s1, s2)
      invariant StringAt(m, s1, n) && StringAt(m, s2, k)
      invariant ByteCompare(m, s1, s2, n, k) == ByteCompare(m, s1_0, s2_0, n0, k0)
      decreases n
    {
      CompareStep(m, s1, s2, n, k);
      var c1 := mem[s1];
      s1 := s1 + 1;
      var c2 := mem[s2];
      s2 := s2 + 1;
      if c1 != c2 {
        return if c1 < c2 then -1 else 1;
      } else if c1 == 0 {
        return 0;
      }
      n, k := n - 1, k - 1;
    }
    AlignedParts(s1, s2);
    r := CompareWords(mem, s1, s2, n, k);
  }

  /** The word loop of `strcmp`. */
  method CompareWords(mem: array<byte>, s1_0: nat, s2_0: nat, ghost n0: nat, ghost k0: nat) returns (r: int)
    requires Whole(mem.Length) && StringAt(mem[..], s1_0, n0) && StringAt(mem[..], s2_0, k0)
    requires Whole(s1_0) && Whole(s2_0)
    ensures r == ByteCompare(mem[..], s1_0, s2_0, n0, k0)
  {
    hide *;
    var s1: nat, s2: nat := s1_0, s2_0;
    ghost var n, k, m := n0, k0, mem[..];
    while true
      invariant StringAt(m, s1, n) && StringAt(m, s2, k) && Whole(s1) && Whole(s2)
      invariant ByteCompare(m, s1, s2, n, k) == ByteCompare(m, s1_0, s2_0, n0, k0)
      decreases n
    {
      CompareStep(m, s1, s2, n, k);
      WordAligned(mem.Length, s1);
      WordAligned(mem.Length, s2);
      var v1 := LoadWord(mem, s1);
      var v2 := LoadWord(mem, s2);
      if v1 != v2 {
        r := CompareBytes(v1, v2, m, s1, s2, n, k);
        return;
      }
      EqualWords(m, s1, s2, n, k);
      if ZeroTest(v1) != 0 {
        return 0;
      }
      NextWord(s1);
      NextWord(s2);
      s1 := s1 + 4;
      s2 := s2 + 4;
      n, k := n - 4, k - 4;
    }
  }

  /** Equal words end both strings, or neither. */
  lemma EqualWords(m: seq<byte>, a: nat, b: nat, n: nat, k: nat)
    requires StringAt(m, a, n) && StringAt(m, b, k) && a + 4 <= |m| && b + 4 <= |m| && WordAt(m, a) == WordAt(m, b)
    ensures ZeroTest(WordAt(m, a)) != 0 ==> ByteCompare(m, a, b, n, k) == 0
    ensures ZeroTest(WordAt(m, a)) == 0 ==> (
      && n >= 4 && k >= 4 && StringAt(m, a + 4, n - 4) && StringAt(m, b + 4, k - 4)
      && ByteCompare(m, a, b, n, k) == ByteCompare(m, a + 4, b + 4, n - 4, k - 4))
  {
    hide *;
    WordBytes(m, a);
    WordBytes(m, b);
    assert m[a] == ByteOf(WordAt(m, a), 0) == m[b];
    assert m[a + 1] == ByteOf(WordAt(m, a), 1) == m[b + 1];
    assert m[a + 2] == ByteOf(WordAt(m, a), 2) == m[b + 2];
    assert m[a + 3] == ByteOf(WordAt(m, a), 3) == m[b + 3];
    CompareStep(m, a, b, n, k);
    if m[a] != 0 {
      CompareStep(m, a + 1, b + 1, n - 1, k - 1);
      if m[a + 1] != 0 {
        CompareStep(m, a + 2, b + 2, n - 2, k - 2);
        if m[a + 2] != 0 {
          CompareStep(m, a + 3, b + 3, n - 3, k - 3);
        }
      }
    }
  }

  lemma DifferentWords(m: seq<byte>, a: nat, b: nat)
    requires a + 4 <= |m| && b + 4 <= |m| && WordAt(m, a) != WordAt(m, b)
    ensures m[a] != m[b] || m[a + 1] != m[b + 1] || m[a + 2] != m[b + 2] || m[a + 3] != m[b + 3]
  {
  }

  /** Compares two different words byte by byte. */
  method CompareBytes(v1: word, v2: word, ghost m: seq<byte>, ghost a: nat, ghost b: nat, ghost n: nat,
                      ghost k: nat) returns (r: int)
    requires StringAt(m, a, n) && StringAt(m, b, k) && a + 4 <= |m| && b + 4 <= |m|
    requires v1 == WordAt(m, a) && v2 == WordAt(m, b) && v1 != v2
    ensures r == ByteCompare(m, a, b, n, k)
  {
    hide *;
    WordBytes(m, a);
    WordBytes(m, b);
    DifferentWords(m, a, b);
    CompareStep(m, a, b, n, k);
    var c1, c2 := ByteOf(v1, 0), ByteOf(v2, 0);
    if c1 != c2 { return if c1 < c2 then -1 else 1; }
    if c1 == 0 { return 0; }
    CompareStep(m, a + 1, b + 1, n - 1, k - 1);
    c1, c2 := ByteOf(v1, 1), ByteOf(v2, 1);
    if c1 != c2 { return if c1 < c2 then -1 else 1; }
    if c1 == 0 { return 0; }
    CompareStep(m, a + 2, b + 2, n - 2, k - 2);
    c1, c2 := ByteOf(v1, 2), ByteOf(v2, 2);
    if c1 != c2 { return if c1 < c2 then -1 else 1; }
    if c1 == 0 { return 0; }
    CompareStep(m, a + 3, b + 3, n - 3, k - 3);
    c1, c2 := ByteOf(v1, 3), ByteOf(v2, 3);
    // Equal words do not come here, so the last bytes differ if no others do.
    r := if c1 != c2 then (if c1 < c2 then -1 else 1) else 0;
  }

  // ------------------------------------------------------------------- blocks

  /** Copies a block: by words if both pointers and the length are whole words, or else
      by bytes; the result is the same. */
  method MemCpy(mem: array<byte>, dest: nat, src: nat, len: nat)
    requires src + len <= mem.Length && dest + len <= mem.Length && Apart(src, dest, len)
    modifies mem
    ensures Copied(mem[..], old(mem[..]), dest, src, len)
  {
    hide *;
    ghost var m0 := mem[..];
    BlockStart(m0, dest, src, len);
    var s, d, i := src, dest, 0;
    if BothAligned(Or(dest, src), len) {
      BlockWords(dest, src, len);
      while d < dest + len
        invariant d == dest + i && s == src + i && i <= len && i % 4 == 0 == len % 4
        invariant BlockCopying(mem[..], m0, dest, src, len, i)
      {
        ghost var m := mem[..];
        BlockIntact(m, m0, dest, src, len, i, 4);
        var v := LoadWord(mem, s);
        WordBytes(m, s);
        StoreWord(mem, d, v);
        BlockStep(m, mem[..], m0, dest, src, len, i, 4);
        s, d, i := s + 4, d + 4, i + 4;
      }
    } else {
      while d < dest + len
        invariant d == dest + i && s == src + i && i <= len
        invariant BlockCopying(mem[..], m0, dest, src, len, i)
      {
        ghost var m := mem[..];
        BlockIntact(m, m0, dest, src, len, i, 1);
        mem[d] := mem[s];
        BlockStep(m, mem[..], m0, dest, src, len, i, 1);
        s, d, i := s + 1, d + 1, i + 1;
      }
    }
    BlockDone(mem[..], m0, dest, src, len);
  }

  ghost predicate BlockCopying(m: seq<byte>, m0: seq<byte>, dst: nat, src: nat, n: nat, i: nat) {
    src + n <= |m0| && dst + n <= |m0| && Apart(src, dst, n) && i <= n && Copied(m, m0, dst, src, i)
  }

  lemma BlockStart(m0: seq<byte>, dst: nat, src: nat, n: nat)
    requires src + n <= |m0| && dst + n <= |m0| && Apart(src, dst, n)
    ensures BlockCopying(m0, m0, dst, src, n, 0)
  {
  }

  lemma BlockDone(m: seq<byte>, m0: seq<byte>, dst: nat, src: nat, n: nat)
    requires BlockCopying(m, m0, dst, src, n, n)
    ensures src + n <= |m0| && dst + n <= |m0| && Copied(m, m0, dst, src, n)
  {
  }

  lemma WholeIs(n: nat)
    ensures Whole(n) <==> n % 4 == 0
  {
  }

  lemma BlockWords(dst: nat, src: nat, n: nat)
    requires BothAligned(Or(dst, src), n)
    ensures n % 4 == 0
  {
    AlignedParts(Or(dst, src), n);
  }

  lemma BlockIntact(m: seq<byte>, m0: seq<byte>, dst: nat, src: nat, n: nat, i: nat, w: nat)
    requires BlockCopying(m, m0, dst, src, n, i) && i + w <= n
    ensures |m| == |m0| && src + i + w <= |m| && dst + i + w <= |m|
    ensures forall k :: src + i <= k < src + i + w ==> m[k] == m0[k]
  {
  }

  /** One more piece of w bytes. */
  lemma BlockStep(m: seq<byte>, m1: seq<byte>, m0: seq<byte>, dst: nat, src: nat, n: nat, i: nat, w: nat)
    requires BlockCopying(m, m0, dst, src, n, i) && 0 < w <= 4 && i + w <= n && |m1| == |m|
    requires |m| == |m0| && src + i + w <= |m| && dst + i + w <= |m|
    requires forall k :: 0 <= k < |m| && !(dst + i <= k < dst + i + w) ==> m1[k] == m[k]
    requires m1[dst + i] == m[src + i] && (w > 1 ==> m1[dst + i + 1] == m[src + i + 1])
    requires (w > 2 ==> m1[dst + i + 2] == m[src + i + 2]) && (w > 3 ==> m1[dst + i + 3] == m[src + i + 3])
    ensures BlockCopying(m1, m0, dst, src, n, i + w)
  {
    BlockIntact(m, m0, dst, src, n, i, w);
    forall k | 0 <= k < |m1|
      ensures m1[k] == Moved(m0, dst, src, i + w, k)
    {
      assert m[k] == Moved(m0, dst, src, i, k);
      if dst + i <= k < dst + i + w {
        assert k == dst + i || k == dst + i + 1 || k == dst + i + 2 || k == dst + i + 3;
      }
    }
  }

  /** `word |= word << 8; word |= word << 16; word |= word << 16 << 16` on 32 bits */
  function Spread(b: byte): word {
    var w := b as bv32;
    var w := w | (w << 8);
    var w := w | (w << 16);
    w | ((w << 16) << 16)
  }

  lemma SpreadBytes(b: byte)
    ensures ByteOf(Spread(b), 0) == b && ByteOf(Spread(b), 1) == b && ByteOf(Spread(b), 2) == b
      && ByteOf(Spread(b), 3) == b
  {
  }

  /** Fills a block with one byte: by words if the pointer and the length are whole words,
      or else by bytes; the result is the same. */
  method MemSet(mem: array<byte>, dest: nat, b: byte, len: nat)
    requires dest + len <= mem.Length
    modifies mem
    ensures forall k :: 0 <= k < mem.Length ==> mem[k] == if dest <= k < dest + len then b else old(mem[k])
  {
    SpreadBytes(b);
    hide *;
    var d := dest;
    if BothAligned(dest, len) {
      AlignedParts(dest, len);
      WholeIs(len);
      var v := Spread(b);
      while d < dest + len
        invariant dest <= d <= dest + len && (d - dest) % 4 == 0 == len % 4
        invariant forall k :: 0 <= k < mem.Length ==> mem[k] == if dest <= k < d then b else old(mem[k])
      {
        StoreWord(mem, d, v);
        d := d + 4;
      }
    } else {
      while d < dest + len
        invariant dest <= d <= dest + len
        invariant forall k :: 0 <= k < mem.Length ==> mem[k] == if dest <= k < d then b else old(mem[k])
      {
        mem[d] := b;
        d := d + 1;
      }
    }
  }
}
