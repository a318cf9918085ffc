/** The state benchmark of `core_state.c`: its input text, the corruption it applies
    and undoes, and the CRC of the counts of both scans. */
module StateBench {
  import opened MachineInts
  import opened Crc
  import opened StateScan

  // ---------------------------------------------------------------- corruption

  function Mask(b: u8, x: u8): u8 {
    if b != COMMA then XorU8(b, x) else b
  }

  /** Every step-th byte from p on is XORed with x, commas excepted. */
  function Corrupt(s: seq<u8>, p: nat, x: u8, step: nat): (r: seq<u8>)
    requires step > 0
    ensures |r| == |s|
    decreases |s| - p
  {
    if p >= |s| then s else Corrupt(s[p := Mask(s[p], x)], p + step, x, step)
  }

  /** i is one of p, p + step, p + 2 * step, ... */
  predicate Sampled(i: nat, p: nat, step: nat)
    requires step > 0
    decreases i - p
  {
    i == p || (i > p && Sampled(i, p + step, step))
  }

  /** The sweep seen byte by byte. */
  lemma {:induction false} CorruptAt(s: seq<u8>, p: nat, x: u8, step: nat, i: nat)
    requires step > 0 && i < |s|
    ensures Corrupt(s, p, x, step)[i] == if Sampled(i, p, step) then Mask(s[i], x) else s[i]
    decreases |s| - p
  {
    if p < |s| {
      var t := s[p := Mask(s[p], x)];
      CorruptAt(t, p + step, x, step, i);
    }
  }

  /** Sampled positions lie at least `step` apart. */
  lemma {:induction false} SampledApart(i: nat, p: nat, step: nat)
    requires step >= 2 && Sampled(i, p, step)
    ensures !Sampled(i + 1, p, step)
    decreases i - p
  {
    if i > p {
      SampledApart(i, p + step, step);
    }
  }

  lemma MaskTwice(b: u8, x1: u8, x2: u8)
    ensures Mask(Mask(b, x1), x2) == b <==> b == COMMA || (x1 == x2 && (x1 == 0 || b != Xor(COMMA, x1)))
  {
    if b != COMMA {
      XorInvolution(b, x1);
      XorInvolution(COMMA, x1);
      XorZero(b);
      var y := XorU8(b, x1);
      if y != COMMA && Xor(y, x2) == b {
        // y ^ x2 == y ^ x1, so the masks agree
        XorComm(y, x1);
        XorComm(y, x2);
        XorInvolution(x1, y);
        XorInvolution(x2, y);
      }
      if x1 == 0 {
        XorZero(COMMA);
      }
    }
  }

  /** Corrupting with x1 and undoing with x2 gives the text back exactly when every
      sampled byte is a comma, or the masks agree and none is turned into a comma. */
  lemma RestoredIff(s: seq<u8>, x1: u8, x2: u8, step: nat)
    requires step > 0
    ensures Corrupt(Corrupt(s, 0, x1, step), 0, x2, step) == s <==>
      forall i :: 0 <= i < |s| && Sampled(i, 0, step) ==>
        s[i] == COMMA || (x1 == x2 && (x1 == 0 || s[i] != Xor(COMMA, x1)))
  {
    var t := Corrupt(s, 0, x1, step);
    var u := Corrupt(t, 0, x2, step);
    forall i | 0 <= i < |s|
      ensures u[i] == s[i] <==>
        (Sampled(i, 0, step) ==> s[i] == COMMA || (x1 == x2 && (x1 == 0 || s[i] != Xor(COMMA, x1))))
    {
      CorruptAt(s, 0, x1, step, i);
      CorruptAt(t, 0, x2, step, i);
      MaskTwice(s[i], x1, x2);
    }
    assert u == s <==> forall i :: 0 <= i < |s| ==> u[i] == s[i];
  }

  /** Two terminators at the end survive any sweep that skips at least every other byte. */
  lemma StillTerminated(s: seq<u8>, x: u8, step: nat)
    requires step >= 2 && |s| >= 2 && s[|s| - 1] == 0 && s[|s| - 2] == 0
    ensures Terminated(s, 0) && Terminated(Corrupt(s, 0, x, step), 0)
  {
    var n := |s|;
    var k := if Sampled(n - 1, 0, step) then n - 2 else n - 1;
    if Sampled(n - 2, 0, step) {
      SampledApart(n - 2, 0, step);
    }
    CorruptAt(s, 0, x, step, k);
  }

  method Sweep(buf: array<u8>, x: u8, step: nat)
    requires step > 0
    modifies buf
    ensures buf[..] == Corrupt(old(buf[..]), 0, x, step)
  {
    var p := 0;
    while p < buf.Length
      invariant Corrupt(buf[..], p, x, step) == Corrupt(old(buf[..]), 0, x, step)
      decreases buf.Length - p
    {
      ghost var before := buf[..];
      if buf[p] != COMMA {
        buf[p] := XorU8(buf[p], x);
      }
      assert buf[..] == before[p := Mask(before[p], x)];
      p := p + step;
    }
  }

  // ----------------------------------------------------------------- the benchmark

  function CrcOfCount(n: nat, crc: u16): u16 {
    CrcOf(Bytes32(n % 0x1_0000_0000), crc)
  }

  /** The CRC of both count tables, interleaved, from entry i on. */
  function CrcOfTally(t: Tally, i: nat, crc: u16): u16
    requires i <= 8
    decreases 8 - i
  {
    if i == 8 then crc else CrcOfTally(t, i + 1, CrcOfCount(t.track[i], CrcOfCount(t.final[i], crc)))
  }

  /** Neither scan runs off the text: it is terminated, and so is its corrupted form. */
  ghost predicate Scannable(s: seq<u8>, x: u8, step: nat)
    requires step > 0
  {
    Terminated(s, 0) && Terminated(Corrupt(s, 0, x, step), 0)
  }

  /** What `core_bench_state` computes: the counts of a scan of the text and of a
      scan of the corrupted text, folded into the CRC. */
  function StateCrc(s: seq<u8>, x: u8, step: nat, crc: u16): u16
    requires step > 0 && Scannable(s, x, step)
  {
    var t := ScanAll(s, 0, Tally(NO_COUNTS, NO_COUNTS));
    CrcOfTally(ScanAll(Corrupt(s, 0, x, step), 0, t), 0, crc)
  }

  /** Byte j of a 32-bit word, the lowest being byte 0. */
  function WordByte(n: nat, j: nat): u8
    requires j < 4
  {
    n / [1, 0x100, 0x1_0000, 0x100_0000][j] % 0x100
  }

  /** Byte i of the two tables laid out entry by entry, the final count in front of the
      transition count, each as a 32-bit word, lowest byte first. */
  function ImageByte(t: Tally, i: nat): u8
    requires i < 64
  {
    WordByte(if i / 4 % 2 == 0 then t.final[i / 8] else t.track[i / 8], i % 4)
  }

  function TallyImage(t: Tally): (m: seq<u8>)
    ensures |m| == 64 && forall i :: 0 <= i < 64 ==> m[i] == ImageByte(t, i)
  {
    seq(64, i requires 0 <= i < 64 => ImageByte(t, i))
  }

  lemma FourBytes(b0: u8, b1: u8, b2: u8, b3: u8, q: nat)
    ensures var w := b0 + 0x100 * b1 + 0x1_0000 * b2 + 0x100_0000 * b3;
      var n := w + 0x1_0000_0000 * q;
      && n % 0x1_0000_0000 == w && Bytes32(w) == [b0, b1, b2, b3]
      && WordByte(n, 0) == b0 && WordByte(n, 1) == b1 && WordByte(n, 2) == b2 && WordByte(n, 3) == b3
  {
    hide *;
    var low, high := b0 + 0x100 * b1, b2 + 0x100 * b3;
    var n := low + 0x1_0000 * high + 0x1_0000_0000 * q;
    BytesOf(low, high);
    BytesAt(n);
    Quotients8(b1, b0);
    Quotients8(b3, b2);
    Quotients8(b1 + 0x100 * high + 0x100_0000 * q, b0);
    Quotients8(high + 0x1_0000 * q, b1);
    Quotients16(high + 0x1_0000 * q, low);
    Quotients8(b3 + 0x100 * q, b2);
    Quotients24(b3 + 0x100 * q, low + 0x1_0000 * b2);
    Quotients8(q, b3);
    Quotients32(q, low + 0x1_0000 * high);
  }

  lemma BytesOf(low: u16, high: u16)
    ensures Bytes32(low + 0x1_0000 * high) == [low % 0x100, low / 0x100, high % 0x100, high / 0x100]
  {
    Quotients16(high, low);
  }

  lemma BytesAt(n: nat)
    ensures WordByte(n, 0) == n % 0x100 && WordByte(n, 1) == n / 0x100 % 0x100
    ensures WordByte(n, 2) == n / 0x1_0000 % 0x100 && WordByte(n, 3) == n / 0x100_0000 % 0x100
  {
  }

  lemma Quotients8(q: nat, r: nat)
    requires r < 0x100
    ensures (r + 0x100 * q) / 0x100 == q && (r + 0x100 * q) % 0x100 == r
  {
  }

  lemma Quotients16(q: nat, r: nat)
    requires r < 0x1_0000
    ensures (r + 0x1_0000 * q) / 0x1_0000 == q && (r + 0x1_0000 * q) % 0x1_0000 == r
  {
  }

  lemma Quotients24(q: nat, r: nat)
    requires r < 0x100_0000
    ensures (r + 0x100_0000 * q) / 0x100_0000 == q
  {
  }

  lemma Quotients32(q: nat, r: nat)
    requires r < 0x1_0000_0000
    ensures (r + 0x1_0000_0000 * q) % 0x1_0000_0000 == r
  {
  }

  lemma ByteSplit(n: nat) returns (low: u8, rest: nat)
    ensures n == low + 0x100 * rest
  {
    low, rest := n % 0x100, n / 0x100;
  }

  lemma WordBytes(n: nat)
    ensures Bytes32(n % 0x1_0000_0000) == [WordByte(n, 0), WordByte(n, 1), WordByte(n, 2), WordByte(n, 3)]
  {
    hide *;
    var b0, r1 := ByteSplit(n);
    var b1, r2 := ByteSplit(r1);
    var b2, r3 := ByteSplit(r2);
    var b3, q := ByteSplit(r3);
    FourBytes(b0, b1, b2, b3, q);
  }

  lemma ImageAt(t: Tally, i: nat, j: nat)
    requires i < 8 && j < 8
    ensures ImageByte(t, 8 * i + j) == WordByte(if j < 4 then t.final[i] else t.track[i], j % 4)
  {
    hide WordByte;
    EntryPlace(i, j);
  }

  lemma EntryPlace(i: nat, j: nat)
    requires j < 8
    ensures (8 * i + j) / 8 == i && (8 * i + j) % 4 == j % 4 && ((8 * i + j) / 4 % 2 == 0 <==> j < 4)
  {
    assert (8 * i + j) / 4 == 2 * i + j / 4;
  }

  lemma ImageEntry(t: Tally, i: nat)
    requires i < 8
    ensures TallyImage(t)[8 * i..]
      == Bytes32(t.final[i] % 0x1_0000_0000) + Bytes32(t.track[i] % 0x1_0000_0000) + TallyImage(t)[8 * (i + 1)..]
  {
    hide *;
    WordBytes(t.final[i]);
    WordBytes(t.track[i]);
    var m := TallyImage(t);
    var e := Bytes32(t.final[i] % 0x1_0000_0000) + Bytes32(t.track[i] % 0x1_0000_0000);
    forall j | 0 <= j < 8
      ensures m[8 * i + j] == e[j]
    {
      ImageAt(t, i, j);
    }
    assert m[8 * i..] == m[8 * i..8 * i + 8] + m[8 * (i + 1)..];
    assert m[8 * i..8 * i + 8] == e;
  }

  /** The CRC of both tables is the CRC of that image. */
  lemma {:induction false} CrcOfImage(t: Tally, i: nat, crc: u16)
    requires i <= 8
    ensures CrcOfTally(t, i, crc) == CrcOf(TallyImage(t)[8 * i..], crc)
    decreases 8 - i
  {
    hide *;
    var m := TallyImage(t);
    if i < 8 {
      var a, b := Bytes32(t.final[i] % 0x1_0000_0000), Bytes32(t.track[i] % 0x1_0000_0000);
      ImageEntry(t, i);
      CrcOfAppend(a + b, m[8 * (i + 1)..], crc);
      CrcOfAppend(a, b, crc);
      CrcOfImage(t, i + 1, CrcOf(b, CrcOf(a, crc)));
      TallyTurn(t, i, crc);
    } else {
      assert m[8 * i..] == [];
      TallyDone(t, i, crc);
    }
  }

  lemma TallyTurn(t: Tally, i: nat, crc: u16)
    requires i < 8
    ensures CrcOfTally(t, i, crc) == CrcOfTally(t, i + 1, CrcOf(Bytes32(t.track[i] % 0x1_0000_0000),
      CrcOf(Bytes32(t.final[i] % 0x1_0000_0000), crc)))
  {
    hide CrcOf, Bytes32;
  }

  lemma TallyDone(t: Tally, i: nat, crc: u16)
    requires i == 8
    ensures CrcOfTally(t, i, crc) == crc == CrcOf([], crc)
  {
  }

  /** What the tables hold after both scans: the counts of the text and of the corrupted text. */
  function BothScans(s: seq<u8>, x: u8, step: nat): Tally
    requires step > 0 && Scannable(s, x, step)
  {
    ScanAll(Corrupt(s, 0, x, step), 0, ScanAll(s, 0, Tally(NO_COUNTS, NO_COUNTS)))
  }

  /** The benchmark returns the CRC of the image of both tables, which hold the counts of the
      text and of the corrupted text. */
  lemma StateCrcMeans(s: seq<u8>, x: u8, step: nat, crc: u16)
    requires step > 0 && Scannable(s, x, step)
    ensures var u, c := BothScans(s, x, step), Corrupt(s, 0, x, step);
      && StateCrc(s, x, step, crc) == CrcOf(TallyImage(u), crc)
      && Terminated(s, 0) && Terminated(c, 0)
      && BothCounted(s, Tokens(s, 0), c, Tokens(c, 0), u)
  {
    var t0 := Tally(NO_COUNTS, NO_COUNTS);
    var t1 := ScanAll(s, 0, t0);
    hide ScanAll, Corrupt, Tokens, CrcOf, TallyImage, CrcOfTally, RunCounted, BothCounted, AreTokens;
    RunCounts(s, 0, t0);
    RunCounts(Corrupt(s, 0, x, step), 0, t1);
    CrcOfImage(BothScans(s, x, step), 0, crc);
    var u, c := BothScans(s, x, step), Corrupt(s, 0, x, step);
    assert TallyImage(u)[0..] == TallyImage(u);
    CountsAdd(s, Tokens(s, 0), c, Tokens(c, 0), t1, u);
  }

  /** For every state the tables hold how often tokens of both texts have ended there, and what
      the counter of that state counts in both. */
  ghost predicate BothCounted(s: seq<u8>, ts: seq<(nat, nat)>, c: seq<u8>, tc: seq<(nat, nat)>, u: Tally)
    requires AreTokens(s, ts) && AreTokens(c, tc)
  {
    && (forall k :: u.final[Code(k)] == AllEnds(s, ts, k) + AllEnds(c, tc, k))
    && (forall k :: Passing(k) ==> u.track[Code(k)] == AllLeaves(s, ts, k) + AllLeaves(c, tc, k))
    && u.track[Code(Start)] == AllReads(ts) + AllReads(tc)
    && u.track[Code(Invalid)] == AllSpoiled(s, ts) + AllSpoiled(c, tc)
    && u.track[Code(Scientific)] == 0
  }

  lemma CountsAdd(s: seq<u8>, ts: seq<(nat, nat)>, c: seq<u8>, tc: seq<(nat, nat)>, t: Tally, u: Tally)
    requires AreTokens(s, ts) && AreTokens(c, tc)
    requires RunCounted(s, ts, Tally(NO_COUNTS, NO_COUNTS), t) && RunCounted(c, tc, t, u)
    ensures BothCounted(s, ts, c, tc, u)
  {
    hide AllEnds, AllLeaves, AllReads, AllSpoiled, AreTokens;
  }

  // ------------------------------------------------------------- repeated sweeps

  /** The text after one benchmark: corrupted with x1, undone with x2. */
  function Swept(s: seq<u8>, x1: u8, x2: u8, step: nat): (r: seq<u8>)
    requires step > 0
    ensures |r| == |s|
  {
    Corrupt(Corrupt(s, 0, x1, step), 0, x2, step)
  }

  /** One benchmark gives the text back. */
  predicate Restored(s: seq<u8>, x1: u8, x2: u8, step: nat)
    requires step > 0
  {
    Swept(s, x1, x2, step) == s
  }

  /** The steps `calc_func` can choose: 0x22, 0x33, ... 0xff. */
  predicate IsStep(step: nat) {
    0x22 <= step <= 0xff && step % 17 == 0
  }

  predicate AreSteps(steps: seq<nat>) {
    forall i :: 0 <= i < |steps| ==> IsStep(steps[i])
  }

  /** The text after benchmarks with these steps. */
  function SweptAll(s: seq<u8>, x1: u8, x2: u8, steps: seq<nat>): (r: seq<u8>)
    requires AreSteps(steps)
    ensures |r| == |s|
    decreases |steps|
  {
    if steps == [] then s else SweptAll(Swept(s, x1, x2, steps[0]), x1, x2, steps[1..])
  }

  ghost predicate ScannableAfter(s: seq<u8>, x1: u8, x2: u8, steps: seq<nat>, step: nat)
    requires AreSteps(steps) && IsStep(step)
  {
    Scannable(SweptAll(s, x1, x2, steps), x1, step)
  }

  /** Whatever benchmarks have gone before, the next one stays inside the text. */
  ghost predicate StaysScannable(s: seq<u8>, x1: u8, x2: u8) {
    forall steps, step :: AreSteps(steps) && IsStep(step) ==> ScannableAfter(s, x1, x2, steps, step)
  }

  /** The condition says what it should of the next benchmark, and holds after it. */
  lemma StaysScannableNext(s: seq<u8>, x1: u8, x2: u8, step: nat)
    requires StaysScannable(s, x1, x2) && IsStep(step)
    ensures Scannable(s, x1, step) && StaysScannable(Swept(s, x1, x2, step), x1, x2)
  {
    hide Swept, Scannable;
    assert ScannableAfter(s, x1, x2, [], step);
    forall steps, next | AreSteps(steps) && IsStep(next)
      ensures ScannableAfter(Swept(s, x1, x2, step), x1, x2, steps, next)
    {
      var all := [step] + steps;
      assert all[1..] == steps;
      assert ScannableAfter(s, x1, x2, all, next);
    }
  }

  lemma {:induction false} SampledMultiple(i: nat, p: nat, step: nat)
    requires step > 0 && step % 17 == 0 && p % 17 == 0 && Sampled(i, p, step)
    ensures i % 17 == 0
    decreases i - p
  {
    if i > p {
      SampledMultiple(i, p + step, step);
    }
  }

  /** A byte at a position that is no multiple of 17 is beyond the reach of every step. */
  lemma {:induction false} OutOfReach(s: seq<u8>, x1: u8, x2: u8, steps: seq<nat>, step: nat, p: nat)
    requires AreSteps(steps) && IsStep(step) && p < |s| && p % 17 != 0
    ensures SweptAll(s, x1, x2, steps)[p] == s[p] && Corrupt(SweptAll(s, x1, x2, steps), 0, x1, step)[p] == s[p]
    decreases |steps|
  {
    hide Mask, Corrupt;
    if steps == [] {
      NotSampled(p, step);
      CorruptAt(s, 0, x1, step, p);
    } else {
      NotSampled(p, steps[0]);
      CorruptAt(s, 0, x1, steps[0], p);
      CorruptAt(Corrupt(s, 0, x1, steps[0]), 0, x2, steps[0], p);
      OutOfReach(Swept(s, x1, x2, steps[0]), x1, x2, steps[1..], step, p);
    }
  }

  lemma NotSampled(p: nat, step: nat)
    requires IsStep(step) && p % 17 != 0
    ensures !Sampled(p, 0, step)
  {
    if Sampled(p, 0, step) {
      SampledMultiple(p, 0, step);
    }
  }

  /** A terminator out of reach keeps every scan inside, whatever the masks. */
  lemma KeepsTerminator(s: seq<u8>, x1: u8, x2: u8, p: nat)
    requires p < |s| && p % 17 != 0 && s[p] == 0
    ensures StaysScannable(s, x1, x2)
  {
    hide Corrupt, SweptAll;
    forall steps, step | AreSteps(steps) && IsStep(step)
      ensures ScannableAfter(s, x1, x2, steps, step)
    {
      OutOfReach(s, x1, x2, steps, step, p);
    }
  }

  lemma {:induction false} SweptAppend(s: seq<u8>, x1: u8, x2: u8, a: seq<nat>, b: seq<nat>)
    requires AreSteps(a) && AreSteps(b)
    ensures AreSteps(a + b) && SweptAll(s, x1, x2, a + b) == SweptAll(SweptAll(s, x1, x2, a), x1, x2, b)
    decreases |a|
  {
    hide Swept;
    if a == [] {
      assert a + b == b;
    } else {
      assert (a + b)[0] == a[0] && (a + b)[1..] == a[1..] + b;
      SweptAppend(Swept(s, x1, x2, a[0]), x1, x2, a[1..], b);
    }
  }

  // ------------------------------------------------- when benchmarks give the text back

  /** How many of the benchmarks change the byte at i. */
  function TimesSampled(steps: seq<nat>, i: nat): nat
    requires AreSteps(steps)
  {
    if steps == [] then 0 else (if Sampled(i, 0, steps[0]) then 1 else 0) + TimesSampled(steps[1..], i)
  }

  function MaskPair(b: u8, x1: u8, x2: u8): u8 {
    Mask(Mask(b, x1), x2)
  }

  function MaskedTimes(b: u8, x1: u8, x2: u8, n: nat): u8
    decreases n
  {
    if n == 0 then b else MaskedTimes(MaskPair(b, x1, x2), x1, x2, n - 1)
  }

  lemma SweptAt(s: seq<u8>, x1: u8, x2: u8, step: nat, i: nat)
    requires step > 0 && i < |s|
    ensures Swept(s, x1, x2, step)[i] == if Sampled(i, 0, step) then MaskPair(s[i], x1, x2) else s[i]
  {
    hide Mask, Sampled, Corrupt;
    CorruptAt(s, 0, x1, step, i);
    CorruptAt(Corrupt(s, 0, x1, step), 0, x2, step, i);
  }

  lemma {:induction false} SweptAllAt(s: seq<u8>, x1: u8, x2: u8, steps: seq<nat>, i: nat)
    requires AreSteps(steps) && i < |s|
    ensures SweptAll(s, x1, x2, steps)[i] == MaskedTimes(s[i], x1, x2, TimesSampled(steps, i))
    decreases |steps|
  {
    hide Swept, MaskPair, Sampled;
    if steps != [] {
      SweptAt(s, x1, x2, steps[0], i);
      SweptAllAt(Swept(s, x1, x2, steps[0]), x1, x2, steps[1..], i);
    }
  }

  /** Does a byte come back after n benchmarks that change it?  With equal masks it must not
      be turned into a comma; with different ones the number must be even, and neither mask
      nor both may turn it into one. */
  predicate ComesBack(b: u8, x1: u8, x2: u8, n: nat) {
    || b == COMMA || n == 0
    || (x1 == x2 && (x1 == 0 || b != Xor(COMMA, x1)))
    || (x1 != x2 && n % 2 == 0 && b != Xor(COMMA, x1) && b != Xor(COMMA, x2) && Xor(b, x1) != Xor(COMMA, x2))
  }

  lemma XorMoves(a: nat, x: nat, c: nat)
    ensures Xor(a, x) == c <==> a == Xor(c, x)
  {
    XorInvolution(a, x);
    XorInvolution(c, x);
  }

  lemma XorThrough(b: nat, x1: nat, x2: nat)
    ensures Xor(Xor(Xor(b, x1), x2), x1) == Xor(b, x2)
  {
    hide *;
    XorAssoc(Xor(b, x1), x2, x1);
    XorComm(x2, x1);
    XorAssoc(Xor(b, x1), x1, x2);
    XorInvolution(b, x1);
  }

  lemma PairEqual(b: u8, x: u8)
    requires b != COMMA
    ensures MaskPair(b, x, x) == if x != 0 && b == Xor(COMMA, x) then COMMA else b
  {
    hide Xor;
    MaskTwice(b, x, x);
    XorInvolution(COMMA, x);
    XorZero(COMMA);
  }

  lemma PairDifferent(b: u8, x1: u8, x2: u8)
    requires b != COMMA && x1 != x2
    ensures var f := MaskPair(b, x1, x2);
      && f != b && (f == COMMA <==> b == Xor(COMMA, x1) || Xor(b, x1) == Xor(COMMA, x2))
      && (f != COMMA ==> MaskPair(f, x1, x2) == if b == Xor(COMMA, x2) then COMMA else b)
  {
    hide Xor;
    MaskTwice(b, x1, x2);
    XorMoves(b, x1, COMMA);
    XorMoves(Xor(b, x1), x2, COMMA);
    XorThrough(b, x1, x2);
    XorMoves(b, x2, COMMA);
    XorInvolution(b, x2);
  }

  lemma {:induction false} CommaStays(x1: u8, x2: u8, n: nat)
    ensures MaskedTimes(COMMA, x1, x2, n) == COMMA
  {
    if n > 0 {
      CommaStays(x1, x2, n - 1);
    }
  }

  lemma {:induction false} ByteBack(b: u8, x1: u8, x2: u8, n: nat)
    ensures MaskedTimes(b, x1, x2, n) == b <==> ComesBack(b, x1, x2, n)
  {
    hide Xor, MaskPair;
    CommaStays(x1, x2, n);
    if b != COMMA && n > 0 {
      CommaStays(x1, x2, n - 1);
      if x1 == x2 {
        PairEqual(b, x1);
        ByteBack(b, x1, x2, n - 1);
      } else {
        PairDifferent(b, x1, x2);
        if n >= 2 {
          CommaStays(x1, x2, n - 2);
          ByteBack(b, x1, x2, n - 2);
          assert MaskedTimes(b, x1, x2, n) == MaskedTimes(MaskPair(MaskPair(b, x1, x2), x1, x2), x1, x2, n - 2);
        }
      }
    }
  }

  /** The exact condition, byte by byte and for any masks, for any number of benchmarks to
      give the text back. */
  lemma SweptAllBack(s: seq<u8>, x1: u8, x2: u8, steps: seq<nat>)
    requires AreSteps(steps)
    ensures SweptAll(s, x1, x2, steps) == s <==>
      forall i :: 0 <= i < |s| ==> ComesBack(s[i], x1, x2, TimesSampled(steps, i))
  {
    hide *;
    var t := SweptAll(s, x1, x2, steps);
    forall i | 0 <= i < |s|
      ensures t[i] == s[i] <==> ComesBack(s[i], x1, x2, TimesSampled(steps, i))
    {
      SweptAllAt(s, x1, x2, steps, i);
      ByteBack(s[i], x1, x2, TimesSampled(steps, i));
    }
  }

  lemma {:induction false} SampledOnce(steps: seq<nat>, i: nat)
    requires AreSteps(steps)
    ensures TimesSampled(steps, i) == 0 <==> forall k :: 0 <= k < |steps| ==> !Sampled(i, 0, steps[k])
  {
    hide Sampled;
    if steps != [] {
      SampledOnce(steps[1..], i);
      assert forall k :: 1 <= k < |steps| ==> steps[k] == steps[1..][k - 1];
      assert forall k :: 0 <= k < |steps| - 1 ==> steps[1..][k] == steps[k + 1];
    }
  }

  /** With equal masks a sweep leaves a byte alone or turns it into a comma for good, so the
      text comes back exactly if each of the benchmarks would give it back. */
  lemma SweptBack(s: seq<u8>, x: u8, steps: seq<nat>)
    requires AreSteps(steps)
    ensures SweptAll(s, x, x, steps) == s <==> forall k :: 0 <= k < |steps| ==> Restored(s, x, x, steps[k])
  {
    hide Restored, SweptAll, TimesSampled, ComesBack;
    if forall k :: 0 <= k < |steps| ==> Restored(s, x, x, steps[k]) {
      SweptKept(s, x, x, steps);
    }
    if SweptAll(s, x, x, steps) == s {
      SweptAllBack(s, x, x, steps);
      forall k | 0 <= k < |steps|
        ensures Restored(s, x, x, steps[k])
      {
        EachBack(s, x, steps, k);
      }
    }
  }

  lemma EachBack(s: seq<u8>, x: u8, steps: seq<nat>, k: nat)
    requires AreSteps(steps) && k < |steps|
    requires forall i :: 0 <= i < |s| ==> ComesBack(s[i], x, x, TimesSampled(steps, i))
    ensures Restored(s, x, x, steps[k])
  {
    hide Sampled, Corrupt, Xor, TimesSampled;
    RestoredIff(s, x, x, steps[k]);
    forall i | 0 <= i < |s| && Sampled(i, 0, steps[k])
      ensures s[i] == COMMA || x == 0 || s[i] != Xor(COMMA, x)
    {
      SampledOnce(steps, i);
    }
  }

  /** Benchmarks that each give the text back do so one after another, whatever the masks. */
  lemma {:induction false} SweptKept(s: seq<u8>, x1: u8, x2: u8, steps: seq<nat>)
    requires AreSteps(steps) && forall k :: 0 <= k < |steps| ==> Restored(s, x1, x2, steps[k])
    ensures SweptAll(s, x1, x2, steps) == s
    decreases |steps|
  {
    hide Swept;
    if steps != [] {
      assert forall k :: 0 <= k < |steps| - 1 ==> steps[1..][k] == steps[k + 1];
      SweptKept(s, x1, x2, steps[1..]);
      assert Restored(s, x1, x2, steps[0]);
    }
  }


  method ScanText(buf: array<u8>, finalCounts: array<nat>, trackCounts: array<nat>)
    requires finalCounts.Length == 8 && trackCounts.Length == 8 && finalCounts != trackCounts
    requires Terminated(buf[..], 0)
    modifies finalCounts, trackCounts
    ensures Tally(finalCounts[..], trackCounts[..])
      == ScanAll(buf[..], 0, Tally(old(finalCounts[..]), old(trackCounts[..])))
  {
    hide ScanAll, Scan, Terminated;
    var p := 0;
    ghost var text := buf[..];
    ghost var goal := ScanAll(text, 0, Tally(finalCounts[..], trackCounts[..]));
    TerminatedInside(text, p);
    while buf[p] != 0
      invariant Terminated(text, p) && p < buf.Length
      invariant ScanAll(text, p, Tally(finalCounts[..], trackCounts[..])) == goal
      decreases buf.Length - p
    {
      ghost var f := finalCounts[..];
      ScanAllNext(text, p, Tally(f, trackCounts[..]));
      var fstate;
      fstate, p := CoreStateTransition(buf, p, trackCounts);
      TerminatedInside(text, p);
      finalCounts[Code(fstate)] := finalCounts[Code(fstate)] + 1;
      assert finalCounts[..] == Inc(f, fstate);
    }
    ScanAllNext(text, p, Tally(finalCounts[..], trackCounts[..]));
  }

  lemma TerminatedInside(s: seq<u8>, p: nat)
    requires Terminated(s, p)
    ensures p < |s|
  {
  }

  method CrcCounts(finalCounts: array<nat>, trackCounts: array<nat>, crc: u16) returns (r: u16)
    requires finalCounts.Length == 8 && trackCounts.Length == 8
    ensures r == CrcOfTally(Tally(finalCounts[..], trackCounts[..]), 0, crc)
  {
    var i := 0;
    r := crc;
    ghost var t := Tally(finalCounts[..], trackCounts[..]);
    while i < 8
      invariant 0 <= i <= 8
      invariant CrcOfTally(t, i, r) == CrcOfTally(t, 0, crc)
    {
      var c := CrcU32(finalCounts[i] % 0x1_0000_0000, r);
      r := CrcU32(trackCounts[i] % 0x1_0000_0000, c);
      i := i + 1;
    }
  }

  method CoreBenchState(memblock: array<u8>, seed1: s16, seed2: s16, step: nat, crc: u16) returns (r: u16)
    requires step > 0 && Scannable(memblock[..], seed1 % 0x100, step)
    modifies memblock
    ensures r == StateCrc(old(memblock[..]), seed1 % 0x100, step, crc)
    ensures memblock[..] == Swept(old(memblock[..]), seed1 % 0x100, seed2 % 0x100, step)
  {
    hide Corrupt, ScanAll, CrcOfTally, Terminated;
    var finalCounts := new nat[8](_ => 0);
    var trackCounts := new nat[8](_ => 0);
    assert finalCounts[..] == NO_COUNTS && trackCounts[..] == NO_COUNTS;
    ScanText(memblock, finalCounts, trackCounts);
    Sweep(memblock, seed1 % 0x100, step);
    ScanText(memblock, finalCounts, trackCounts);
    Sweep(memblock, seed2 % 0x100, step);
    r := CrcCounts(finalCounts, trackCounts, crc);
  }

  // ---------------------------------------------------------------- initialization

  /** The bytes of an ASCII literal. */
  function Ascii(s: string): (r: seq<u8>)
    requires forall i :: 0 <= i < |s| ==> s[i] < 128 as char
    ensures |r| == |s| && forall i :: 0 <= i < |s| ==> r[i] == s[i] as int
  {
    seq(|s|, i requires 0 <= i < |s| => s[i] as int)
  }

  function IntPattern(k: nat): seq<u8>
    requires k < 4
  {
    if k == 0 then Ascii("5012") else if k == 1 then Ascii("1234") else if k == 2 then Ascii("-874") else Ascii("+122")
  }

  function FloatPattern(k: nat): seq<u8>
    requires k < 4
  {
    if k == 0 then Ascii("35.54400") else if k == 1 then Ascii(".1234500")
    else if k == 2 then Ascii("-110.700") else Ascii("+0.64400")
  }

  function SciPattern(k: nat): seq<u8>
    requires k < 4
  {
    if k == 0 then Ascii("5.500e+3") else if k == 1 then Ascii("-.123e-2")
    else if k == 2 then Ascii("-87e+832") else Ascii("+0.6e-12")
  }

  function ErrPattern(k: nat): seq<u8>
    requires k < 4
  {
    if k == 0 then Ascii("T0.3e-1F") else if k == 1 then Ascii("-T.T++Tq")
    else if k == 2 then Ascii("1T3.4e4z") else Ascii("34.0e-T^")
  }

  /** The pattern the switch in `core_init_state` picks for a seed. */
  function Pattern(seed: s16): (r: seq<u8>)
    ensures |r| == 4 || |r| == 8
  {
    var kind, k := seed % 8, seed / 8 % 4;
    if kind <= 2 then IntPattern(k) else if kind <= 4 then FloatPattern(k)
    else if kind <= 6 then SciPattern(k) else ErrPattern(k)
  }

  /** What the low three bits of the seed choose: 0 to 2 an integer, 3 and 4 a number with a point,
      5 and 6 one in scientific notation, one of the four of which is spoiled, and 7 a text that
      is not even the beginning of a number. */
  lemma PatternKinds(seed: s16)
    ensures seed % 8 <= 2 ==> IsInt(Pattern(seed)) && |Pattern(seed)| == 4
    ensures 3 <= seed % 8 <= 4 ==> IsFloat(Pattern(seed)) && |Pattern(seed)| == 8
    ensures 5 <= seed % 8 <= 6 && seed / 8 % 4 != 2 ==> IsScientific(Pattern(seed)) && |Pattern(seed)| == 8
    ensures seed % 8 == 7 ==> !Viable(Pattern(seed)) && |Pattern(seed)| == 8
  {
    var w, k := Pattern(seed), seed / 8 % 4;
    IntState(k);
    FloatState(k);
    PatternState(k);
    ErrState(k);
    PatternIs(seed);
    hide *;
    StateIsLanguage(w, Int);
    StateIsLanguage(w, Float);
    StateIsLanguage(w, Scientific);
    Languages(w);
    AfterViable(w);
  }

  lemma PatternIs(seed: s16)
    ensures var kind, k, w := seed % 8, seed / 8 % 4, Pattern(seed);
      && (kind <= 2 ==> w == IntPattern(k)) && (3 <= kind <= 4 ==> w == FloatPattern(k))
      && (5 <= kind <= 6 ==> w == SciPattern(k)) && (kind == 7 ==> w == ErrPattern(k))
  {
    hide IntPattern, FloatPattern, SciPattern, ErrPattern;
  }

  lemma Languages(w: seq<u8>)
    ensures InLanguage(w, Int) <==> IsInt(w)
    ensures InLanguage(w, Float) <==> IsFloat(w)
    ensures InLanguage(w, Scientific) <==> IsScientific(w)
  {
    hide IsInt, IsFloat, IsScientific;
  }

  lemma IntState(k: nat)
    requires k < 4
    ensures After(IntPattern(k)) == Int && |IntPattern(k)| == 4
  {
    var w := IntPattern(k);
    assert |w| == 4;
    hide After;
    AfterNext(w, 0);
    AfterNext(w, 1);
    AfterNext(w, 2);
    AfterNext(w, 3);
  }

  lemma FloatState(k: nat)
    requires k < 4
    ensures After(FloatPattern(k)) == Float && |FloatPattern(k)| == 8
  {
    var w := FloatPattern(k);
    assert |w| == 8;
    hide After;
    AfterEight(w);
  }

  lemma ErrState(k: nat)
    requires k < 4
    ensures After(ErrPattern(k)) == Invalid && |ErrPattern(k)| == 8
  {
    var w := ErrPattern(k);
    assert |w| == 8;
    hide After;
    AfterEight(w);
  }

  /** Three of the four scientific patterns are in the language of the final state; the
      third one is not even the beginning of a number, for its mantissa has no point. */
  lemma ScientificPatterns(seed: s16)
    requires 5 <= seed % 8 <= 6
    ensures IsScientific(Pattern(seed)) <==> seed / 8 % 4 != 2
    ensures Viable(Pattern(seed)) <==> seed / 8 % 4 != 2
  {
    var w := Pattern(seed);
    PatternState(seed / 8 % 4);
    hide *;
    StateIsLanguage(w, Scientific);
    Languages(w);
    AfterViable(w);
  }

  lemma AfterNext(w: seq<u8>, i: nat)
    requires i < |w|
    ensures After(w[..i + 1]) == Next(After(w[..i]), w[i]) && After(w[..0]) == Start && w[..|w|] == w
  {
    assert w[..i + 1][..i] == w[..i];
  }

  lemma PatternState(k: nat)
    requires k < 4
    ensures After(SciPattern(k)) == (if k == 2 then Invalid else Scientific) && |SciPattern(k)| == 8
  {
    var w := SciPattern(k);
    assert |w| == 8;
    hide After;
    AfterEight(w);
  }

  lemma AfterEight(w: seq<u8>)
    requires |w| == 8
    ensures After(w) == Next(Next(Next(Next(Next(Next(Next(Next(Start, w[0]), w[1]), w[2]), w[3]), w[4]), w[5]), w[6]),
      w[7])
  {
    hide *;
    AfterNext(w, 0);
    AfterNext(w, 1);
    AfterNext(w, 2);
    AfterNext(w, 3);
    AfterNext(w, 4);
    AfterNext(w, 5);
    AfterNext(w, 6);
    AfterNext(w, 7);
  }

  /** Where that pattern stands in a text, one call stops right behind its `e` and answers
      invalid, and the next one reads the rest, `+832`, as an integer. */
  lemma SpoiledPattern(s: seq<u8>, p: nat, track: Counts)
    requires p + 9 <= |s| && s[p..p + 8] == SciPattern(2) && s[p + 8] == COMMA && Terminated(s, p)
    ensures var r := Scan(s, p, Start, track); r.state == Invalid && r.pos == p + 4
    ensures Terminated(s, p + 4)
    ensures var r := Scan(s, p + 4, Start, track); r.state == Int && r.pos == p + 9
  {
    PatternBytes(s, p);
    hide SciPattern, Track;
    ScanTurns(s, p, track);
    ScanRest(s, p + 4, track);
  }

  lemma PatternBytes(s: seq<u8>, p: nat)
    requires p + 9 <= |s| && s[p..p + 8] == SciPattern(2) && Terminated(s, p)
    ensures s[p] == MINUS && s[p + 1] == 0x38 && s[p + 2] == 0x37 && s[p + 3] == LOWER_E
    ensures s[p + 4] == PLUS && s[p + 5] == 0x38 && s[p + 6] == 0x33 && s[p + 7] == 0x32
    ensures Terminated(s, p + 4)
  {
    var w := SciPattern(2);
    var v := s[p..p + 8];
    assert v[0] == s[p] && v[1] == s[p + 1] && v[2] == s[p + 2] && v[3] == s[p + 3];
    assert v[4] == s[p + 4] && v[5] == s[p + 5] && v[6] == s[p + 6] && v[7] == s[p + 7];
    assert w[0] == MINUS && w[1] == 0x38 && w[2] == 0x37 && w[3] == LOWER_E;
    assert w[4] == PLUS && w[5] == 0x38 && w[6] == 0x33 && w[7] == 0x32;
  }

  lemma ScanTurns(s: seq<u8>, p: nat, track: Counts)
    requires p + 4 < |s| && Terminated(s, p + 4)
    requires s[p] == MINUS && s[p + 1] == 0x38 && s[p + 2] == 0x37 && s[p + 3] == LOWER_E
    ensures Terminated(s, p) && Scan(s, p, Start, track).state == Invalid && Scan(s, p, Start, track).pos == p + 4
  {
    hide Track;
    var t1 := Track(track, Start, s[p]);
    var t2 := Track(t1, S1, s[p + 1]);
    var t3 := Track(t2, Int, s[p + 2]);
    assert Scan(s, p, Start, track) == Scan(s, p + 1, S1, t1);
    assert Scan(s, p + 1, S1, t1) == Scan(s, p + 2, Int, t2);
    assert Scan(s, p + 2, Int, t2) == Scan(s, p + 3, Int, t3);
  }

  lemma ScanRest(s: seq<u8>, p: nat, track: Counts)
    requires p + 5 <= |s| && Terminated(s, p)
    requires s[p] == PLUS && s[p + 1] == 0x38 && s[p + 2] == 0x33 && s[p + 3] == 0x32 && s[p + 4] == COMMA
    ensures Scan(s, p, Start, track).state == Int && Scan(s, p, Start, track).pos == p + 5
  {
    hide Track;
    var t1 := Track(track, Start, s[p]);
    var t2 := Track(t1, S1, s[p + 1]);
    var t3 := Track(t2, Int, s[p + 2]);
    var t4 := Track(t3, Int, s[p + 3]);
    assert Scan(s, p, Start, track) == Scan(s, p + 1, S1, t1);
    assert Scan(s, p + 1, S1, t1) == Scan(s, p + 2, Int, t2);
    assert Scan(s, p + 2, Int, t2) == Scan(s, p + 3, Int, t3);
    assert Scan(s, p + 3, Int, t3) == Scan(s, p + 4, Int, t4);
  }

  /** `seed++` on a 16-bit seed */
  function NextSeed(seed: s16): s16 {
    ToS16(seed as int + 1)
  }

  /** The patterns written from `total` on, `cur` being the next one (none at first). */
  function InitBody(seed: s16, total: nat, cur: seq<u8>, limit: int): (r: seq<u8>)
    ensures r != [] ==> total + |r| < limit
    decreases limit - total, if cur == [] then 1 else 0
  {
    if total + |cur| + 1 < limit then
      var next := NextSeed(seed);
      if cur == [] then InitBody(next, total, Pattern(next), limit)
      else cur + [COMMA] + InitBody(next, total + |cur| + 1, Pattern(next), limit)
    else []
  }

  function InitText(size: nat, seed: s16): (r: seq<u8>)
    requires size >= 1
    ensures |r| == size
    ensures size >= 2 ==> r[size - 1] == 0 && r[size - 2] == 0
  {
    var body := InitBody(seed, 0, [], size - 1);
    body + seq(size - |body|, _ => 0)
  }

  /** The patterns of the n seeds behind this one, each with its comma. */
  function PatternsText(seed: s16, n: nat): seq<u8> {
    if n == 0 then [] else PatternsText(seed, n - 1) + Pattern(ToS16(seed as int + n)) + [COMMA]
  }

  lemma {:induction false} PatternsFirst(seed: s16, n: nat)
    ensures PatternsText(seed, n + 1) == Pattern(NextSeed(seed)) + [COMMA] + PatternsText(NextSeed(seed), n)
  {
    hide *;
    var next := NextSeed(seed);
    var p := Pattern(next) + [COMMA];
    PatternsLast(seed, n);
    SeedOnward(seed, n);
    if n == 0 {
      PatternsNone(seed);
      PatternsNone(next);
      assert [] + p == p + [];
    } else {
      PatternsFirst(seed, n - 1);
      PatternsLast(next, n - 1);
      Regroup(p, PatternsText(next, n - 1), Pattern(ToS16(seed as int + n + 1)) + [COMMA]);
    }
  }

  lemma PatternsLast(seed: s16, n: nat)
    ensures PatternsText(seed, n + 1) == PatternsText(seed, n) + (Pattern(ToS16(seed as int + n + 1)) + [COMMA])
  {
    hide Pattern, ToS16;
    Regroup(PatternsText(seed, n), Pattern(ToS16(seed as int + n + 1)), [COMMA]);
  }

  lemma PatternsNone(seed: s16)
    ensures PatternsText(seed, 0) == []
  {
  }

  lemma SeedOnward(seed: s16, n: nat)
    ensures NextSeed(seed) == ToS16(seed as int + 1)
    ensures ToS16(NextSeed(seed) as int + n) == ToS16(seed as int + n + 1)
  {
  }

  lemma {:induction false} BodyPatterns(seed: s16, total: nat, limit: int) returns (n: nat)
    ensures InitBody(seed, total, Pattern(seed), limit)
      == (if n == 0 then [] else Pattern(seed) + [COMMA] + PatternsText(seed, n - 1))
    ensures n > 0 ==> total + |Pattern(seed)| + 1 + |PatternsText(seed, n - 1)| < limit
    ensures total + |Pattern(seed)| + 1 + |PatternsText(seed, n)| >= limit
    decreases limit - total
  {
    hide *;
    var p, next := Pattern(seed), NextSeed(seed);
    InitBodyTurn(seed, total, p, limit);
    PatternsNone(seed);
    if total + |p| + 1 < limit {
      var k := BodyPatterns(next, total + |p| + 1, limit);
      n := k + 1;
      PatternsFirst(seed, k);
      if k > 0 {
        PatternsFirst(seed, k - 1);
      }
      PatternNotEmpty(seed);
    } else {
      n := 0;
    }
  }

  lemma PatternNotEmpty(seed: s16)
    ensures Pattern(seed) != []
  {
    hide IntPattern, FloatPattern, SciPattern, ErrPattern;
  }

  /** An initialized text is the patterns of the seeds from seed + 1 on, as many as leave at least
      two bytes free, each followed by a comma, and zeros. */
  lemma InitTextPatterns(size: nat, seed: s16) returns (n: nat)
    requires size >= 1
    ensures |PatternsText(seed, n)| <= size
    ensures InitText(size, seed) == PatternsText(seed, n) + seq(size - |PatternsText(seed, n)|, _ => 0)
    ensures n > 0 ==> |PatternsText(seed, n)| < size - 1
    ensures |PatternsText(seed, n + 1)| >= size - 1
  {
    hide InitText, InitBody, Pattern, PatternsText, NextSeed;
    var next := NextSeed(seed);
    InitTextIs(size, seed);
    InitBodyTurn(seed, 0, [], size - 1);
    PatternsNone(seed);
    PatternsFirst(seed, 0);
    n := 0;
    if 1 < size - 1 {
      n := BodyPatterns(next, 0, size - 1);
      PatternsFirst(seed, n);
      if n > 0 {
        PatternsFirst(seed, n - 1);
      }
    }
  }

  /** With an empty block `size--` wraps around, and the first pattern is written where
      there is no room for it. */
  lemma EmptyBlockOverrun(seed: s16)
    ensures |InitBody(seed, 0, [], (0 - 1) % 0x1_0000_0000)| >= 5
  {
    var limit, next := (0 - 1) % 0x1_0000_0000, NextSeed(seed);
    assert limit == 0xFFFF_FFFF;
    InitBodyTurn(seed, 0, [], limit);
    InitBodyTurn(next, 0, Pattern(next), limit);
  }

  method CopyPattern(p: array<u8>, total: nat, buf: seq<u8>)
    requires total + |buf| < p.Length
    modifies p
    ensures p[..] == old(p[..total]) + buf + [COMMA] + old(p[total + |buf| + 1..])
  {
    var i := 0;
    while i < |buf|
      invariant 0 <= i <= |buf|
      invariant forall k :: 0 <= k < p.Length ==> p[k] == if total <= k < total + i then buf[k - total] else old(p[k])
    {
      p[total + i] := buf[i];
      i := i + 1;
    }
    p[total + i] := COMMA;
  }

  lemma InitBodyTurn(seed: s16, total: nat, cur: seq<u8>, limit: int)
    ensures total + |cur| + 1 >= limit ==> InitBody(seed, total, cur, limit) == []
    ensures total + |cur| + 1 < limit && cur == [] ==>
      InitBody(seed, total, cur, limit) == InitBody(NextSeed(seed), total, Pattern(NextSeed(seed)), limit)
    ensures total + |cur| + 1 < limit && cur != [] ==>
      InitBody(seed, total, cur, limit) == cur + [COMMA] + InitBody(NextSeed(seed), total + |cur| + 1,
        Pattern(NextSeed(seed)), limit)
  {
  }

  lemma Regroup(a: seq<u8>, b: seq<u8>, c: seq<u8>)
    ensures (a + b) + c == a + (b + c)
  {
  }

  lemma InitTextIs(size: nat, seed: s16)
    requires size >= 1
    ensures var body := InitBody(seed, 0, [], size - 1);
      |body| <= size && InitText(size, seed) == body + seq(size - |body|, _ => 0)
  {
  }

  method FillZeros(p: array<u8>, n: nat)
    requires n <= p.Length
    modifies p
    ensures p[..] == old(p[..n]) + seq(p.Length - n, _ => 0)
  {
    var total := n;
    while total < p.Length
      invariant n <= total <= p.Length
      invariant p[..n] == old(p[..n]) && forall i :: n <= i < total ==> p[i] == 0
    {
      p[total] := 0;
      total := total + 1;
    }
  }

  method CoreInitState(size: nat, seed0: s16, p: array<u8>)
    requires size >= 1 && p.Length == size
    modifies p
    ensures p[..] == InitText(size, seed0)
  {
    hide InitBody, Pattern, InitText, NextSeed;
    var total, next, buf: seq<u8>, seed := 0, 0, [], seed0;
    ghost var limit := size - 1;
    ghost var body := InitBody(seed, 0, [], limit);
    ghost var head: seq<u8> := [];
    while total + next + 1 < size - 1
      invariant next == |buf| && total <= size && p[..total] == head
      invariant head + InitBody(seed, total, buf, limit) == body
      decreases size - total, if buf == [] then 1 else 0
    {
      InitBodyTurn(seed, total, buf, limit);
      if next > 0 {
        CopyPattern(p, total, buf);
        total := total + next + 1;
        Regroup(head, buf + [COMMA], InitBody(NextSeed(seed), total, Pattern(NextSeed(seed)), limit));
        head := head + (buf + [COMMA]);
      }
      seed := NextSeed(seed);
      buf := Pattern(seed);
      next := |buf|;
    }
    InitBodyTurn(seed, total, buf, limit);
    assert head + [] == head;
    FillZeros(p, total);
    InitTextIs(size, seed0);
  }

  /** The bytes an initialized text can contain: those of the patterns, the comma and
      the terminator. */
  const LETTERS: string := "012345678+-.,eTFqz^"

  predicate InAlphabet(c: u8) {
    c == 0 || (c < 128 && c as char in LETTERS)
  }

  lemma AsciiInAlphabet(s: string)
    requires forall i :: 0 <= i < |s| ==> s[i] in LETTERS
    ensures forall i :: 0 <= i < |s| ==> s[i] < 128 as char
    ensures forall i :: 0 <= i < |s| ==> InAlphabet(Ascii(s)[i])
  {
  }

  predicate AllInAlphabet(s: seq<u8>) {
    forall i :: 0 <= i < |s| ==> InAlphabet(s[i])
  }

  lemma IntInAlphabet(k: nat)
    requires k < 4
    ensures AllInAlphabet(IntPattern(k))
  {
    AsciiInAlphabet("5012");
    AsciiInAlphabet("1234");
    AsciiInAlphabet("-874");
    AsciiInAlphabet("+122");
  }

  lemma FloatInAlphabet(k: nat)
    requires k < 4
    ensures AllInAlphabet(FloatPattern(k))
  {
    AsciiInAlphabet("35.54400");
    AsciiInAlphabet(".1234500");
    AsciiInAlphabet("-110.700");
    AsciiInAlphabet("+0.64400");
  }

  lemma SciInAlphabet(k: nat)
    requires k < 4
    ensures AllInAlphabet(SciPattern(k))
  {
    AsciiInAlphabet("5.500e+3");
    AsciiInAlphabet("-.123e-2");
    AsciiInAlphabet("-87e+832");
    AsciiInAlphabet("+0.6e-12");
  }

  lemma ErrInAlphabet(k: nat)
    requires k < 4
    ensures AllInAlphabet(ErrPattern(k))
  {
    AsciiInAlphabet("T0.3e-1F");
    AsciiInAlphabet("-T.T++Tq");
    AsciiInAlphabet("1T3.4e4z");
    AsciiInAlphabet("34.0e-T^");
  }

  lemma PatternInAlphabet(seed: s16)
    ensures AllInAlphabet(Pattern(seed))
  {
    hide AllInAlphabet, IntPattern, FloatPattern, SciPattern, ErrPattern;
    IntInAlphabet(seed / 8 % 4);
    FloatInAlphabet(seed / 8 % 4);
    SciInAlphabet(seed / 8 % 4);
    ErrInAlphabet(seed / 8 % 4);
  }

  lemma {:induction false} InitBodyInAlphabet(seed: s16, total: nat, cur: seq<u8>, limit: int)
    requires forall i :: 0 <= i < |cur| ==> InAlphabet(cur[i])
    ensures forall i :: 0 <= i < |InitBody(seed, total, cur, limit)| ==>
      InAlphabet(InitBody(seed, total, cur, limit)[i])
    decreases limit - total, if cur == [] then 1 else 0
  {
    if total + |cur| + 1 < limit {
      hide Pattern, InAlphabet;
      PatternInAlphabet(NextSeed(seed));
      CommaInAlphabet();
      InitBodyInAlphabet(NextSeed(seed), if cur == [] then total else total + |cur| + 1, Pattern(NextSeed(seed)),
        limit);
    }
  }

  lemma CommaInAlphabet()
    ensures InAlphabet(COMMA) && InAlphabet(0)
  {
    assert COMMA as char == ',';
  }

  /** An initialized text survives the benchmark with every step if the mask is zero or
      turns the comma into a byte the patterns do not use. */
  lemma InitTextRestored(size: nat, seed: s16, x: u8, step: nat)
    requires size >= 1 && step > 0
    requires x == 0 || (Xor(COMMA, x) < 0x100 && !InAlphabet(Xor(COMMA, x)))
    ensures Restored(InitText(size, seed), x, x, step)
  {
    var s := InitText(size, seed);
    InitTextInAlphabet(size, seed);
    hide InitText, InAlphabet, Xor, Restored;
    RestoredByBytes(s, x, step);
  }

  lemma InitTextInAlphabet(size: nat, seed: s16)
    requires size >= 1
    ensures forall i :: 0 <= i < size ==> InAlphabet(InitText(size, seed)[i])
  {
    hide InAlphabet, InitBody;
    InitBodyInAlphabet(seed, 0, [], size - 1);
    CommaInAlphabet();
  }

  lemma RestoredByBytes(s: seq<u8>, x: u8, step: nat)
    requires step > 0 && (x == 0 || forall i :: 0 <= i < |s| ==> s[i] != Xor(COMMA, x))
    ensures Restored(s, x, x, step)
  {
    hide Xor, Sampled, Corrupt;
    RestoredIff(s, x, x, step);
  }

  /** A sampled byte that the mask turns into a comma is not restored. */
  lemma TurnedStays(s: seq<u8>, x: u8, step: nat, i: nat)
    requires step > 0 && x != 0 && i < |s| && Sampled(i, 0, step) && s[i] == Xor(COMMA, x) != COMMA
    ensures !Restored(s, x, x, step)
  {
    hide Sampled, Corrupt, Xor;
    RestoredIff(s, x, x, step);
  }

  /** Neither scan leaves an initialized text. */
  lemma InitTextScannable(size: nat, seed: s16, x: u8, step: nat)
    requires size >= 2 && step >= 2
    ensures Scannable(InitText(size, seed), x, step)
  {
    hide InitText;
    StillTerminated(InitText(size, seed), x, step);
  }

  /** No run of benchmarks ever scans past the end of an initialized text, whatever the
      seeds: one of its two last terminators is out of reach of every step. */
  lemma InitTextStaysScannable(size: nat, seed: s16, x1: u8, x2: u8)
    requires size >= 2
    ensures StaysScannable(InitText(size, seed), x1, x2)
  {
    hide InitText;
    KeepsTerminator(InitText(size, seed), x1, x2, if (size - 1) % 17 != 0 then size - 1 else size - 2);
  }

  /** The seeds CoreMark validates (0, 0x3415 and 8) all have such masks. */
  lemma StandardSeeds(seed1: s16)
    requires seed1 == 0 || seed1 == 0x3415 || seed1 == 8
    ensures var x := seed1 % 0x100; x == 0 || (Xor(COMMA, x) < 0x100 && !InAlphabet(Xor(COMMA, x)))
  {
    hide *;
    CommaMasked();
    UnusedCharacters();
  }

  lemma CommaMasked()
    ensures Xor(COMMA, 0x15) == 0x39 && Xor(COMMA, 8) == 0x24
  {
    assert Xor(0, 1) == 1;
    assert Xor(5, 2) == 7;
    assert Xor(0xb, 5) == 0xe;
    assert Xor(5, 1) == 4;
  }

  lemma UnusedCharacters()
    ensures !InAlphabet(0x39) && !InAlphabet(0x24)
  {
    assert 0x39 as char == '9' && 0x24 as char == '$';
  }
}
