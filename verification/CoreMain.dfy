/** `main` of `core_main.c`: the set-up, and the whole benchmark run from it. */
module CoreMain {
  import opened MachineInts
  import opened StateBench
  import opened Matrix
  import opened MatrixInit
  import opened ListMemory
  import opened ListOrder
  import opened ListCompare
  import opened ListSort
  import opened ListBench
  import opened ListInit
  import opened CoreIterate
  import opened CoreText

  // ------------------------------------------------------------- the initial list

  /** The list from which every run can start: behind the head there are always two nodes of
      a larger index. */
  lemma ListReady(next: seq<Ptr>, m: Cells, size: nat, seed: s16, list: Ptr, s: seq<nat>)
    requires size >= 4 && Initialized(next, m, size, seed, list, s)
    ensures IsList(next, list, s) && IndexSorted(m, s) && Roomy(m, s)
  {
    hide *;
    InitializedParts(next, m, size, seed, list, s);
    InitSorted(next, m, size, seed, list, s);
    HeadFirstIff(next, m, size, seed, list, s);
    var x, y := if size / 5 <= 0x8000 then size - 2 else 0, 1;
    InOrder(size, s, x);
    InOrder(size, s, y);
    NodeIndex(next, m, size, seed, list, s, x);
    NodeIndex(next, m, size, seed, list, s, y);
    IndexIs(m, x);
    IndexIs(m, y);
    if size / 5 <= 0x8000 {
      NodeIndex(next, m, size, seed, list, s, 0);
      IndexIs(m, 0);
      SecondNode(size, seed);
    } else {
      var z := size - 1 - 0x8000;
      WrappedIndex(size, seed);
      InOrder(size, s, z);
      NodeIndex(next, m, size, seed, list, s, z);
      IndexIs(m, z);
      FirstLowest(m, s, z);
    }
    LastIndex(size, seed);
    TwoAbove(m, s, x, y, IndexAt(m, s[0]));
    RoomyIs(m, s);
  }

  lemma IndexIs(m: Cells, x: nat)
    requires m.HasCell(x)
    ensures IndexAt(m, x) == m.Key(CmpIdx, x)
  {
  }

  lemma FirstLowest(m: Cells, s: seq<nat>, z: nat)
    requires IndexSorted(m, s) && z in s
    ensures IndexAt(m, s[0]) <= IndexAt(m, z)
  {
    hide IndexAt;
    var i :| 0 <= i < |s| && s[i] == z;
  }

  lemma LastIndex(size: nat, seed: s16)
    requires size >= 4
    ensures IndexOf(size, seed, 1) == 0x7fff && IndexOf(size, seed, 0) == 0
  {
  }

  /** The node at the first place never gets the index 0. */
  lemma SecondNode(size: nat, seed: s16)
    requires size >= 4 && size / 5 <= 0x8000
    ensures IndexOf(size, seed, size - 2) > 0
  {
    hide MixedIndex, LowPlace, HighPlace, LowSeed, MixedHigh, Xor, Eighth, HighBits;
    MixedParts(seed, 1);
    SmallPlace(1);
    MixedHighZero(seed, 1);
    NotEighth();
  }

  lemma NotEighth()
    ensures !Eighth(1)
  {
  }

  lemma RoomyIs(m: Cells, s: seq<nat>)
    ensures Roomy(m, s) <==> |s| >= 3 && IndexAt(m, s[0]) < IndexAt(m, s[|s| - 2])
  {
  }

  lemma InitSorted(next: seq<Ptr>, m: Cells, size: nat, seed: s16, list: Ptr, s: seq<nat>)
    requires Initialized(next, m, size, seed, list, s)
    ensures IndexSorted(m, s)
  {
    NodesInRange(size, s);
    hide IsList, Rank, Built, NodeData;
    forall k | 0 <= k < |s|
      ensures Low(m.Data(s[k])) == High(m.Data(s[k]))
    {
      assert m.info[s[k]] == s[k];
    }
    forall a, b | 0 <= a < b < |s|
      ensures IndexAt(m, s[a]) <= IndexAt(m, s[b])
    {
      assert StablyBefore(m, CmpIdx, Built(size - 1), s[a], s[b]);
    }
  }

  /** The order of an initialized list comes back from the second benchmark of an iteration,
      whatever `seed3`, exactly if size and seed give no index twice. */
  lemma InitAlwaysBack(next: seq<Ptr>, env: Env, m: Cells, size: nat, seed: s16, list: Ptr, s: seq<nat>, b: Bench)
    requires size >= 4 && Initialized(next, m, size, seed, list, s) && BenchReady(env, m, s, b)
    ensures (forall findNum :: BackOrder(env, m, s, findNum, -1, b) == s) <==> DistinctIndexing(size, seed)
  {
    hide *;
    InitSorted(next, m, size, seed, list, s);
    InitMissing(next, m, size, seed, list, s);
    AlwaysBackData(env, m, s, b, 0x81);
    CanonicalIff(next, m, size, seed, list, s);
  }

  lemma InitMissing(next: seq<Ptr>, m: Cells, size: nat, seed: s16, list: Ptr, s: seq<nat>)
    requires size >= 4 && Initialized(next, m, size, seed, list, s)
    ensures Missing(m, s, 0x81)
  {
    NodesInRange(size, s);
    hide IsList, Rank, Built, ItemData;
    forall k | 0 <= k < |s| && m.HasCell(s[k])
      ensures Low(m.Data(s[k])) != 0x81
    {
      assert m.info[s[k]] == s[k] && m.Data(s[k]) == NodeData(seed, s[k]);
    }
  }

  // -------------------------------------------------------- steps of the initial list

  /** 17 times a pattern, at least 0x22 */
  function PatternStep(n: nat): (step: nat)
    requires n < 16
    ensures IsStep(step)
  {
    if 17 * n < 0x22 then 0x22 else 17 * n
  }

  /** The steps of the items at multiples of 16, and 8 behind them. */
  function FirstStep(seed: s16): (step: nat)
    ensures IsStep(step)
  {
    PatternStep(seed % 16)
  }

  function SecondStep(seed: s16): (step: nat)
    ensures IsStep(step)
  {
    PatternStep((seed as int + 8) % 16)
  }

  lemma PatternXor(w: nat, i: nat)
    requires i % 8 == 0
    ensures Xor(w, i) % 16 == (w + i) % 16
  {
    hide *;
    var lo, hi, b, c := Quotients(w, i);
    XorLow4(lo, hi, 8 * b, c);
    XorBit3(lo, b);
    SumMod16(lo + 8 * b, hi + c);
  }

  lemma Quotients(w: nat, i: nat) returns (lo: nat, hi: nat, b: nat, c: nat)
    requires i % 8 == 0
    ensures w == lo + 16 * hi && lo < 16 && i == 8 * b + 16 * c && b < 2
  {
    lo, hi, b, c := w % 16, w / 16, i / 8 % 2, i / 8 / 2;
  }

  lemma SumMod16(x: int, k: int)
    ensures (x + 16 * k) % 16 == x % 16
  {
  }

  lemma XorLow4(lo: nat, hi: nat, lo2: nat, hi2: nat)
    requires lo < 16 && lo2 < 16
    ensures Xor(lo + 16 * hi, lo2 + 16 * hi2) % 16 == Xor(lo, lo2) < 16
  {
    hide *;
    SmallPowers();
    ShiftFour(hi);
    ShiftFour(hi2);
    ShiftFour(Xor(hi, hi2));
    XorParts(lo, hi, lo2, hi2, 4);
    SumMod16(Xor(lo, lo2), Xor(hi, hi2));
  }

  lemma SmallPowers()
    ensures Pow2(3) == 8 && Pow2(4) == 16
  {
    assert Pow2(2) == 4;
  }

  lemma ShiftFour(h: nat)
    ensures Shift(h, 4) == 16 * h && Shift(h, 3) == 8 * h
  {
    assert Shift(h, 1) == 2 * h;
    assert Shift(h, 2) == 4 * h;
    assert Shift(h, 3) == 8 * h;
  }

  lemma XorBit3(lo: nat, b: nat)
    requires lo < 16 && b < 2
    ensures Xor(lo, 8 * b) == (lo + 8 * b) % 16
  {
    hide *;
    var l, c := lo % 8, lo / 8;
    SmallPowers();
    ShiftFour(c);
    ShiftFour(b);
    ShiftFour(Xor(c, b));
    BitsXor2(c, b);
    XorParts(l, c, 0, b, 3);
    XorZero(l);
  }

  lemma BitsXor2(c: nat, b: nat)
    requires c < 2 && b < 2
    ensures Xor(c, b) == (c + b) % 2
  {
    assert Xor(0, 0) == 0;
  }

  /** The data word of an item, and what it asks for. */
  lemma ItemSteps(seed: s16, i: nat)
    ensures StepsOf(ItemData(seed, i)) ==
      if i % 8 != 0 then [] else [if i % 16 == 0 then FirstStep(seed) else SecondStep(seed)]
  {
    hide *;
    var n := ItemWord(seed, i);
    DataSteps(n, i % 8);
    if i % 8 == 0 {
      ItemPattern(seed, i, n);
    }
  }

  lemma ItemWord(seed: s16, i: nat) returns (n: nat)
    ensures n == Xor(seed % 0x1_0000, i % 0x1_0000) % 16 < 16
    ensures ItemData(seed, i) == (n * 8 + i % 8) * 0x100 + (n * 8 + i % 8)
  {
    hide Xor;
    n := Xor(seed % 0x1_0000, i % 0x1_0000) % 16;
  }

  lemma ItemPattern(seed: s16, i: nat, n: nat)
    requires i % 8 == 0 && n == Xor(seed % 0x1_0000, i % 0x1_0000) % 16 < 16
    ensures PatternStep(n) == if i % 16 == 0 then FirstStep(seed) else SecondStep(seed)
  {
    hide Xor, PatternStep;
    LowBits(seed, i);
    PatternXor(seed % 0x1_0000, i % 0x1_0000);
  }

  lemma LowBits(seed: s16, i: nat)
    ensures i % 0x1_0000 % 8 == i % 8
    ensures i % 8 == 0 ==> (seed % 0x1_0000 + i % 0x1_0000) % 16 == (seed as int + (if i % 16 == 0 then 0 else 8)) % 16
  {
    var k: int := if seed < 0 then 1 else 0;
    var q, b, c := i / 0x1_0000, i / 8 % 2, i / 8 / 2;
    assert seed % 0x1_0000 == seed as int + 0x1_0000 * k;
    assert i % 0x1_0000 == i - 0x1_0000 * q;
    WordMod8(i, q);
    if i % 8 == 0 {
      assert i == 8 * b + 16 * c;
      SumMod16(seed as int + 8 * b, 0x1000 * k + c - 0x1000 * q);
      SumMod16(8 * b, c);
    }
  }

  lemma WordMod8(i: nat, q: int)
    ensures (i - 0x1_0000 * q) % 8 == i % 8
  {
    SumMod8(i, -0x2000 * q);
  }

  lemma SumMod8(x: int, k: int)
    ensures (x + 8 * k) % 8 == x % 8
  {
  }

  lemma DataSteps(n: nat, k: nat)
    requires n < 16 && k < 8
    ensures var dat := n * 8 + k;
      dat * 0x100 + dat < 0x1_0000 && StepsOf(dat * 0x100 + dat) == if k != 0 then [] else [PatternStep(n)]
  {
    var dat := n * 8 + k;
    var d := dat * 0x100 + dat;
    assert d / 0x80 == 2 * dat;
    assert d % 8 == k;
    assert k == 0 ==> d / 8 == n * 0x101 && n * 0x101 % 16 == n;
  }

  /** The initial list asks for two steps, the second one from 12 items on. */
  lemma InitAsks(next: seq<Ptr>, m: Cells, size: nat, seed: s16, list: Ptr, s: seq<nat>, step: nat)
    requires size >= 4 && Initialized(next, m, size, seed, list, s)
    ensures AsksFor(m, s, step) <==> step == FirstStep(seed) || (size >= 12 && step == SecondStep(seed))
  {
    hide *;
    NodeSteps(next, m, size, seed, list, s);
    if AsksFor(m, s, step) {
      NodesInRange(size, s);
      var x := Asking(m, s, step);
      ItemSteps(seed, if x >= 2 then x - 2 else 0);
    }
    if step == FirstStep(seed) {
      ItemAsks(m, size, seed, s, 0);
    }
    if size >= 12 && step == SecondStep(seed) {
      ItemAsks(m, size, seed, s, 8);
    }
  }

  lemma ItemAsks(m: Cells, size: nat, seed: s16, s: seq<nat>, i: nat)
    requires size >= i + 4 && i % 8 == 0 && multiset(s) == multiset(Built(size - 1))
    requires m.HasCell(i + 2) && StepsOf(m.Data(i + 2)) == StepsOf(ItemData(seed, i))
    ensures AsksFor(m, s, if i % 16 == 0 then FirstStep(seed) else SecondStep(seed))
  {
    hide *;
    InOrder(size, s, i + 2);
    ItemSteps(seed, i);
    Asks(m, s, if i % 16 == 0 then FirstStep(seed) else SecondStep(seed), i + 2);
  }

  lemma Asking(m: Cells, s: seq<nat>, step: nat) returns (x: nat)
    requires AsksFor(m, s, step)
    ensures x in s && m.HasCell(x) && step in StepsOf(m.Data(x))
    ensures exists k :: 0 <= k < |s| && s[k] == x
  {
    hide StepsOf;
    x :| x in s && m.HasCell(x) && step in StepsOf(m.Data(x));
  }

  lemma Asks(m: Cells, s: seq<nat>, step: nat, x: nat)
    requires x in s && m.HasCell(x) && step in StepsOf(m.Data(x))
    ensures AsksFor(m, s, step)
  {
    hide StepsOf;
  }

  lemma NodeSteps(next: seq<Ptr>, m: Cells, size: nat, seed: s16, list: Ptr, s: seq<nat>)
    requires size >= 4 && Initialized(next, m, size, seed, list, s)
    ensures multiset(s) == multiset(Built(size - 1))
    ensures forall x :: 0 <= x < size - 1 ==>
      m.HasCell(x) && StepsOf(m.Data(x)) == if x < 2 then [] else StepsOf(ItemData(seed, x - 2))
  {
    hide IsList, StablySorted, ItemData, IndexOf;
    assert Cached(0x8080) && Cached(0xffff);
    forall x | 0 <= x < size - 1
      ensures m.HasCell(x) && StepsOf(m.Data(x)) == if x < 2 then [] else StepsOf(ItemData(seed, x - 2))
    {
      assert m.HasCell(x) && m.info[x] == x && m.Data(x) == NodeData(seed, x);
    }
  }

  /** Both steps give the initial text back. */
  ghost predicate TextReturns(size: u32, seed: s16)
    requires size >= 1
  {
    var text, x := InitText(size, seed), seed % 0x100;
    && Restored(text, x, x, FirstStep(seed))
    && (BlockItems(size) >= 12 ==> Restored(text, x, x, SecondStep(seed)))
  }

  /** With seed 44 for text and masks the terminator of a block of 205 bytes, where the step
      204 comes to, is turned into a comma and stays one: a run does not give the text back. */
  lemma TextNotBack()
    ensures BlockItems(205) >= 4 && FirstStep(44) == 204 && !TextReturns(205, 44)
  {
    hide InitText, Restored;
    assert FirstStep(44) == 204;
    hide FirstStep, SecondStep;
    LastNulTurned(205, 44);
  }

  lemma LastNulTurned(size: nat, seed: s16)
    requires size >= 2 && seed % 0x100 == 44
    ensures !Restored(InitText(size, seed), 44, 44, size - 1)
  {
    XorSelf(44);
    hide InitText, Restored, Xor;
    assert Sampled(size - 1, size - 1, size - 1);
    TurnedStays(InitText(size, seed), 44, size - 1, size - 1);
  }

  // --------------------------------------------------------------- the standard runs

  /** The text of this size and seed survives corruption and undo with every step the list
      benchmark can choose; `StateBench.RestoredIff` says what that means byte by byte. */
  ghost predicate Reversible(size: nat, seed1: s16, seed2: s16)
    requires size >= 1
  {
    forall step :: IsStep(step) ==> Restored(InitText(size, seed1), seed1 % 0x100, seed2 % 0x100, step)
  }

  lemma ReversibleRestores(env: Env, m: Cells, s: seq<nat>, size: nat, seed1: s16, seed2: s16)
    requires size >= 1 && Reversible(size, seed1, seed2) && env.mask1 == seed1 % 0x100 && env.mask2 == seed2 % 0x100
    ensures StepsRestore(env, m, s, InitText(size, seed1))
  {
    hide Restored, AsksFor, InitText;
  }

  /** The seeds of the performance, the validation and the profile run qualify: the text in
      blocks of any size, the list with up to 322 items, for the profile run up to 39. */
  lemma StandardRuns(size: nat, seed: s16)
    requires seed == 0 || seed == 0x3415 || seed == 8
    ensures size >= 1 ==> Reversible(size, seed, seed)
    ensures 3 <= size <= (if seed == 8 then 39 else 322) ==> DistinctIndexing(size, seed)
  {
    hide Xor, InAlphabet, InitText, Restored, NoClash, DistinctIndexing;
    StandardSeeds(seed);
    if size >= 1 {
      forall step | IsStep(step)
        ensures Restored(InitText(size, seed), seed % 0x100, seed % 0x100, step)
      {
        InitTextRestored(size, seed, seed % 0x100, step);
      }
    }
    if 3 <= size <= (if seed == 8 then 39 else 322) {
      DistinctIndices(size, seed);
      StandardClashFree(size, seed);
    }
  }

  lemma StandardClashFree(size: nat, seed: s16)
    requires 3 <= size <= 322 && (seed == 0 || seed == 0x3415 || (seed == 8 && size <= 39))
    ensures NoClash(size, seed)
  {
    hide Xor;
    if seed == 0x3415 {
      assert HighBits(seed) == 0x34;
    } else {
      assert LowSeed(seed) == seed && HighBits(seed) == 0;
      forall p | FirstMixed(size) <= p < size - 2 && Eighth(p) && p / 0x100 == 0
        ensures Xor(LowPlace(p), LowSeed(seed)) >= FirstMixed(size)
      {
        assert LowPlace(p) == p;
        if seed == 0 {
          XorZero(p);
        } else {
          XorEight(p);
        }
      }
    }
  }

  /** Toggling bit 3 leaves the three bits below it. */
  lemma XorEight(p: nat)
    requires p % 8 == 7
    ensures Xor(p, 8) >= 7
  {
    assert Pow2(3) == 8;
    var q := p / 8;
    hide Xor;
    assert Shift(q, 1) == 2 * q && Shift(q, 2) == 4 * q && Shift(q, 3) == 8 * q;
    assert Shift(1, 1) == 2 && Shift(1, 2) == 4 && Shift(1, 3) == 8;
    XorParts(7, q, 0, 1, 3);
    XorZero(7);
  }

  // --------------------------------------------------------------- the whole program

  /** (ee_s32)seed1 | ((ee_s32)seed2 << 16) */
  function MatrixSeed(seed1: s16, seed2: s16): s32 {
    if seed1 < 0 then seed1 else ToS32(seed1 as int + seed2 as int * 0x1_0000)
  }

  /** The bits of the first seed, sign and all, and those of the second from bit 16 on. */
  lemma MatrixSeedBits(seed1: s16, seed2: s16, k: nat)
    requires k < 32
    ensures Bit(MatrixSeed(seed1, seed2), k) == 1 <==>
      Bit(seed1, k) == 1 || (k >= 16 && Bit(seed2, k - 16) == 1)
  {
    SeedHalves(seed1, seed2);
    assert Pow2(16) == 0x1_0000 by { Pow2Values(); }
    hide *;
    var x := MatrixSeed(seed1, seed2);
    if k < 16 {
      BitMod(x, 16, k);
      BitMod(seed1, 16, k);
    } else {
      BitShift(x, 16, k - 16);
      BitShift(seed1, 16, k - 16);
      EqualBits(k - 16);
    }
  }

  lemma SeedHalves(seed1: s16, seed2: s16)
    ensures var x := MatrixSeed(seed1, seed2);
      && x % 0x1_0000 == seed1 % 0x1_0000 && seed1 / 0x1_0000 == (if seed1 < 0 then -1 else 0)
      && x / 0x1_0000 == if seed1 < 0 then -1 else seed2
  {
  }

  lemma {:induction false} EqualBits(k: nat)
    ensures Bit(0, k) == 0 && Bit(-1, k) == 1
  {
    BitHalve(0, k);
    BitHalve(-1, k);
    hide Bit;
    if k > 0 {
      EqualBits(k - 1);
    }
  }

  /** Masks and matrices as the set-up leaves them. */
  ghost predicate Prepared(env: Env, size: nat, seed1: s16, seed2: s16) {
    && env.mask1 == seed1 % 0x100 && env.mask2 == seed2 % 0x100
    && Needed(env.n) < size && (forall k: nat :: Needed(k) < size ==> k <= env.n)
    && Square(env.a, env.n) && Square(env.b, env.n)
    && forall i, j :: 0 <= i < env.n && 0 <= j < env.n ==>
         env.a[i][j] == EntryA(MatrixSeed(seed1, seed2), Order(env.n, i, j))
         && env.b[i][j] == EntryB(MatrixSeed(seed1, seed2), Order(env.n, i, j))
  }

  /** Whatever the seeds, the benchmarks can be run on what the set-up makes. */
  lemma PreparedReady(env: Env, size: nat, seed1: s16, seed2: s16, b: Bench)
    requires size >= 2 && Prepared(env, size, seed1, seed2) && b.text == InitText(size, seed1)
    ensures env.Ready() && TextSafe(env, b) && env.mask1 == seed1 % 0x100 && env.mask2 == seed2 % 0x100
  {
    hide InitText, EntryA, EntryB, Needed, Order, StaysScannable;
    forall i, j | 0 <= i < env.n && 0 <= j < env.n
      ensures -0x8000 <= env.a[i][j] <= 0x7fff
    {
      EntryRanges(MatrixSeed(seed1, seed2), Order(env.n, i, j));
    }
    InitTextStaysScannable(size, seed1, env.mask1, env.mask2);
  }

  method SetUpMatrices(size: u32, seed: s32) returns (n: nat, a: array2<int>, b: array2<int>, c: array2<int>)
    requires 1 <= size <= 8 * MAX_DIM * MAX_DIM
    ensures a.Length0 == a.Length1 == b.Length0 == b.Length1 == c.Length0 == c.Length1 == n
    ensures a != b && a != c && b != c && fresh(a) && fresh(b) && fresh(c)
    ensures Needed(n) < size && forall k: nat :: Needed(k) < size ==> k <= n
    ensures forall i, j :: 0 <= i < n && 0 <= j < n ==>
      a[i, j] == EntryA(seed, Order(n, i, j)) && b[i, j] == EntryB(seed, Order(n, i, j))
  {
    n := ChooseDimension(size);
    a, b, c := new int[n, n], new int[n, n], new int[n, n];
    FillMatrices(n, seed, a, b);
  }

  /** The arguments stand in the result record. */
  predicate Holds(res: Results, seed1: s16, seed2: s16, seed3: s16, iterations: u32) {
    res.seed1 == seed1 && res.seed2 == seed2 && res.seed3 == seed3 && res.iterations == iterations
  }

  /** The set-up of `main` when all three algorithms run, with `size` bytes for each. */
  method SetUp(size: u32, seed1: s16, seed2: s16, seed3: s16, iterations: u32)
    returns (mem: Memory, res: Results, ghost s: seq<nat>)
    requires 3 <= BlockItems(size) && size <= 8 * MAX_DIM * MAX_DIM
    ensures Initialized(mem.next, mem.View(), BlockItems(size), seed1, res.list, s)
    ensures size >= 2 && res.Shaped() && Prepared(res.EnvOf(), size, seed1, seed2)
      && res.state[..] == InitText(size, seed1)
    ensures Holds(res, seed1, seed2, seed3, iterations)
    ensures fresh(mem) && fresh(Repr(res)) && mem !in Repr(res)
  {
    hide InitText, Initialized, EntryA, EntryB, Order, Needed, MatrixSeed;
    SizeEnough(size);
    mem := new Memory(size / 20 - 2, size / 20 - 2);
    var list;
    list, s := CoreListInit(mem, size, seed1, Env(0, 0, 0, [], [], 0));
    var n, a, b, c := SetUpMatrices(size, MatrixSeed(seed1, seed2));
    var state := new u8[size];
    CoreInitState(size, seed1, state);
    res := new Results(seed1, seed2, seed3, iterations, state, n, a, b, c, list);
  }

  lemma SizeEnough(size: u32)
    requires 3 <= BlockItems(size)
    ensures size >= 2
  {
  }

  /** Sets everything up and runs the benchmark, in any block of at least four items, with
      any seeds and any number of iterations.  The cells are at the end what the set-up made
      them, the matrices too; list order, text and CRCs are those of that many rounds from the
      initial ones.  The links come back exactly if the order does, as it does without a
      repeated index; the text comes back, for equal masks and at least one iteration, exactly
      if the two steps the list asks for give it back. */
  method SetUpAndIterate(size: u32, seed1: s16, seed2: s16, seed3: s16, iterations: u32)
    returns (mem: Memory, res: Results, ghost s: seq<nat>, ghost next: seq<Ptr>, ghost m: Cells)
    requires 4 <= BlockItems(size) && size <= 8 * MAX_DIM * MAX_DIM
    ensures size >= 2 && res.Shaped() && Prepared(res.EnvOf(), size, seed1, seed2)
    ensures Holds(res, seed1, seed2, seed3, iterations)
    ensures Initialized(next, m, BlockItems(size), seed1, res.list, s) && mem.View() == m
    ensures RunReady(res.EnvOf(), m, Run(s, Bench(InitText(size, seed1), 0, 0, 0, 0)))
    ensures var r := RoundsAfter(res.EnvOf(), m, seed3, Run(s, Bench(InitText(size, seed1), 0, 0, 0, 0)), iterations);
      && BenchOf(res) == r.bench && IsList(mem.next, res.list, r.s) && SameOutside(s, next, mem.next)
      && (mem.next == next <==> r.s == s)
    ensures DistinctIndexing(BlockItems(size), seed1) ==> mem.next == next
    ensures Reversible(size, seed1, seed2) ==> res.state[..] == InitText(size, seed1)
    ensures seed1 % 0x100 == seed2 % 0x100 && iterations > 0 ==>
      (res.state[..] == InitText(size, seed1) <==> TextReturns(size, seed1))
  {
    hide *;
    SizeEnough(size);
    mem, res, s := SetUp(size, seed1, seed2, seed3, iterations);
    HoldsArguments(res, seed1, seed2, seed3, iterations);
    next, m := mem.next, mem.View();
    ghost var env, r := res.EnvOf(), Run(s, Bench(InitText(size, seed1), 0, 0, 0, 0));
    ViewIs(mem);
    ServesIs(res, env);
    PreparedReady(env, size, seed1, seed2, BenchOf(res));
    ListReady(next, m, BlockItems(size), seed1, res.list, s);
    ghost var list := res.list;
    Iterate(mem, res, s);
    ViewIs(mem);
    ServesIs(res, env);
    EnvHead(res, env, list);
    HoldsArguments(res, seed1, seed2, seed3, iterations);
    if DistinctIndexing(BlockItems(size), seed1) {
      CanonicalIff(next, m, BlockItems(size), seed1, list, s);
    }
    TextOfRun(env, next, m, size, seed1, seed2, seed3, list, s, iterations);
  }

  lemma EnvHead(res: Results, env: Env, list: Ptr)
    requires res.Shaped() && res.EnvOf() == env
    ensures res.list == env.list
  {
  }

  /** What the run does to the initial text. */
  lemma TextOfRun(env: Env, next: seq<Ptr>, m: Cells, size: u32, seed1: s16, seed2: s16, findNum: s16, list: Ptr,
                  s: seq<nat>, k: nat)
    requires size >= 1 && BlockItems(size) >= 4 && Initialized(next, m, BlockItems(size), seed1, list, s)
    requires env.mask1 == seed1 % 0x100 && env.mask2 == seed2 % 0x100
    requires RunReady(env, m, Run(s, Bench(InitText(size, seed1), 0, 0, 0, 0)))
    ensures var text := RoundsAfter(env, m, findNum, Run(s, Bench(InitText(size, seed1), 0, 0, 0, 0)), k).bench.text;
      && (Reversible(size, seed1, seed2) ==> text == InitText(size, seed1))
      && (seed1 % 0x100 == seed2 % 0x100 && k > 0 ==> (text == InitText(size, seed1) <==> TextReturns(size, seed1)))
  {
    hide *;
    var r := Run(s, Bench(InitText(size, seed1), 0, 0, 0, 0));
    if Reversible(size, seed1, seed2) {
      ReversibleRestores(env, m, s, size, seed1, seed2);
      StepsKeepText(env, m, findNum, r, k);
    }
    if seed1 % 0x100 == seed2 % 0x100 && k > 0 {
      EqualMasksBack(env, m, findNum, r, k);
      forall step
        ensures AsksFor(m, s, step) <==>
          step == FirstStep(seed1) || (BlockItems(size) >= 12 && step == SecondStep(seed1))
      {
        InitAsks(next, m, BlockItems(size), seed1, list, s, step);
      }
      TwoSteps(env, m, s, size, seed1);
    }
  }

  lemma TwoSteps(env: Env, m: Cells, s: seq<nat>, size: u32, seed: s16)
    requires size >= 1 && env.mask1 == env.mask2 == seed % 0x100
    requires forall step :: AsksFor(m, s, step) <==>
      step == FirstStep(seed) || (BlockItems(size) >= 12 && step == SecondStep(seed))
    ensures StepsRestore(env, m, s, InitText(size, seed)) <==> TextReturns(size, seed)
  {
    hide AsksFor, Restored, InitText, FirstStep, SecondStep, BlockItems;
    assert AsksFor(m, s, FirstStep(seed)) && IsStep(FirstStep(seed));
    assert BlockItems(size) >= 12 ==> AsksFor(m, s, SecondStep(seed)) && IsStep(SecondStep(seed));
  }

  lemma HoldsArguments(res: Results, seed1: s16, seed2: s16, seed3: s16, iterations: u32)
    ensures Holds(res, seed1, seed2, seed3, iterations)
      <==> res.seed1 == seed1 && res.seed2 == seed2 && res.seed3 == seed3 && res.iterations == iterations
  {
  }
}
