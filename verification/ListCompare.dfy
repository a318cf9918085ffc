/** The result record of the benchmark, `calc_func` and the two comparison functions. */
module ListCompare {
  import opened MachineInts
  import opened Crc
  import opened StateBench
  import opened Matrix
  import opened ListMemory

  /** What the benchmarks read and leave as it is: the seeds as bytes, the matrices A and
      B, and the list head. */
  datatype Env = Env(mask1: u8, mask2: u8, n: nat, a: Rows, b: Rows, list: Ptr) {
    /** A holds 16-bit values. */
    ghost predicate Ready() {
      Square(a, n) && Square(b, n) && Bounded(a, n, -0x8000, 0x7fff)
    }
  }

  /** What the benchmarks change: the state text and the CRCs of the result record. */
  datatype Bench = Bench(text: seq<u8>, crc: u16, crclist: u16, crcmatrix: u16, crcstate: u16)

  /** `core_results` */
  class Results {
    const seed1: s16
    const seed2: s16
    const seed3: s16
    const iterations: u32
    const state: array<u8>
    const n: nat
    const a: array2<int>
    const b: array2<int>
    const c: array2<int>
    var list: Ptr
    var crc: u16
    var crclist: u16
    var crcmatrix: u16
    var crcstate: u16

    constructor (seed1: s16, seed2: s16, seed3: s16, iterations: u32, state: array<u8>, n: nat,
                 a: array2<int>, b: array2<int>, c: array2<int>, list: Ptr)
      ensures this.seed1 == seed1 && this.seed2 == seed2 && this.seed3 == seed3 && this.iterations == iterations
      ensures this.state == state && this.n == n && this.a == a && this.b == b && this.c == c && this.list == list
    {
      this.seed1, this.seed2, this.seed3, this.iterations := seed1, seed2, seed3, iterations;
      this.state, this.n, this.a, this.b, this.c, this.list := state, n, a, b, c, list;
      crc, crclist, crcmatrix, crcstate := 0, 0, 0, 0;
    }

    /** The three matrices are n x n and apart. */
    predicate Shaped() {
      && a.Length0 == a.Length1 == n && b.Length0 == b.Length1 == n && c.Length0 == c.Length1 == n
      && a != b && a != c && b != c
    }

    ghost function EnvOf(): Env
      requires Shaped()
      reads this, a, b
    {
      Env(seed1 % 0x100, seed2 % 0x100, n, RowsOf(a), RowsOf(b), list)
    }
  }

  /** What a comparison may write through the result record. */
  ghost function Repr(res: Results?): set<object> {
    if res == null then {} else {res, res.state, res.a, res.c}
  }

  ghost function BenchOf(res: Results?): Bench
    reads if res == null then {} else {res, res.state}
  {
    if res == null then Bench([], 0, 0, 0, 0)
    else Bench(res.state[..], res.crc, res.crclist, res.crcmatrix, res.crcstate)
  }

  /** No scan of the text leaves it, now or after any further benchmarks. */
  ghost predicate TextSafe(env: Env, b: Bench) {
    StaysScannable(b.text, env.mask1, env.mask2)
  }

  /** The result record, if there is one, belongs to `env` and can be used. */
  ghost predicate Serves(cmp: Cmp, res: Results?, env: Env)
    reads if res == null then {} else {res, res.state, res.a, res.b}
  {
    && (cmp == CmpComplex ==> res != null)
    && (res != null ==> res.Shaped() && res.EnvOf() == env && env.Ready() && TextSafe(env, BenchOf(res)))
  }

  // ------------------------------------------------------------------ calc_func

  /** bits 3-6, replicated to 8 bits */
  function Dtype(d: u16): u8 {
    d / 8 % 16 * 17
  }

  /** The corruption step: at least 0x22. */
  function StepOf(d: u16): (step: nat)
    ensures IsStep(step)
  {
    if Dtype(d) < 0x22 then 0x22 else Dtype(d)
  }

  /** The step has bits 3 to 6 of the data word in both its halves, or is 0x22 where that would be
      less. */
  lemma StepBits(d: u16, k: nat)
    requires k < 4
    ensures Bit(Dtype(d), k) == Bit(d, 3 + k) && Bit(Dtype(d), 4 + k) == Bit(d, 3 + k)
    ensures StepOf(d) == Dtype(d) >= 0x22 || Dtype(d) < 0x22 == StepOf(d)
  {
    var p := d / 8 % 16;
    StepNibbles(d, p);
    hide *;
    BitShift(d, 3, k);
    BitMod(d / 8, 4, k);
    BitMod(Dtype(d), 4, k);
    BitShift(Dtype(d), 4, k);
  }

  lemma StepNibbles(d: u16, p: nat)
    requires p == d / 8 % 16
    ensures Dtype(d) % 16 == p && Dtype(d) / 16 == p && Pow2(3) == 8 && Pow2(4) == 16
    ensures StepOf(d) == Dtype(d) >= 0x22 || Dtype(d) < 0x22 == StepOf(d)
  {
    assert Pow2(3) == 8;
    assert Dtype(d) == 16 * p + p;
  }

  /** The result of the operation a data word asks for, before it is cut to 7 bits. */
  ghost function OpResult(env: Env, b: Bench, d: u16): u16
    requires env.Ready() && TextSafe(env, b)
  {
    StaysScannableNext(b.text, env.mask1, env.mask2, StepOf(d));
    if d % 8 == 0 then StateCrc(b.text, env.mask1, StepOf(d), b.crc)
    else if d % 8 == 1 then BenchCrc(env.a, env.b, env.n, Dtype(d), b.crc)
    else d
  }

  /** What the operation leaves: the swept text, its result folded into the CRC, and the
      first state or matrix result on record. */
  ghost function Operated(env: Env, b: Bench, d: u16): (b': Bench)
    requires env.Ready() && TextSafe(env, b)
    ensures TextSafe(env, b') && |b'.text| == |b.text| && b'.crclist == b.crclist
  {
    var v := OpResult(env, b, d);
    StaysScannableNext(b.text, env.mask1, env.mask2, StepOf(d));
    Bench(if d % 8 == 0 then Swept(b.text, env.mask1, env.mask2, StepOf(d)) else b.text,
          CrcOf(Bytes16(v), b.crc),
          b.crclist,
          if d % 8 == 1 && b.crcmatrix == 0 then v else b.crcmatrix,
          if d % 8 == 0 && b.crcstate == 0 then v else b.crcstate)
  }

  /** The data words of all cells, and what the benchmarks change. */
  datatype Machine = Machine(data16: seq<u16>, bench: Bench)

  /** The operations can be carried out, now and later. */
  ghost predicate Able(env: Env, cmp: Cmp, m: Machine) {
    cmp == CmpComplex ==> env.Ready() && TextSafe(env, m.bench)
  }

  /** What a comparison function does to one of its two cells: `cmp_complex` computes and
      caches its value, unless it has one; `cmp_idx` without a record rebuilds the data. */
  ghost function Touch(env: Env, cmp: Cmp, hasRes: bool, m: Machine, cell: nat): (m': Machine)
    requires Able(env, cmp, m) && cell < |m.data16|
    ensures Able(env, cmp, m') && |m'.data16| == |m.data16|
  {
    var d := m.data16[cell];
    match cmp
    case CmpComplex =>
      if Cached(d) then m
      else Machine(m.data16[cell := Cache(d, OpResult(env, m.bench, d))], Operated(env, m.bench, d))
    case CmpIdx =>
      if hasRes then m else m.(data16 := m.data16[cell := Regen(d)])
  }

  /** A touched cell is settled, and touching a settled cell does nothing. */
  lemma TouchSettles(env: Env, cmp: Cmp, hasRes: bool, m: Machine, cell: nat)
    requires Able(env, cmp, m) && cell < |m.data16|
    ensures var d := Touch(env, cmp, hasRes, m, cell).data16;
      && Settled(cmp, hasRes, d[cell]) && AllEvolved(cmp, hasRes, m.data16, d)
      && forall c :: 0 <= c < |d| && c != cell ==> d[c] == m.data16[c]
    ensures Settled(cmp, hasRes, m.data16[cell]) ==> Touch(env, cmp, hasRes, m, cell) == m
  {
    hide OpResult, Operated;
    var d := m.data16[cell];
    if cmp == CmpComplex && !Cached(d) {
      CacheEvolves(d, OpResult(env, m.bench, d));
    }
    if cmp == CmpIdx && !hasRes {
      RegenEvolves(d);
      assert Settled(cmp, hasRes, d) ==> m.data16[cell := Regen(d)] == m.data16;
    }
  }

  lemma CacheEvolves(d: u16, v: u16)
    requires !Cached(d)
    ensures Evolved(CmpComplex, true, d, Cache(d, v)) && Evolved(CmpComplex, false, d, Cache(d, v))
  {
  }

  lemma RegenEvolves(d: u16)
    ensures Evolved(CmpIdx, false, d, Regen(d)) && Settled(CmpIdx, false, Regen(d))
    ensures Settled(CmpIdx, false, d) ==> Regen(d) == d
  {
  }

  // ------------------------------------------------------- the CRC goes through

  /** The bytes that a benchmark operation folds into the running CRC: the image of both count
      tables, or the CRC of the matrix test. */
  ghost function OpMessage(env: Env, b: Bench, d: u16): (msg: seq<u8>)
    requires env.Ready() && TextSafe(env, b) && d % 8 < 2
    ensures |msg| == if d % 8 == 0 then 64 else 2
  {
    StaysScannableNext(b.text, env.mask1, env.mask2, StepOf(d));
    if d % 8 == 0 then TallyImage(BothScans(b.text, env.mask1, StepOf(d)))
    else Bytes16(TestCrc(env.a, env.b, env.n, Dtype(d)))
  }

  /** The result of a benchmark operation is the CRC of that message, started from the running
      CRC. */
  lemma OpIsCrc(env: Env, b: Bench, d: u16, c: u16)
    requires env.Ready() && TextSafe(env, b) && d % 8 < 2
    ensures OpResult(env, b.(crc := c), d) == CrcOf(OpMessage(env, b, d), c)
  {
    StaysScannableNext(b.text, env.mask1, env.mask2, StepOf(d));
    if d % 8 == 0 {
      StateCrcMeans(b.text, env.mask1, StepOf(d), c);
    }
    hide CrcOf, TestCrc, TallyImage, BothScans, StateCrc, StaysScannable, Scannable, Square, Bounded, StepOf,
      BothCounted;
  }

  /** So from different running CRCs it gives different results. */
  lemma ResultFollowsCrc(env: Env, b: Bench, d: u16, c1: u16, c2: u16)
    requires env.Ready() && TextSafe(env, b) && d % 8 < 2
    ensures OpResult(env, b.(crc := c1), d) == OpResult(env, b.(crc := c2), d) <==> c1 == c2
  {
    hide *;
    WithCrc(env, b, c1);
    WithCrc(env, b, c2);
    OpIsCrc(env, b, d, c1);
    OpIsCrc(env, b, d, c2);
    CrcBijective(OpMessage(env, b, d), c1, c2);
  }

  lemma WithCrc(env: Env, b: Bench, c: u16)
    requires TextSafe(env, b)
    ensures TextSafe(env, b.(crc := c))
  {
    hide StaysScannable;
  }

  /** The running CRCs after an operation are equal exactly if they were equal before or, behind
      a benchmark, differed by 0xc001, whatever the text and the matrices.  A first state or
      matrix CRC on record always tells them apart. */
  lemma CrcChained(env: Env, b: Bench, d: u16, c1: u16, c2: u16)
    requires env.Ready() && TextSafe(env, b)
    ensures TextSafe(env, b.(crc := c1)) && TextSafe(env, b.(crc := c2))
    ensures var b1, b2 := Operated(env, b.(crc := c1), d), Operated(env, b.(crc := c2), d);
      && (b1.crc == b2.crc <==> c1 == c2 || (d % 8 < 2 && Xor(c1, c2) == 0xc001))
      && (d % 8 == 0 && b.crcstate == 0 ==> (b1.crcstate == b2.crcstate <==> c1 == c2))
      && (d % 8 == 1 && b.crcmatrix == 0 ==> (b1.crcmatrix == b2.crcmatrix <==> c1 == c2))
  {
    hide *;
    WithCrc(env, b, c1);
    WithCrc(env, b, c2);
    OperatedCrcs(env, b.(crc := c1), d);
    OperatedCrcs(env, b.(crc := c2), d);
    if d % 8 < 2 {
      ResultFollowsCrc(env, b, d, c1, c2);
      OpIsCrc(env, b, d, c1);
      OpIsCrc(env, b, d, c2);
      MessagePower(env, b, d);
      FoldCollides(OpMessage(env, b, d), if d % 8 == 0 then 9 else 4, c1, c2);
    } else {
      CrcBijective(Bytes16(d), c1, c2);
    }
  }

  /** For example 0 and 0xc001. */
  lemma DifferenceLost(env: Env, b: Bench, d: u16)
    requires env.Ready() && TextSafe(env, b) && d % 8 < 2
    ensures TextSafe(env, b.(crc := 0)) && TextSafe(env, b.(crc := 0xc001))
    ensures Operated(env, b.(crc := 0), d).crc == Operated(env, b.(crc := 0xc001), d).crc
  {
    hide *;
    CrcChained(env, b, d, 0, 0xc001);
    XorZero(0xc001);
  }

  lemma OperatedCrcs(env: Env, b: Bench, d: u16)
    requires env.Ready() && TextSafe(env, b)
    ensures var b1, v := Operated(env, b, d), OpResult(env, b, d);
      && b1.crc == CrcOf(Bytes16(v), b.crc) && (d % 8 >= 2 ==> v == d)
      && (d % 8 == 0 && b.crcstate == 0 ==> b1.crcstate == v)
      && (d % 8 == 1 && b.crcmatrix == 0 ==> b1.crcmatrix == v)
  {
    hide CrcOf, Bytes16, StateCrc, BenchCrc, StaysScannable, Swept;
  }

  lemma MessagePower(env: Env, b: Bench, d: u16)
    requires env.Ready() && TextSafe(env, b) && d % 8 < 2
    ensures 8 * |OpMessage(env, b, d)| == Pow2(if d % 8 == 0 then 9 else 4)
  {
    hide OpMessage;
    Pow2Values();
    assert Pow2(9) == 2 * Pow2(8);
  }

  /** Touching an uncached cell of the benchmarks: what it caches and what it leaves follow the
      running CRC in the same way. */
  lemma TouchFollowsCrc(env: Env, hasRes: bool, m: Machine, cell: nat, c1: u16, c2: u16)
    requires Able(env, CmpComplex, m) && cell < |m.data16| && !Cached(m.data16[cell])
    ensures Able(env, CmpComplex, m.(bench := m.bench.(crc := c1)))
      && Able(env, CmpComplex, m.(bench := m.bench.(crc := c2)))
    ensures var d, b := m.data16[cell], m.bench;
      var t1 := Touch(env, CmpComplex, hasRes, m.(bench := b.(crc := c1)), cell).bench;
      var t2 := Touch(env, CmpComplex, hasRes, m.(bench := b.(crc := c2)), cell).bench;
      && (t1.crc == t2.crc <==> c1 == c2 || (d % 8 < 2 && Xor(c1, c2) == 0xc001))
      && (d % 8 == 0 && b.crcstate == 0 ==> (t1.crcstate == t2.crcstate <==> c1 == c2))
      && (d % 8 == 1 && b.crcmatrix == 0 ==> (t1.crcmatrix == t2.crcmatrix <==> c1 == c2))
  {
    CrcChained(env, m.bench, m.data16[cell], c1, c2);
    hide OpResult, Operated, Xor, Env.Ready, StaysScannable, Cached;
  }

  /** Returns the cell's 7-bit value: the cached one, or else the result of its
      operation, which is then cached and folded into the CRC. */
  method CalcFunc(mem: Memory, cell: nat, res: Results, ghost env: Env) returns (retval: u16)
    requires cell < |mem.data16| && Serves(CmpComplex, res, env)
    modifies mem`data16, Repr(res)
    ensures Serves(CmpComplex, res, env) && |mem.data16| == |old(mem.data16)|
    ensures var m := old(Machine(mem.data16, BenchOf(res)));
      && Machine(mem.data16, BenchOf(res)) == Touch(env, CmpComplex, true, m, cell)
      && retval == (if Cached(m.data16[cell]) then m.data16[cell] else OpResult(env, m.bench, m.data16[cell])) % 0x80
  {
    hide StateCrc, BenchCrc, CrcOf, Scannable, Swept, Bytes16, StaysScannable, Bounded, Square;
    var data := mem.data16[cell];
    var optype := data / 0x80 % 2;
    if optype == 1 {
      retval := data % 0x80;
      return;
    }
    ghost var b := BenchOf(res);
    var flag := data % 8;
    var dtype := data / 8 % 16;
    dtype := dtype + dtype * 16;
    StaysScannableNext(b.text, env.mask1, env.mask2, StepOf(data));
    if flag == 0 {
      if dtype < 0x22 {
        dtype := 0x22;
      }
      retval := CoreBenchState(res.state, res.seed1, res.seed2, dtype, res.crc);
      if res.crcstate == 0 {
        res.crcstate := retval;
      }
    } else if flag == 1 {
      retval := CoreBenchMatrix(res.n, res.c, res.a, res.b, dtype, res.crc);
      if res.crcmatrix == 0 {
        res.crcmatrix := retval;
      }
    } else {
      retval := data;
    }
    res.crc := CrcU16(retval, res.crc);
    mem.data16 := mem.data16[cell := Cache(data, retval)];
    retval := retval % 0x80;
  }

  // ---------------------------------------------------------------- comparisons

  /** What comparing two cells does: the first is touched before the second. */
  ghost function Compared(env: Env, cmp: Cmp, hasRes: bool, m: Machine, a: nat, b: nat): (m': Machine)
    requires Able(env, cmp, m) && a < |m.data16| && b < |m.data16|
    ensures Able(env, cmp, m') && |m'.data16| == |m.data16|
  {
    Touch(env, cmp, hasRes, Touch(env, cmp, hasRes, m, a), b)
  }

  lemma ComparedSettles(env: Env, cmp: Cmp, hasRes: bool, m: Machine, a: nat, b: nat)
    requires Able(env, cmp, m) && a < |m.data16| && b < |m.data16|
    ensures var d := Compared(env, cmp, hasRes, m, a, b).data16;
      && Settled(cmp, hasRes, d[a]) && Settled(cmp, hasRes, d[b]) && AllEvolved(cmp, hasRes, m.data16, d)
      && forall c :: 0 <= c < |d| && c != a && c != b ==> d[c] == m.data16[c]
  {
    hide Settled, Touch;
    var m1 := Touch(env, cmp, hasRes, m, a);
    var m2 := Touch(env, cmp, hasRes, m1, b);
    TouchSettles(env, cmp, hasRes, m, a);
    TouchSettles(env, cmp, hasRes, m1, b);
    AllEvolvedTrans(cmp, hasRes, m.data16, m1.data16, m2.data16);
    assert Evolved(cmp, hasRes, m1.data16[a], m2.data16[a]);
  }

  method CmpComplexData(mem: Memory, a: nat, b: nat, res: Results, ghost env: Env) returns (r: int)
    requires a < |mem.data16| && b < |mem.data16| && Serves(CmpComplex, res, env)
    modifies mem`data16, Repr(res)
    ensures Serves(CmpComplex, res, env) && |mem.data16| == |old(mem.data16)|
    ensures Machine(mem.data16, BenchOf(res))
      == Compared(env, CmpComplex, true, old(Machine(mem.data16, BenchOf(res))), a, b)
    ensures Cached(mem.data16[a]) && Cached(mem.data16[b])
    ensures r == (mem.data16[a] % 0x80) as int - (mem.data16[b] % 0x80) as int
  {
    hide OpResult, Operated, Env.Ready, StaysScannable;
    var val1: int := CalcFunc(mem, a, res, env);
    var val2: int := CalcFunc(mem, b, res, env);
    r := val1 - val2;
  }

  method CmpIdxData(mem: Memory, a: nat, b: nat, res: Results?, ghost env: Env) returns (r: int)
    requires a < |mem.data16| && b < |mem.data16| && |mem.idx| == |mem.data16|
    modifies mem`data16
    ensures |mem.data16| == |old(mem.data16)|
    ensures mem.data16 == Compared(env, CmpIdx, res != null, Machine(old(mem.data16), BenchOf(res)), a, b).data16
    ensures Compared(env, CmpIdx, res != null, Machine(old(mem.data16), BenchOf(res)), a, b).bench == BenchOf(res)
    ensures r == mem.idx[a] as int - mem.idx[b] as int
  {
    if res == null {
      mem.data16 := mem.data16[a := Regen(mem.data16[a])];
      mem.data16 := mem.data16[b := Regen(mem.data16[b])];
    }
    r := mem.idx[a] as int - mem.idx[b] as int;
  }

  /** The call through the function pointer. */
  method Compare(mem: Memory, cmp: Cmp, a: nat, b: nat, res: Results?, ghost env: Env) returns (r: int)
    requires a < |mem.data16| && b < |mem.data16| && |mem.idx| == |mem.data16| && Serves(cmp, res, env)
    modifies mem`data16, Repr(res)
    ensures Serves(cmp, res, env) && |mem.data16| == |old(mem.data16)|
    ensures Machine(mem.data16, BenchOf(res))
      == Compared(env, cmp, res != null, old(Machine(mem.data16, BenchOf(res))), a, b)
    ensures r <= 0 <==> KeyOf(cmp, mem.data16[a], mem.idx[a]) <= KeyOf(cmp, mem.data16[b], mem.idx[b])
  {
    hide Compared, Env.Ready, StaysScannable;
    match cmp {
      case CmpComplex => r := CmpComplexData(mem, a, b, res, env);
      case CmpIdx => r := CmpIdxData(mem, a, b, res, env);
    }
  }
}
