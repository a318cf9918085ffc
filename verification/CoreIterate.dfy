/** `iterate` of `core_main.c`: rounds of two list benchmarks, folded into the CRC. */
module CoreIterate {
  import opened MachineInts
  import opened Crc
  import opened StateBench
  import opened Matrix
  import opened ListOrder
  import opened ListMemory
  import opened ListCompare
  import opened ListTrace
  import opened ListSort
  import opened ListBench

  // -------------------------------------------------------------- what a run does

  /** The list as the record's head pointer sees it, and text and CRCs. */
  datatype Run = Run(s: seq<nat>, bench: Bench)

  /** The part of the list that begins with h.  `core_bench_list` may put a node of equal
      index in front of the head, and the record's pointer stays where it is. */
  function From(s: seq<nat>, h: nat): (t: seq<nat>)
    requires h in s
    ensures t != [] && t[0] == h && |t| <= |s|
  {
    RankIn(s, h);
    s[Rank(s, h)..]
  }

  /** The last two nodes lie above the head, so at least three are always seen from it. */
  predicate Roomy(m: Cells, s: seq<nat>) {
    |s| >= 3 && IndexAt(m, s[0]) < IndexAt(m, s[|s| - 2])
  }

  ghost predicate RunReady(env: Env, m: Cells, r: Run) {
    BenchReady(env, m, r.s, r.bench) && IndexSorted(m, r.s) && Roomy(m, r.s)
  }

  /** One list benchmark, its value folded into the CRC. */
  ghost function Turn(env: Env, m: Cells, findNum: s16, finderIdx: s16, r: Run): (r': Run)
    requires RunReady(env, m, r)
    ensures RunReady(env, m, r') && r'.s[0] == r.s[0]
  {
    var b1 := AfterSort(env, m, r.s, findNum, finderIdx, r.bench).bench;
    var v := BenchValue(env, m, r.s, findNum, finderIdx, r.bench);
    TurnReady(env, m, findNum, finderIdx, r);
    Run(From(BackOrder(env, m, r.s, findNum, finderIdx, r.bench), r.s[0]), b1.(crc := CrcOf(Bytes16(v), b1.crc)))
  }

  /** What one iteration does: both list benchmarks. */
  ghost function RoundAfter(env: Env, m: Cells, findNum: s16, r: Run): (r': Run)
    requires RunReady(env, m, r)
    ensures RunReady(env, m, r') && r'.s[0] == r.s[0]
  {
    Turn(env, m, findNum, -1, Turn(env, m, findNum, 1, r))
  }

  /** List, text and CRCs after k iterations; the first one's CRC is the list CRC. */
  ghost function RoundsAfter(env: Env, m: Cells, findNum: s16, r: Run, k: nat): (r': Run)
    requires RunReady(env, m, r)
    ensures RunReady(env, m, r') && r'.s[0] == r.s[0]
  {
    if k == 0 then r else
      var q := RoundAfter(env, m, findNum, RoundsAfter(env, m, findNum, r, k - 1));
      if k == 1 then q.(bench := q.bench.(crclist := q.bench.crc)) else q
  }

  // ------------------------------------------------------ the list behind the head

  /** Two nodes above a limit keep the last but one above it. */
  lemma TwoAbove(m: Cells, out: seq<nat>, x: nat, y: nat, limit: int)
    requires IndexSorted(m, out) && x in out && y in out && x != y
    requires IndexAt(m, x) > limit && IndexAt(m, y) > limit
    ensures |out| >= 2 && IndexAt(m, out[|out| - 2]) > limit
  {
    var i :| 0 <= i < |out| && out[i] == x;
    var j :| 0 <= j < |out| && out[j] == y;
    var k := if i < j then i else j;
    hide IndexAt;
    assert k < |out| - 2 ==> IndexAt(m, out[k]) <= IndexAt(m, out[|out| - 2]);
  }

  lemma BackSorted(m: Cells, s: seq<nat>, t: seq<nat>, out: seq<nat>)
    requires IndexSorted(m, s) && multiset(out) == multiset(s) && InOrderOf(m, CmpIdx, t, out) && m.Hold(out)
    ensures IndexSorted(m, out)
  {
    hide Rank;
    forall k | 0 <= k < |out|
      ensures Low(m.Data(out[k])) == High(m.Data(out[k]))
    {
      assert out[k] in multiset(s);
      var j :| 0 <= j < |s| && s[j] == out[k];
      assert Low(m.Data(s[j])) == High(m.Data(s[j]));
    }
    forall a, b | 0 <= a < b < |out|
      ensures IndexAt(m, out[a]) <= IndexAt(m, out[b])
    {
      assert Ordered(m, CmpIdx, t, out[a], out[b]);
    }
  }

  lemma NodesAbove(m: Cells, s: seq<nat>, out: seq<nat>)
    requires IndexSorted(m, s) && Roomy(m, s) && NoDup(s) && IndexSorted(m, out) && multiset(out) == multiset(s)
    ensures |out| >= 2 && IndexAt(m, out[|out| - 2]) > IndexAt(m, s[0])
  {
    var x, y := s[|s| - 2], s[|s| - 1];
    assert IndexAt(m, x) <= IndexAt(m, y);
    assert x in multiset(out) && y in multiset(out);
    hide IndexSorted;
    TwoAbove(m, out, x, y, IndexAt(m, s[0]));
  }

  lemma FromSorted(m: Cells, out: seq<nat>, h: nat)
    requires IndexSorted(m, out) && h in out && |out| >= 2 && IndexAt(m, out[|out| - 2]) > IndexAt(m, h)
    ensures IndexSorted(m, From(out, h)) && Roomy(m, From(out, h))
  {
    FromIs(out, h);
    FromHolds(m, out, h);
    hide From, Rank;
    var i := Rank(out, h);
    SuffixSorted(m, out, i);
    SuffixRoomy(m, out, i);
  }

  lemma SuffixSorted(m: Cells, out: seq<nat>, i: nat)
    requires IndexSorted(m, out) && i <= |out| && m.Hold(out[i..])
    ensures IndexSorted(m, out[i..])
  {
    var t := out[i..];
    hide Cells.Data;
    forall k | 0 <= k < |t|
      ensures Low(m.Data(t[k])) == High(m.Data(t[k]))
    {
      assert t[k] == out[i + k] && Low(m.Data(out[i + k])) == High(m.Data(out[i + k]));
    }
    forall a, b | 0 <= a < b < |t|
      ensures IndexAt(m, t[a]) <= IndexAt(m, t[b])
    {
      assert IndexAt(m, out[i + a]) <= IndexAt(m, out[i + b]);
    }
  }

  lemma SuffixRoomy(m: Cells, out: seq<nat>, i: nat)
    requires IndexSorted(m, out) && i < |out| && |out| >= 2 && IndexAt(m, out[|out| - 2]) > IndexAt(m, out[i])
    ensures Roomy(m, out[i..])
  {
    hide IndexAt, Cells.Data;
    assert i < |out| - 2;
    assert out[i..][|out| - 2 - i] == out[|out| - 2];
  }

  lemma FromIs(s: seq<nat>, h: nat)
    requires h in s
    ensures Rank(s, h) < |s| && s[Rank(s, h)] == h && From(s, h) == s[Rank(s, h)..]
  {
    RankIn(s, h);
  }

  lemma FromInside(s: seq<nat>, h: nat)
    requires h in s && NoDup(s)
    ensures NoDup(From(s, h)) && forall x :: x in From(s, h) ==> x in s
  {
    FromIs(s, h);
    hide From;
    var i, t := Rank(s, h), From(s, h);
    assert forall k :: 0 <= k < |t| ==> t[k] == s[i + k];
  }

  lemma FromHolds(m: Cells, s: seq<nat>, h: nat)
    requires h in s && m.Hold(s)
    ensures m.Hold(From(s, h))
  {
    FromIs(s, h);
    hide From;
    var i, t := Rank(s, h), From(s, h);
    assert forall k :: 0 <= k < |t| ==> t[k] == s[i + k];
  }

  /** What follows the head is the list the head pointer sees. */
  lemma FromList(next: seq<Ptr>, s: seq<nat>, h: nat)
    requires s != [] && h in s && IsList(next, s[0], s)
    ensures IsList(next, h, From(s, h))
  {
    FromIs(s, h);
    var i, t := Rank(s, h), From(s, h);
    hide From, Rank;
    forall k | 0 <= k < |t|
      ensures t[k] < |next| && next[t[k]] == PtrAt(t, k + 1)
    {
      assert next[s[i + k]] == PtrAt(s, i + k + 1);
    }
    assert forall k :: 0 <= k < |t| ==> t[k] == s[i + k];
  }

  lemma FromWhole(s: seq<nat>)
    requires s != []
    ensures From(s, s[0]) == s
  {
  }

  /** After a benchmark the next one can be run, on no nodes that are new. */
  lemma TurnReady(env: Env, m: Cells, findNum: s16, finderIdx: s16, r: Run)
    requires RunReady(env, m, r)
    ensures var out, t := BackOrder(env, m, r.s, findNum, finderIdx, r.bench),
      AfterSort(env, m, r.s, findNum, finderIdx, r.bench);
      && out != [] && r.s[0] in out && (forall x :: x in From(out, r.s[0]) ==> x in r.s)
      && forall crc :: RunReady(env, m, Run(From(out, r.s[0]), t.bench.(crc := crc)))
  {
    hide *;
    RunParts(env, m, r);
    var out, t := BackOrder(env, m, r.s, findNum, finderIdx, r.bench),
      AfterSort(env, m, r.s, findNum, finderIdx, r.bench);
    var s1 := SortOrder(env, m, r.s, findNum, finderIdx, r.bench);
    OrderHolds(m, m.data16, r.s, s1);
    BackOrderIs(env, m, r.s, findNum, finderIdx, r.bench);
    RanksGrow(s1);
    StableOrderOrdered(m, CmpIdx, s1, s1);
    BackSorted(m, r.s, s1, out);
    HeadInOrder(r.s, out);
    NodesAbove(m, r.s, out);
    FromSorted(m, out, r.s[0]);
    FromInside(out, r.s[0]);
    FromHolds(m, out, r.s[0]);
    SameNodes(r.s, out);
    AfterAble(env, m, r.s, findNum, finderIdx, r.bench);
    forall crc
      ensures RunReady(env, m, Run(From(out, r.s[0]), t.bench.(crc := crc)))
    {
      ReadyFrom(env, m, From(out, r.s[0]), t.bench.(crc := crc));
    }
  }

  lemma HeadInOrder(s: seq<nat>, out: seq<nat>)
    requires s != [] && multiset(out) == multiset(s)
    ensures s[0] in out && out != []
  {
    assert s[0] in multiset(out);
  }

  lemma RunParts(env: Env, m: Cells, r: Run)
    ensures RunReady(env, m, r) <==> BenchReady(env, m, r.s, r.bench) && IndexSorted(m, r.s) && Roomy(m, r.s)
    ensures BenchReady(env, m, r.s, r.bench) <==>
      |r.s| >= 3 && m.Hold(r.s) && NoDup(r.s) && Able(env, CmpComplex, Machine(m.data16, r.bench))
    ensures m.(data16 := m.data16) == m
  {
    hide NoDup, Able, Cells.Hold, IndexSorted, Roomy;
  }

  lemma AfterAble(env: Env, m: Cells, s: seq<nat>, findNum: s16, finderIdx: s16, b: Bench)
    requires BenchReady(env, m, s, b)
    ensures var t := AfterSort(env, m, s, findNum, finderIdx, b);
      forall crc :: Able(env, CmpComplex, Machine(m.data16, t.bench.(crc := crc)))
  {
    hide AfterSort, StaysScannable, Env.Ready, BenchReady;
  }

  lemma ReadyFrom(env: Env, m: Cells, s: seq<nat>, b: Bench)
    requires NoDup(s) && m.Hold(s) && IndexSorted(m, s) && Roomy(m, s) && Able(env, CmpComplex, Machine(m.data16, b))
    ensures RunReady(env, m, Run(s, b))
  {
    hide NoDup, Able, Cells.Hold, IndexSorted;
  }

  /** A node of the head's index can overtake it: one find with the index 0 does it, and the
      head pointer no longer sees the whole list. */
  lemma HeadOvertaken(env: Env, m: Cells, r: Run, c: nat)
    requires RunReady(env, m, r) && 0 < c < |r.s| && IndexAt(m, r.s[c]) == IndexAt(m, r.s[0])
    ensures |Turn(env, m, 1, 0, r).s| < |r.s|
  {
    hide *;
    RunParts(env, m, r);
    var s, t, out := r.s, SortOrder(env, m, r.s, 1, 0, r.bench), BackOrder(env, m, r.s, 1, 0, r.bench);
    OneFindReverses(env, m, s, r.bench, 0, c);
    OrderHolds(m, m.data16, s, t);
    BackOrderIs(env, m, s, 1, 0, r.bench);
    RanksGrow(t);
    StableOrderOrdered(m, CmpIdx, t, t);
    SameNodes(out, s);
    TurnIs(env, m, 1, 0, r);
    NotFirst(m, t, out, s[0], s[c]);
  }

  lemma NotFirst(m: Cells, t: seq<nat>, out: seq<nat>, x: nat, y: nat)
    requires InOrderOf(m, CmpIdx, t, out) && m.Hold(out) && x in out && y in out
    requires IndexAt(m, x) == IndexAt(m, y) && Rank(t, y) < Rank(t, x)
    ensures |From(out, x)| < |out|
  {
    FromIs(out, x);
    hide Rank, From;
    var i :| 0 <= i < |out| && out[i] == y;
    assert m.HasCell(x) && m.HasCell(y);
    assert 0 < i ==> Ordered(m, CmpIdx, t, out[0], out[i]);
  }

  // ---------------------------------------------------------------- the iterations

  /** The memory shows a run that began with the links n0 and the list s0. */
  ghost predicate AtRun(mem: Memory, res: Results, env: Env, m: Cells, n0: seq<Ptr>, s0: seq<nat>, r: Run)
    reads mem, res, res.state, res.a, res.b
  {
    && mem.View() == m && IsList(mem.next, res.list, r.s) && RunReady(env, m, r)
    && Serves(CmpComplex, res, env) && BenchOf(res) == r.bench
    && SameOutside(s0, n0, mem.next) && forall x :: x in r.s ==> x in s0
  }

  lemma AtRunParts(mem: Memory, res: Results, env: Env, m: Cells, n0: seq<Ptr>, s0: seq<nat>, r: Run)
    ensures AtRun(mem, res, env, m, n0, s0, r) <==>
      && mem.View() == m && IsList(mem.next, res.list, r.s) && RunReady(env, m, r)
      && Serves(CmpComplex, res, env) && BenchOf(res) == r.bench
      && SameOutside(s0, n0, mem.next) && forall x :: x in r.s ==> x in s0
  {
  }

  lemma SameOutsideMore(s: seq<nat>, s0: seq<nat>, a: seq<Ptr>, b: seq<Ptr>)
    requires SameOutside(s, a, b) && forall x :: x in s ==> x in s0
    ensures SameOutside(s0, a, b)
  {
  }

  /** One list benchmark and its fold. */
  method ListTurn(mem: Memory, res: Results, finderIdx: s16, ghost env: Env, ghost m: Cells, ghost n0: seq<Ptr>,
                  ghost s0: seq<nat>, ghost r: Run)
    requires AtRun(mem, res, env, m, n0, s0, r)
    modifies mem`next, mem`info, mem`data16, Repr(res)
    ensures RunReady(env, m, r) && AtRun(mem, res, env, m, n0, s0, Turn(env, m, res.seed3, finderIdx, r))
  {
    hide *;
    ReprApart(mem, res);
    ResOf(res);
    AtRunParts(mem, res, env, m, n0, s0, r);
    RunParts(env, m, r);
    HeadStays(res, env);
    ListHead(mem.next, res.list, r.s);
    ghost var n1 := mem.next;
    ViewIs(mem);
    var crc := CoreBenchList(mem, res, finderIdx, r.s, env);
    ViewIs(mem);
    FoldCrc(res, crc, env);
    HeadStays(res, env);
    ghost var out := BackOrder(env, m, r.s, res.seed3, finderIdx, r.bench);
    TurnReady(env, m, res.seed3, finderIdx, r);
    FromList(mem.next, out, r.s[0]);
    SameOutsideMore(r.s, s0, n1, mem.next);
    SameOutsideTrans(s0, n0, n1, mem.next);
    TurnIs(env, m, res.seed3, finderIdx, r);
    AtRunParts(mem, res, env, m, n0, s0, Turn(env, m, res.seed3, finderIdx, r));
  }

  lemma ListHead(next: seq<Ptr>, list: Ptr, s: seq<nat>)
    requires IsList(next, list, s) && s != []
    ensures list == s[0]
  {
  }

  lemma TurnIs(env: Env, m: Cells, findNum: s16, finderIdx: s16, r: Run)
    requires RunReady(env, m, r)
    ensures var b1 := AfterSort(env, m, r.s, findNum, finderIdx, r.bench).bench;
      var out, v := BackOrder(env, m, r.s, findNum, finderIdx, r.bench),
        BenchValue(env, m, r.s, findNum, finderIdx, r.bench);
      && r.s[0] in out && RunReady(env, m, Turn(env, m, findNum, finderIdx, r))
      && Turn(env, m, findNum, finderIdx, r) == Run(From(out, r.s[0]), b1.(crc := CrcOf(Bytes16(v), b1.crc)))
  {
    hide AfterSort, BenchValue, BackOrder, CrcOf, Bytes16, From, IndexSorted, BenchReady;
    TurnReady(env, m, findNum, finderIdx, r);
  }

  /** `res->crc = crcu16(crc, res->crc)` */
  method FoldCrc(res: Results, crc: u16, ghost env: Env)
    requires Serves(CmpComplex, res, env)
    modifies res`crc
    ensures Serves(CmpComplex, res, env)
    ensures BenchOf(res) == old(BenchOf(res)).(crc := CrcOf(Bytes16(crc), old(BenchOf(res)).crc))
  {
    hide StaysScannable, Env.Ready, CrcOf, Bytes16;
    res.crc := CrcU16(crc, res.crc);
  }

  lemma HeadStays(res: Results, env: Env)
    requires Serves(CmpComplex, res, env)
    ensures res.list == env.list && res.Shaped() && res.EnvOf() == env && env.Ready() && TextSafe(env, BenchOf(res))
  {
  }

  lemma ServesIs(res: Results, env: Env)
    requires res.Shaped()
    ensures Serves(CmpComplex, res, env) <==> res.EnvOf() == env && env.Ready() && TextSafe(env, BenchOf(res))
    ensures res.EnvOf() == Env(res.seed1 % 0x100, res.seed2 % 0x100, res.n, RowsOf(res.a), RowsOf(res.b), res.list)
    ensures BenchOf(res) == Bench(res.state[..], res.crc, res.crclist, res.crcmatrix, res.crcstate)
  {
  }

  lemma ResOf(res: Results)
    ensures res in Repr(res)
  {
  }

  /** One iteration: both list benchmarks, each folded into the CRC. */
  method IterateOnce(mem: Memory, res: Results, ghost env: Env, ghost m: Cells, ghost n0: seq<Ptr>, ghost s0: seq<nat>,
                     ghost r: Run)
    requires AtRun(mem, res, env, m, n0, s0, r)
    modifies mem`next, mem`info, mem`data16, Repr(res)
    ensures RunReady(env, m, r) && AtRun(mem, res, env, m, n0, s0, RoundAfter(env, m, res.seed3, r))
  {
    hide *;
    ReprApart(mem, res);
    ResOf(res);
    AtRunParts(mem, res, env, m, n0, s0, r);
    ListTurn(mem, res, 1, env, m, n0, s0, r);
    ghost var q := Turn(env, m, res.seed3, 1, r);
    ListTurn(mem, res, -1, env, m, n0, s0, q);
    RoundIs(env, m, res.seed3, r);
  }

  lemma RoundIs(env: Env, m: Cells, findNum: s16, r: Run)
    requires RunReady(env, m, r)
    ensures RunReady(env, m, Turn(env, m, findNum, 1, r))
    ensures RoundAfter(env, m, findNum, r) == Turn(env, m, findNum, -1, Turn(env, m, findNum, 1, r))
  {
    hide RunReady, Turn;
  }

  /** The body of the iteration loop. */
  method IterateStep(mem: Memory, res: Results, i: nat, ghost env: Env, ghost m: Cells, ghost n0: seq<Ptr>,
                     ghost s0: seq<nat>, ghost r: Run)
    requires RunReady(env, m, r) && AtRun(mem, res, env, m, n0, s0, RoundsAfter(env, m, res.seed3, r, i))
    modifies mem`next, mem`info, mem`data16, Repr(res)
    ensures RunReady(env, m, r) && AtRun(mem, res, env, m, n0, s0, RoundsAfter(env, m, res.seed3, r, i + 1))
  {
    hide *;
    ReprApart(mem, res);
    ResOf(res);
    ghost var q := RoundsAfter(env, m, res.seed3, r, i);
    IterateOnce(mem, res, env, m, n0, s0, q);
    ghost var u := RoundAfter(env, m, res.seed3, q);
    AtRunParts(mem, res, env, m, n0, s0, u);
    if i == 0 {
      RecordListCrc(res, env);
    }
    RoundsTurn(env, m, res.seed3, r, i);
    HeadStays(res, env);
    AtRunParts(mem, res, env, m, n0, s0, RoundsAfter(env, m, res.seed3, r, i + 1));
  }

  lemma RoundsTurn(env: Env, m: Cells, findNum: s16, r: Run, i: nat)
    requires RunReady(env, m, r)
    ensures RoundsAfter(env, m, findNum, r, 0) == r
    ensures var q := RoundAfter(env, m, findNum, RoundsAfter(env, m, findNum, r, i));
      && RunReady(env, m, RoundsAfter(env, m, findNum, r, i))
      && RunReady(env, m, RoundsAfter(env, m, findNum, r, i + 1))
      && RoundsAfter(env, m, findNum, r, i + 1) == if i == 0 then q.(bench := q.bench.(crclist := q.bench.crc)) else q
  {
    hide RunReady, RoundAfter;
  }

  method RecordListCrc(res: Results, ghost env: Env)
    requires Serves(CmpComplex, res, env)
    modifies res`crclist
    ensures Serves(CmpComplex, res, env) && BenchOf(res) == old(BenchOf(res)).(crclist := old(BenchOf(res)).crc)
  {
    hide StaysScannable, Env.Ready;
    res.crclist := res.crc;
  }

  method ResetCrcs(res: Results, ghost env: Env)
    requires Serves(CmpComplex, res, env)
    modifies res`crc, res`crclist, res`crcmatrix, res`crcstate
    ensures Serves(CmpComplex, res, env) && BenchOf(res) == Bench(res.state[..], 0, 0, 0, 0)
  {
    hide StaysScannable, Env.Ready;
    res.crc := 0;
    res.crclist := 0;
    res.crcmatrix := 0;
    res.crcstate := 0;
  }

  /** The benchmark run.  However many iterations there are and whatever the seeds, cell
      pointers, data words, matrices A and B and the list head are at the end what they were
      at the start; list order, text and all four CRCs are those of that many rounds, a
      function of what the run starts from.  No link outside the list changes, and the links
      are all the old ones exactly if the order is; in a list without repeated index it is. */
  method Iterate(mem: Memory, res: Results, ghost s: seq<nat>)
    requires IsList(mem.next, res.list, s) && IndexSorted(mem.View(), s) && Roomy(mem.View(), s)
    requires res.Shaped() && res.EnvOf().Ready() && TextSafe(res.EnvOf(), BenchOf(res))
    modifies mem`next, mem`info, mem`data16, Repr(res)
    ensures mem.info == old(mem.info) && mem.data16 == old(mem.data16)
    ensures res.EnvOf() == old(res.EnvOf()) && RunReady(res.EnvOf(), mem.View(),
      Run(s, Bench(old(res.state[..]), 0, 0, 0, 0)))
    ensures var r := RoundsAfter(res.EnvOf(), mem.View(), res.seed3, Run(s, Bench(old(res.state[..]), 0, 0, 0, 0)),
      res.iterations);
      && BenchOf(res) == r.bench && IsList(mem.next, res.list, r.s) && SameOutside(s, old(mem.next), mem.next)
      && (mem.next == old(mem.next) <==> r.s == s)
    ensures Canonical(mem.View(), s) ==> mem.next == old(mem.next)
  {
    hide *;
    ReprApart(mem, res);
    ResOf(res);
    ghost var m, n, l, env := mem.View(), mem.next, res.list, res.EnvOf();
    ghost var r := Run(s, Bench(res.state[..], 0, 0, 0, 0));
    ServesIs(res, env);
    ViewIs(mem);
    ResetCrcs(res, env);
    RunStart(mem, res, s, env, r);
    var i := 0;
    while i < res.iterations
      invariant 0 <= i <= res.iterations && RunReady(env, m, r)
      invariant AtRun(mem, res, env, m, n, s, RoundsAfter(env, m, res.seed3, r, i))
    {
      IterateStep(mem, res, i, env, m, n, s, r);
      i := i + 1;
    }
    ghost var q := RoundsAfter(env, m, res.seed3, r, i);
    ViewIs(mem);
    AtRunParts(mem, res, env, m, n, s, q);
    HeadStays(res, env);
    RunEnd(env, m, res.seed3, r, i, n, mem.next, l, res.list);
  }

  lemma RunStart(mem: Memory, res: Results, s: seq<nat>, env: Env, r: Run)
    requires IsList(mem.next, res.list, s) && IndexSorted(mem.View(), s) && Roomy(mem.View(), s)
    requires Serves(CmpComplex, res, env) && r == Run(s, BenchOf(res))
    ensures RunReady(env, mem.View(), r)
    ensures AtRun(mem, res, env, mem.View(), mem.next, s, RoundsAfter(env, mem.View(), res.seed3, r, 0))
  {
    hide *;
    RoomyLong(mem.View(), s);
    BenchStart(mem, res, s, env);
    RunParts(env, mem.View(), r);
    RoundsTurn(env, mem.View(), res.seed3, r, 0);
    SameOutsideRefl(s, mem.next);
    AtRunParts(mem, res, env, mem.View(), mem.next, s, r);
  }

  lemma RoomyLong(m: Cells, s: seq<nat>)
    requires Roomy(m, s)
    ensures |s| >= 3
  {
  }

  lemma RunEnd(env: Env, m: Cells, findNum: s16, r: Run, k: nat, n0: seq<Ptr>, n1: seq<Ptr>, l0: Ptr, l1: Ptr)
    requires RunReady(env, m, r)
    requires var q := RoundsAfter(env, m, findNum, r, k);
      IsList(n0, l0, r.s) && IsList(n1, l1, q.s) && SameOutside(r.s, n0, n1)
    ensures n1 == n0 <==> RoundsAfter(env, m, findNum, r, k).s == r.s
    ensures Canonical(m, r.s) ==> n1 == n0
  {
    hide *;
    var q := RoundsAfter(env, m, findNum, r, k);
    RunParts(env, m, r);
    RunParts(env, m, q);
    ListHead(n0, l0, r.s);
    ListHead(n1, l1, q.s);
    if q.s == r.s {
      LinksRestored(r.s, n0, n1, l0, l1, q.s);
    }
    if n1 == n0 {
      OneList(n0, l0, r.s, q.s);
    }
    if Canonical(m, r.s) {
      CanonicalRounds(env, m, findNum, r, k);
    }
  }

  /** A pointer sees one list only. */
  lemma {:induction false} OneList(next: seq<Ptr>, list: Ptr, s: seq<nat>, t: seq<nat>)
    requires IsList(next, list, s) && IsList(next, list, t)
    ensures s == t
    decreases |s|
  {
    if s == [] || t == [] {
      PtrHead(s);
      PtrHead(t);
    } else {
      ListRest(next, list, s);
      ListRest(next, list, t);
      hide *;
      OneList(next, next[s[0]], s[1..], t[1..]);
      assert s == [s[0]] + s[1..] && t == [t[0]] + t[1..];
    }
  }

  lemma ListRest(next: seq<Ptr>, list: Ptr, s: seq<nat>)
    requires IsList(next, list, s) && s != []
    ensures list == s[0] < |next| && IsList(next, next[s[0]], s[1..])
  {
    assert next[s[0]] == PtrAt(s, 1);
    forall k | 0 <= k < |s| - 1
      ensures s[1..][k] < |next| && next[s[1..][k]] == PtrAt(s[1..], k + 1)
    {
      assert next[s[k + 1]] == PtrAt(s, k + 2);
    }
  }

  // ------------------------------------------------------------ what a run keeps

  /** Without a repeated index the order is the same after every benchmark. */
  lemma CanonicalTurn(env: Env, m: Cells, findNum: s16, finderIdx: s16, r: Run)
    requires RunReady(env, m, r) && Canonical(m, r.s)
    ensures Turn(env, m, findNum, finderIdx, r).s == r.s
  {
    hide *;
    RunParts(env, m, r);
    TurnIs(env, m, findNum, finderIdx, r);
    CanonicalBack(env, m, r.s, findNum, finderIdx, r.bench);
    FromWhole(r.s);
  }

  lemma {:induction false} CanonicalRounds(env: Env, m: Cells, findNum: s16, r: Run, k: nat)
    requires RunReady(env, m, r) && Canonical(m, r.s)
    ensures RoundsAfter(env, m, findNum, r, k).s == r.s
  {
    hide *;
    if k == 0 {
      RoundsTurn(env, m, findNum, r, 0);
    } else {
      CanonicalRounds(env, m, findNum, r, k - 1);
      RoundsTurn(env, m, findNum, r, k - 1);
      var q := RoundsAfter(env, m, findNum, r, k - 1);
      RoundIs(env, m, findNum, q);
      CanonicalTurn(env, m, findNum, 1, q);
      CanonicalTurn(env, m, findNum, -1, Turn(env, m, findNum, 1, q));
    }
  }

  /** No benchmark takes in a node that was not in the list. */
  lemma TurnInside(env: Env, m: Cells, findNum: s16, finderIdx: s16, r: Run)
    requires RunReady(env, m, r)
    ensures forall x :: x in Turn(env, m, findNum, finderIdx, r).s ==> x in r.s
  {
    hide *;
    TurnIs(env, m, findNum, finderIdx, r);
    TurnReady(env, m, findNum, finderIdx, r);
  }

  lemma {:induction false} RoundsInside(env: Env, m: Cells, findNum: s16, r: Run, k: nat)
    requires RunReady(env, m, r)
    ensures forall x :: x in RoundsAfter(env, m, findNum, r, k).s ==> x in r.s
  {
    hide *;
    if k == 0 {
      RoundsTurn(env, m, findNum, r, 0);
    } else {
      RoundsInside(env, m, findNum, r, k - 1);
      RoundsTurn(env, m, findNum, r, k - 1);
      var q := RoundsAfter(env, m, findNum, r, k - 1);
      RoundIs(env, m, findNum, q);
      TurnInside(env, m, findNum, 1, q);
      TurnInside(env, m, findNum, -1, Turn(env, m, findNum, 1, q));
    }
  }

  /** The list CRC, and matrix and state CRC once they are not 0, stay on record. */
  predicate RecordsKept(b: Bench, b': Bench) {
    && b'.crclist == b.crclist
    && (b.crcmatrix != 0 ==> b'.crcmatrix == b.crcmatrix)
    && (b.crcstate != 0 ==> b'.crcstate == b.crcstate)
  }

  lemma {:induction false} TouchesKeepRecords(env: Env, m: Machine, info: seq<nat>, s: seq<nat>)
    requires Able(env, CmpComplex, m) && Ranged(m.data16, info, s)
    ensures RecordsKept(m.bench, TouchAll(env, CmpComplex, true, m, info, s).bench)
    decreases |s|
  {
    hide StaysScannable, Env.Ready, OpResult;
    if s != [] {
      TouchesKeepRecords(env, m, info, s[..|s| - 1]);
    }
  }

  lemma TurnKeepsRecords(env: Env, m: Cells, findNum: s16, finderIdx: s16, r: Run)
    requires RunReady(env, m, r)
    ensures RecordsKept(r.bench, Turn(env, m, findNum, finderIdx, r).bench)
  {
    hide *;
    TurnIs(env, m, findNum, finderIdx, r);
    RunParts(env, m, r);
    SortKeepsRecords(env, m, r.s, findNum, finderIdx, r.bench);
    CrcApart(r.bench, AfterSort(env, m, r.s, findNum, finderIdx, r.bench).bench);
  }

  lemma SortKeepsRecords(env: Env, m: Cells, s: seq<nat>, findNum: s16, finderIdx: s16, b: Bench)
    requires BenchReady(env, m, s, b)
    ensures RecordsKept(b, AfterSort(env, m, s, findNum, finderIdx, b).bench)
  {
    hide AllFinds, TouchAll, Able, NoDup;
    var f := AllFinds(m, s, findNum, finderIdx);
    HoldRanged(m, f.s);
    TouchesKeepRecords(env, Machine(m.data16, b), m.info, f.s);
  }

  lemma CrcApart(b: Bench, b1: Bench)
    requires RecordsKept(b, b1)
    ensures forall crc :: RecordsKept(b, b1.(crc := crc))
  {
  }

  lemma KeptOn(a: Bench, b: Bench, c: Bench)
    requires RecordsKept(a, b) && RecordsKept(b, c)
    ensures RecordsKept(a, c)
  {
  }

  /** From the end of the first iteration on nothing on record changes any more. */
  lemma {:induction false} RecordsStay(env: Env, m: Cells, findNum: s16, r: Run, k: nat, j: nat)
    requires RunReady(env, m, r) && 1 <= k <= j
    ensures RecordsKept(RoundsAfter(env, m, findNum, r, k).bench, RoundsAfter(env, m, findNum, r, j).bench)
    decreases j
  {
    hide *;
    var b := RoundsAfter(env, m, findNum, r, k).bench;
    if k == j {
      KeptSelf(b);
    } else {
      RecordsStay(env, m, findNum, r, k, j - 1);
      RoundsTurn(env, m, findNum, r, j - 1);
      var q := RoundsAfter(env, m, findNum, r, j - 1);
      RoundIs(env, m, findNum, q);
      var u := Turn(env, m, findNum, 1, q);
      TurnKeepsRecords(env, m, findNum, 1, q);
      TurnKeepsRecords(env, m, findNum, -1, u);
      KeptOn(b, q.bench, u.bench);
      KeptOn(b, u.bench, Turn(env, m, findNum, -1, u).bench);
    }
  }

  lemma KeptSelf(b: Bench)
    ensures RecordsKept(b, b)
  {
  }
}
