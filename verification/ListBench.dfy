/** `core_bench_list`: finds with reversals, a sort by data, a removal and its undo,
    and a sort by index, after which the whole list memory is as it was. */
module ListBench {
  import opened MachineInts
  import opened Crc
  import opened ListOrder
  import opened ListMemory
  import opened ListCompare
  import opened ListTrace
  import opened ListSort
  import opened ListOps
  import opened ListFinds

  // --------------------------------------------------------- CRC, remove and undo

  /** The CRC after folding the data word d in n times. */
  function CrcTimes(d: u16, n: nat, crc: u16): u16 {
    if n == 0 then crc else CrcTimes(d, n - 1, CrcOf(Bytes16(d), crc))
  }

  /** The loop folds in the head's data once for every node from place k on: it
      advances `finder` but reads `list`. */
  method CrcLoop(mem: Memory, list: Ptr, finder0: Ptr, crc: u16, ghost s: seq<nat>, ghost k: nat) returns (retval: u16)
    requires k <= |s| && s != [] && IsList(mem.next, list, s) && mem.View().HasCell(s[0]) && finder0 == PtrAt(s, k)
    ensures retval == CrcTimes(mem.View().Data(s[0]), |s| - k, crc)
  {
    hide *;
    ViewIs(mem);
    HeadData(mem.next, mem.View(), list, s);
    ghost var d := mem.View().Data(s[0]);
    retval := crc;
    var finder := finder0;
    ghost var i := k;
    FinderAt(mem.next, list, s, i);
    while finder != NULL
      invariant k <= i <= |s| && finder == PtrAt(s, i)
      invariant CrcTimes(d, |s| - i, retval) == CrcTimes(d, |s| - k, crc)
      decreases |s| - i
    {
      FinderAt(mem.next, list, s, i);
      CrcTimesTurn(d, |s| - i, retval);
      i := i + 1;
      retval := Crc16(mem.data16[mem.info[list]], retval);
      finder := mem.next[finder];
    }
    FinderAt(mem.next, list, s, i);
    CrcTimesTurn(d, 0, retval);
  }

  lemma HeadData(next: seq<Ptr>, m: Cells, list: Ptr, s: seq<nat>)
    requires s != [] && IsList(next, list, s) && m.HasCell(s[0])
    ensures list == s[0] && 0 <= list < |m.info| && m.info[list] < |m.data16| && m.Data(s[0]) == m.data16[m.info[list]]
  {
    PtrHead(s);
    hide NoDup, Links;
  }

  lemma FinderAt(next: seq<Ptr>, list: Ptr, s: seq<nat>, i: nat)
    requires IsList(next, list, s) && i <= |s|
    ensures i == |s| <==> PtrAt(s, i) == NULL
    ensures i < |s| ==> 0 <= PtrAt(s, i) < |next| && next[PtrAt(s, i)] == PtrAt(s, i + 1)
  {
  }

  lemma CrcTimesTurn(d: u16, n: nat, crc: u16)
    ensures n > 0 ==> CrcTimes(d, n, crc) == CrcTimes(d, n - 1, CrcOf(Bytes16(d), crc))
    ensures CrcTimes(d, 0, crc) == crc
  {
  }

  /** A word n times, each time its low byte first. */
  function Copies(d: u16, n: nat): (c: seq<u8>)
    ensures |c| == 2 * n
    ensures forall i :: 0 <= i < n ==> c[2 * i] == d % 0x100 && c[2 * i + 1] == d / 0x100
  {
    seq(2 * n, i => if i % 2 == 0 then d % 0x100 else d / 0x100)
  }

  lemma {:induction false} CrcOfCopies(d: u16, n: nat, crc: u16)
    ensures CrcTimes(d, n, crc) == CrcOf(Copies(d, n), crc)
  {
    hide CrcOf;
    if n == 0 {
      CrcOfNothing(crc);
      assert Copies(d, 0) == [];
    } else {
      CrcOfCopies(d, n - 1, CrcOf(Bytes16(d), crc));
      CrcOfAppend(Bytes16(d), Copies(d, n - 1), crc);
      assert Copies(d, n) == Bytes16(d) + Copies(d, n - 1);
    }
  }

  lemma CrcOfNothing(crc: u16)
    ensures CrcOf([], crc) == crc
  {
  }

  /** The cells as they are while the third node is out of the list. */
  function RemovedView(m: Cells, s: seq<nat>): Cells
    requires |s| >= 3 && m.Hold(s)
  {
    m.(info := Swapped(m.info, s[1], s[2]))
  }

  lemma RemovedHolds(m: Cells, s: seq<nat>)
    requires |s| >= 3 && m.Hold(s) && NoDup(s)
    ensures RemovedView(m, s).Hold(WithoutNext(s, 1)) && m.HasCell(s[0]) && RemovedView(m, s).HasCell(s[0])
    ensures RemovedView(m, s).Data(s[0]) == m.Data(s[0]) && WithoutNext(s, 1)[0] == s[0]
  {
    var m', t := RemovedView(m, s), WithoutNext(s, 1);
    forall k | 0 <= k < |t|
      ensures t[k] < |m'.info| && m'.info[t[k]] < |m'.data16|
    {
      assert t[k] == if k < 2 then s[k] else s[k + 1];
    }
  }

  /** How many nodes follow from the probe's first match on, or behind the head if
      there is none. */
  function NodesFromProbe(m: Cells, t: seq<nat>, pidx: s16, pdata: u16): nat
    requires m.Hold(t) && t != []
  {
    var j := FindAt(m, t, pidx, pdata);
    if j < |t| then |t| - j else |t| - 1
  }

  /** Is there a match up to place i? */
  ghost predicate Passed(m: Cells, t: seq<nat>, pidx: s16, pdata: u16, i: nat)
    requires m.Hold(t) && i < |t|
  {
    exists k :: 0 <= k <= i && Matches(m, t[k], pidx, pdata)
  }

  /** How many of the first n places are a match or have one in front of them. */
  ghost function PassedPlaces(m: Cells, t: seq<nat>, pidx: s16, pdata: u16, n: nat): nat
    requires m.Hold(t) && n <= |t|
  {
    if n == 0 then 0 else
      PassedPlaces(m, t, pidx, pdata, n - 1) + (if Passed(m, t, pidx, pdata, n - 1) then 1 else 0)
  }

  /** The CRC is taken once for each node that is a match or has one in front of it, or without
      a match for every node but the first. */
  lemma NodesCounted(m: Cells, t: seq<nat>, pidx: s16, pdata: u16)
    requires m.Hold(t) && t != []
    ensures NodesFromProbe(m, t, pidx, pdata) ==
      if Passed(m, t, pidx, pdata, |t| - 1) then PassedPlaces(m, t, pidx, pdata, |t|) else |t| - 1
  {
    hide FindAt, Matches, PassedPlaces;
    PlacesPassed(m, t, pidx, pdata, |t|);
    PassedFrom(m, t, pidx, pdata, |t| - 1);
  }

  lemma PassedFrom(m: Cells, t: seq<nat>, pidx: s16, pdata: u16, i: nat)
    requires m.Hold(t) && i < |t|
    ensures Passed(m, t, pidx, pdata, i) <==> FindAt(m, t, pidx, pdata) <= i
  {
    hide Matches;
    var j := FindAt(m, t, pidx, pdata);
  }

  lemma {:induction false} PlacesPassed(m: Cells, t: seq<nat>, pidx: s16, pdata: u16, n: nat)
    requires m.Hold(t) && n <= |t|
    ensures PassedPlaces(m, t, pidx, pdata, n) ==
      if n <= FindAt(m, t, pidx, pdata) then 0 else n - FindAt(m, t, pidx, pdata)
  {
    hide FindAt, Passed;
    if n > 0 {
      PlacesPassed(m, t, pidx, pdata, n - 1);
      PassedFrom(m, t, pidx, pdata, n - 1);
    }
  }

  /** The CRC taken while the third node is out of the list. */
  function RemovedCrc(m: Cells, s: seq<nat>, pidx: s16, pdata: u16, crc: u16): u16
    requires |s| >= 3 && m.Hold(s) && NoDup(s)
  {
    RemovedHolds(m, s);
    CrcTimes(m.Data(s[0]), NodesFromProbe(RemovedView(m, s), WithoutNext(s, 1), pidx, pdata), crc)
  }

  method CrcFromProbe(mem: Memory, list: Ptr, pidx: s16, pdata: u16, crc: u16, ghost t: seq<nat>) returns (retval: u16)
    requires |t| >= 2 && IsList(mem.next, list, t) && mem.View().Hold(t)
    ensures retval == CrcTimes(mem.View().Data(t[0]), NodesFromProbe(mem.View(), t, pidx, pdata), crc)
  {
    ListPlaces(mem.next, list, t);
    hide IsList, CrcTimes, FindAt, Cells.Data, NoDup, Links;
    var finder := CoreListFind(mem, list, pidx, pdata, t);
    ghost var j := FindAt(mem.View(), t, pidx, pdata);
    FinderAt(mem.next, list, t, j);
    if finder == NULL {
      finder := mem.next[list];
      j := 1;
    }
    retval := CrcLoop(mem, list, finder, crc, t, j);
  }

  /** Removes the second item, folds the head's data into the CRC, and undoes the removal. */
  method RemoveAndUndo(mem: Memory, list: Ptr, pidx: s16, pdata: u16, crc: u16, ghost s: seq<nat>) returns (retval: u16)
    requires |s| >= 3 && IsList(mem.next, list, s) && mem.View().Hold(s)
    modifies mem`next, mem`info
    ensures mem.next == old(mem.next) && mem.info == old(mem.info)
    ensures NoDup(s) && retval == RemovedCrc(mem.View(), s, pidx, pdata, crc)
  {
    ghost var m, t := mem.View(), WithoutNext(s, 1);
    ListPlaces(mem.next, list, s);
    RemovedHolds(m, s);
    RemoveUndone(mem.next, mem.info, list, s, 1);
    hide IsList, Cells.Hold, WithoutNext, CrcTimes, FindAt, Cells.Data, NoDup, Links, Swapped, NodesFromProbe, PtrAt;
    var remover := CoreListRemove(mem, mem.next[list], list, s, 1);
    assert mem.View() == RemovedView(m, s);
    ListPlaces(mem.next, list, t);
    WithoutNextStarts(s);
    retval := CrcFromProbe(mem, list, pidx, pdata, crc, t);
    remover := CoreListUndoRemove(mem, remover, mem.next[list]);
  }

  lemma WithoutNextStarts(s: seq<nat>)
    requires |s| >= 3
    ensures WithoutNext(s, 1)[0] == s[0] && WithoutNext(s, 1)[1] == s[1]
  {
  }

  /** Where a list of at least two nodes starts. */
  lemma ListPlaces(next: seq<Ptr>, list: Ptr, s: seq<nat>)
    requires |s| >= 2 && IsList(next, list, s)
    ensures list == s[0] && s[0] < |next| && s[1] < |next| && next[s[0]] == s[1] && PtrAt(s, 1) == s[1]
    ensures NoDup(s)
  {
    assert next[s[0]] == PtrAt(s, 1);
  }

  // --------------------------------------------------------------- the benchmark

  /** The state the list is built in: ordered by index, every data word equal to its
      backup. */
  ghost predicate IndexSorted(m: Cells, s: seq<nat>) {
    && m.Hold(s)
    && (forall k :: 0 <= k < |s| ==> Low(m.Data(s[k])) == High(m.Data(s[k])))
    && forall a, b :: 0 <= a < b < |s| ==> IndexAt(m, s[a]) <= IndexAt(m, s[b])
  }

  /** The index of a node's cell. */
  function IndexAt(m: Cells, x: nat): int {
    if m.HasCell(x) then m.idx[m.info[x]] else 0
  }

  /** The same with no index twice: the state from which the list always comes back. */
  ghost predicate Canonical(m: Cells, s: seq<nat>) {
    && m.Hold(s)
    && (forall k :: 0 <= k < |s| ==> Low(m.Data(s[k])) == High(m.Data(s[k])))
    && forall a, b :: 0 <= a < b < |s| ==> m.idx[m.info[s[a]]] < m.idx[m.info[s[b]]]
  }

  /** The sort by data, which is only done for a positive finder index: the cells of t are
      touched in order, and s1 is the stable order by the values they have then. */
  ghost predicate SortedByData(env: Env, m: Cells, b: Bench, t: seq<nat>, finderIdx: s16, s1: seq<nat>, d1: seq<u16>,
                        b1: Bench) {
    if finderIdx > 0 then
      && Able(env, CmpComplex, Machine(m.data16, b)) && Ranged(m.data16, m.info, t)
      && Machine(d1, b1) == TouchAll(env, CmpComplex, true, Machine(m.data16, b), m.info, t)
      && s1 == StableOrder(m.(data16 := d1), CmpComplex, t)
    else s1 == t && d1 == m.data16 && b1 == b
  }

  method SortByData(mem: Memory, list0: Ptr, finderIdx: s16, res: Results, ghost t: seq<nat>, ghost env: Env)
    returns (list: Ptr, ghost s1: seq<nat>)
    requires |t| >= 2 && IsList(mem.next, list0, t) && mem.View().Hold(t) && Serves(CmpComplex, res, env)
    modifies mem`next, mem`data16, Repr(res)
    ensures Serves(CmpComplex, res, env)
    ensures IsList(mem.next, list, s1) && mem.View().Hold(s1) && SameOutside(t, old(mem.next), mem.next)
    ensures SortedByData(env, old(mem.View()), old(BenchOf(res)), t, finderIdx, s1, mem.data16, BenchOf(res))
  {
    ReprApart(mem, res);
    ghost var m, b, passes := mem.View(), BenchOf(res), 0;
    hide *;
    SameOutsideRefl(t, mem.next);
    ViewIs(mem);
    list, s1 := list0, t;
    if finderIdx > 0 {
      list, s1, passes := Mergesort(mem, list0, CmpComplex, res, t, env);
      ViewIs(mem);
      CellsView(m, mem.data16);
      SortedIs(env, m, b, t, finderIdx, s1, mem.data16, BenchOf(res));
    } else {
      UnsortedIs(env, m, b, t, finderIdx);
    }
  }

  lemma SortedIs(env: Env, m: Cells, b: Bench, t: seq<nat>, finderIdx: s16, s1: seq<nat>, d1: seq<u16>, b1: Bench)
    requires finderIdx > 0 && |t| >= 2 && Sorts(env, CmpComplex, true, m.data16, b, m.info, t, d1, b1)
    requires s1 == StableOrder(m.(data16 := d1), CmpComplex, t)
    ensures SortedByData(env, m, b, t, finderIdx, s1, d1, b1)
  {
  }

  lemma UnsortedIs(env: Env, m: Cells, b: Bench, t: seq<nat>, finderIdx: s16)
    requires finderIdx <= 0
    ensures SortedByData(env, m, b, t, finderIdx, t, m.data16, b)
  {
  }

  lemma CanonicalSorted(m: Cells, s: seq<nat>)
    ensures Canonical(m, s) <==>
      IndexSorted(m, s) && forall a, b :: 0 <= a < b < |s| ==> IndexAt(m, s[a]) != IndexAt(m, s[b])
  {
    if IndexSorted(m, s) && forall a, b :: 0 <= a < b < |s| ==> IndexAt(m, s[a]) != IndexAt(m, s[b]) {
      forall a, b | 0 <= a < b < |s|
        ensures m.idx[m.info[s[a]]] < m.idx[m.info[s[b]]]
      {
        assert IndexAt(m, s[a]) <= IndexAt(m, s[b]);
      }
    }
  }

  /** Nodes of equal index stand in t as they stand in s. */
  predicate EqualsKept(m: Cells, s: seq<nat>, t: seq<nat>) {
    forall a, b :: 0 <= a < b < |s| && IndexAt(m, s[a]) == IndexAt(m, s[b]) ==> Rank(t, s[a]) < Rank(t, s[b])
  }

  /** Stable sorting by index brings the order s back from t exactly if t has kept the nodes
      of equal index as they were. */
  lemma OrderRestored(m: Cells, s: seq<nat>, t: seq<nat>)
    requires IndexSorted(m, s) && NoDup(t) && multiset(t) == multiset(s)
    ensures StableOrder(m, CmpIdx, t) == s <==> EqualsKept(m, s, t)
  {
    hide *;
    if EqualsKept(m, s, t) {
      KeptSorted(m, s, t);
      StableOrderUnique(m, CmpIdx, t, s);
    }
    if StableOrder(m, CmpIdx, t) == s {
      RanksGrow(t);
      StableOrderOrdered(m, CmpIdx, t, t);
      OrderedKept(m, s, t);
    }
  }

  lemma KeptSorted(m: Cells, s: seq<nat>, t: seq<nat>)
    requires IndexSorted(m, s) && EqualsKept(m, s, t)
    ensures StablySorted(m, CmpIdx, t, s)
  {
    hide Rank;
    forall a, b | 0 <= a < b < |s|
      ensures StablyBefore(m, CmpIdx, t, s[a], s[b])
    {
      assert m.HasCell(s[a]) && m.HasCell(s[b]);
      assert IndexAt(m, s[a]) <= IndexAt(m, s[b]);
    }
  }

  lemma OrderedKept(m: Cells, s: seq<nat>, t: seq<nat>)
    requires IndexSorted(m, s) && InOrderOf(m, CmpIdx, t, s)
    ensures EqualsKept(m, s, t)
  {
    hide Rank;
    forall a, b | 0 <= a < b < |s| && IndexAt(m, s[a]) == IndexAt(m, s[b])
      ensures Rank(t, s[a]) < Rank(t, s[b])
    {
      assert m.HasCell(s[a]) && m.HasCell(s[b]);
      assert Ordered(m, CmpIdx, t, s[a], s[b]);
    }
  }

  lemma CanonicalKept(m: Cells, s: seq<nat>, t: seq<nat>)
    requires Canonical(m, s)
    ensures EqualsKept(m, s, t)
  {
    hide Rank;
    CanonicalSorted(m, s);
  }

  /** Links that agree outside the list and make up the same list are the same. */
  lemma LinksRestored(s: seq<nat>, n0: seq<Ptr>, n1: seq<Ptr>, l0: Ptr, l1: Ptr, out: seq<nat>)
    requires IsList(n0, l0, s) && IsList(n1, l1, out) && SameOutside(s, n0, n1)
    requires multiset(out) == multiset(s) && |out| == |s|
    ensures n1 == n0 <==> out == s
  {
    if out == s {
      hide NoDup;
      forall x | 0 <= x < |n0|
        ensures n1[x] == n0[x]
      {
        if x in s {
          var k :| 0 <= k < |s| && s[k] == x;
          assert n0[s[k]] == PtrAt(s, k + 1) && n1[s[k]] == PtrAt(s, k + 1);
        }
      }
    }
    if n1 == n0 {
      hide *;
      SameFromBack(n0, s, out, l0, l1, |s|);
      assert s[0..] == s && out[0..] == out;
    }
  }

  /** Two lists of the same nodes over the same links agree from the back. */
  lemma {:induction false} SameFromBack(next: seq<Ptr>, s: seq<nat>, out: seq<nat>, l0: Ptr, l1: Ptr, k: nat)
    requires IsList(next, l0, s) && IsList(next, l1, out) && multiset(out) == multiset(s) && |out| == |s| && k <= |s|
    ensures s[|s| - k..] == out[|s| - k..]
  {
    hide *;
    if k > 0 {
      var i := |s| - k;
      SameFromBack(next, s, out, l0, l1, k - 1);
      SamePredecessor(next, s, out, l0, l1, i);
      SameSuffix(s, out, i);
    }
  }

  lemma SameSuffix(s: seq<nat>, out: seq<nat>, i: nat)
    requires i < |s| == |out| && s[i] == out[i] && s[i + 1..] == out[i + 1..]
    ensures s[i..] == out[i..]
  {
    assert s[i..] == [s[i]] + s[i + 1..] && out[i..] == [out[i]] + out[i + 1..];
  }

  lemma SamePredecessor(next: seq<Ptr>, s: seq<nat>, out: seq<nat>, l0: Ptr, l1: Ptr, i: nat)
    requires IsList(next, l0, s) && IsList(next, l1, out) && multiset(out) == multiset(s) && |out| == |s| && i < |s|
    requires s[i + 1..] == out[i + 1..]
    ensures s[i] == out[i]
  {
    hide NoDup;
    assert out[i] in multiset(s);
    var j :| 0 <= j < |s| && s[j] == out[i];
    assert next[s[j]] == PtrAt(s, j + 1) && next[out[i]] == PtrAt(out, i + 1);
    assert PtrAt(out, i + 1) == PtrAt(s, i + 1) by {
      if i + 1 < |s| {
        assert s[i + 1] == s[i + 1..][0] && out[i + 1] == out[i + 1..][0];
      }
    }
    PlacesEqual(s, i + 1, j + 1);
  }

  lemma PlacesEqual(s: seq<nat>, i: nat, j: nat)
    requires NoDup(s) && i <= |s| && j <= |s| && PtrAt(s, i) == PtrAt(s, j)
    ensures i == j
  {
  }

  lemma CellsOfPerm(info: seq<nat>, s: seq<nat>, t: seq<nat>)
    requires multiset(s) == multiset(t)
    ensures CellsOf(info, s) == CellsOf(info, t)
  {
    forall c | c in CellsOf(info, s)
      ensures c in CellsOf(info, t)
    {
      var k :| 0 <= k < |s| && s[k] < |info| && info[s[k]] == c;
      assert s[k] in multiset(t);
    }
    forall c | c in CellsOf(info, t)
      ensures c in CellsOf(info, s)
    {
      var k :| 0 <= k < |t| && t[k] < |info| && info[t[k]] == c;
      assert t[k] in multiset(s);
    }
  }

  /** Every data word is rebuilt from its backup byte. */
  lemma DataRestored(m: Cells, s: seq<nat>, t: seq<nat>, d1: seq<u16>, d2: seq<u16>)
    requires IndexSorted(m, s) && multiset(t) == multiset(s)
    requires AllEvolved(CmpComplex, true, m.data16, d1) && SameCells(m.info, s, m.data16, d1)
    requires AllEvolved(CmpIdx, false, d1, d2) && SameCells(m.info, t, d1, d2)
    requires AllSettled(m.(data16 := d2), CmpIdx, false, s)
    ensures d2 == m.data16
  {
    CellsOfPerm(m.info, s, t);
    forall c | 0 <= c < |m.data16|
      ensures d2[c] == m.data16[c]
    {
      if c in CellsOf(m.info, s) {
        var k :| 0 <= k < |s| && s[k] < |m.info| && m.info[s[k]] == c;
        assert Evolved(CmpComplex, true, m.data16[c], d1[c]) && Evolved(CmpIdx, false, d1[c], d2[c]);
        assert Settled(CmpIdx, false, m.(data16 := d2).Data(s[k]));
        assert Low(m.Data(s[k])) == High(m.Data(s[k]));
      }
    }
  }

  /** A list benchmark can be run on the list s with these cells and this bench. */
  ghost predicate BenchReady(env: Env, m: Cells, s: seq<nat>, b: Bench) {
    |s| >= 3 && m.Hold(s) && NoDup(s) && Able(env, CmpComplex, Machine(m.data16, b))
  }

  /** The order of the list, and what the finds have counted, after all finds. */
  function AllFinds(m: Cells, s: seq<nat>, findNum: s16, finderIdx: s16): (f: Finds)
    requires |s| >= 3 && m.Hold(s)
    ensures multiset(f.s) == multiset(s) && |f.s| == |s| && m.Hold(f.s)
  {
    FindsAfter(m, s, finderIdx, FindCount(findNum))
  }

  lemma HoldRanged(m: Cells, s: seq<nat>)
    requires m.Hold(s)
    ensures Ranged(m.data16, m.info, s)
  {
  }

  /** Data and benchmarks after the sort by data. */
  ghost function AfterSort(env: Env, m: Cells, s: seq<nat>, findNum: s16, finderIdx: s16, b: Bench): (t: Machine)
    requires BenchReady(env, m, s, b)
    ensures |t.data16| == |m.data16| && Able(env, CmpComplex, t)
  {
    var f := AllFinds(m, s, findNum, finderIdx);
    HoldRanged(m, f.s);
    if finderIdx > 0 then TouchAll(env, CmpComplex, true, Machine(m.data16, b), m.info, f.s) else Machine(m.data16, b)
  }

  /** The order of the list after the sort by data. */
  ghost function SortOrder(env: Env, m: Cells, s: seq<nat>, findNum: s16, finderIdx: s16, b: Bench): (t: seq<nat>)
    requires BenchReady(env, m, s, b)
    ensures multiset(t) == multiset(s)
  {
    var f := AllFinds(m, s, findNum, finderIdx);
    if finderIdx > 0 then
      StableOrder(m.(data16 := AfterSort(env, m, s, findNum, finderIdx, b).data16), CmpComplex, f.s)
    else f.s
  }

  lemma OrderHolds(m: Cells, d: seq<u16>, s: seq<nat>, t: seq<nat>)
    requires m.Hold(s) && NoDup(s) && |d| == |m.data16| && multiset(t) == multiset(s)
    ensures m.(data16 := d).Hold(t) && NoDup(t) && |t| == |s|
  {
    HoldPerm(m, s, t);
    NoDupPerm(s, t);
  }

  /** The order of the list after the sort by index. */
  ghost function BackOrder(env: Env, m: Cells, s: seq<nat>, findNum: s16, finderIdx: s16, b: Bench): (t: seq<nat>)
    requires BenchReady(env, m, s, b)
    ensures multiset(t) == multiset(s) && |t| == |s| && NoDup(t) && m.Hold(t)
  {
    var t := StableOrder(m, CmpIdx, SortOrder(env, m, s, findNum, finderIdx, b));
    OrderHolds(m, m.data16, s, t);
    assert m.(data16 := m.data16) == m;
    t
  }

  /** What `core_bench_list` returns: the finds, the CRC while the third node is out of the
      sorted list, and the CRC of the list sorted back. */
  ghost function BenchValue(env: Env, m: Cells, s: seq<nat>, findNum: s16, finderIdx: s16, b: Bench): u16
    requires BenchReady(env, m, s, b)
  {
    var n, d1 := FindCount(findNum), AfterSort(env, m, s, findNum, finderIdx, b).data16;
    var s1 := SortOrder(env, m, s, findNum, finderIdx, b);
    OrderHolds(m, d1, s, s1);
    var out := BackOrder(env, m, s, findNum, finderIdx, b);
    CrcTimes(m.Data(out[0]), |s| - 1, RemovedCrc(m.(data16 := d1), s1, ProbeAt(finderIdx, n), LastProbe(findNum),
      Score(m, s, finderIdx, n)))
  }

  /** The sort by index, and the CRC of the head's data once per item. */
  method SortBackAndCrc(mem: Memory, list0: Ptr, crc: u16, ghost m: Cells, ghost n0: seq<Ptr>,
                        ghost s: seq<nat>, ghost s1: seq<nat>, ghost env: Env)
    returns (retval: u16)
    requires |s| >= 3 && IndexSorted(m, s) && multiset(s1) == multiset(s) && |s1| == |s|
    requires IsList(mem.next, list0, s1) && mem.View().Hold(s1) && SameOutside(s, n0, mem.next)
    requires mem.info == m.info && mem.idx == m.idx
    requires AllEvolved(CmpComplex, true, m.data16, mem.data16) && SameCells(m.info, s, m.data16, mem.data16)
    modifies mem`next, mem`data16
    ensures mem.data16 == m.data16
    ensures var out := StableOrder(m, CmpIdx, s1);
      && SortedBack(mem.next, n0, m, s, s1)
      && m.HasCell(out[0]) && retval == CrcTimes(m.Data(out[0]), |s| - 1, crc)
  {
    hide *;
    ghost var n1, d1, passes, out := mem.next, mem.data16, 0, s1;
    var list := list0;
    list, out, passes := SortByIndex(mem, list0, s1, env);
    ViewIs(mem);
    SameOutsidePerm(s1, s, n1, mem.next);
    SameOutsideTrans(s, n0, n1, mem.next);
    CellsView(m, mem.data16);
    SettledPerm(mem.View(), s, out);
    DataRestored(m, s, s1, d1, mem.data16);
    CellsView(m, m.data16);
    ListPlaces(mem.next, list, out);
    HeadHeld(mem.View(), out);
    SortedBackIs(mem.next, list, n0, m, s, s1);
    retval := CrcLoop(mem, list, mem.next[list], crc, out, 1);
  }

  /** The links after the sort by index: the stable order of s1, and nothing changed outside
      the list. */
  ghost predicate SortedBack(next: seq<Ptr>, n0: seq<Ptr>, m: Cells, s: seq<nat>, s1: seq<nat>) {
    var out := StableOrder(m, CmpIdx, s1);
    out != [] && |out| == |s| && IsList(next, out[0], out) && SameOutside(s, n0, next)
  }

  lemma SortedBackIs(next: seq<Ptr>, list: Ptr, n0: seq<Ptr>, m: Cells, s: seq<nat>, s1: seq<nat>)
    requires var out := StableOrder(m, CmpIdx, s1);
      out != [] && |out| == |s| && list == out[0] && IsList(next, list, out)
    requires SameOutside(s, n0, next)
    ensures SortedBack(next, n0, m, s, s1)
  {
  }

  lemma HeadHeld(m: Cells, s: seq<nat>)
    requires s != [] && m.Hold(s)
    ensures m.HasCell(s[0])
  {
  }

  lemma SettledPerm(m: Cells, s: seq<nat>, out: seq<nat>)
    requires AllSettled(m, CmpIdx, false, out) && multiset(out) == multiset(s)
    ensures AllSettled(m, CmpIdx, false, s)
  {
    forall k | 0 <= k < |s|
      ensures m.HasCell(s[k]) && Settled(CmpIdx, false, m.Data(s[k]))
    {
      assert s[k] in multiset(out);
      var j :| 0 <= j < |out| && out[j] == s[k];
    }
  }

  lemma CellsView(m: Cells, d: seq<u16>)
    ensures m.(data16 := d) == Cells(m.info, d, m.idx)
  {
  }

  method SortByIndex(mem: Memory, list0: Ptr, ghost s1: seq<nat>, ghost env: Env) returns (list: Ptr,
                     ghost out: seq<nat>, ghost passes: nat)
    requires |s1| >= 3 && IsList(mem.next, list0, s1) && mem.View().Hold(s1)
    modifies mem`next, mem`data16
    ensures IsList(mem.next, list, out) && multiset(out) == multiset(s1) && mem.View().Hold(out)
    ensures out == StableOrder(mem.View(), CmpIdx, s1) && |out| == |s1| && AllSettled(mem.View(), CmpIdx, false, out)
    ensures AllEvolved(CmpIdx, false, old(mem.data16), mem.data16)
      && SameCells(mem.info, s1, old(mem.data16), mem.data16)
    ensures SameOutside(s1, old(mem.next), mem.next)
  {
    hide *;
    CmpIdxServes(env);
    list, out, passes := Mergesort(mem, list0, CmpIdx, null, s1, env);
  }

  lemma CmpIdxServes(env: Env)
    ensures Serves(CmpIdx, null, env) && Repr(null) == {}
  {
  }

  /** The finds and the sort by data. */
  method FindAndSort(mem: Memory, res: Results, finderIdx: s16, ghost s: seq<nat>, ghost env: Env)
    returns (list: Ptr, pidx: s16, pdata: u16, retval: u16, ghost s1: seq<nat>)
    requires IsList(mem.next, res.list, s) && BenchReady(env, mem.View(), s, BenchOf(res))
      && Serves(CmpComplex, res, env)
    modifies mem`next, mem`data16, Repr(res)
    ensures Serves(CmpComplex, res, env)
    ensures IsList(mem.next, list, s1) && mem.View().Hold(s1) && SameOutside(s, old(mem.next), mem.next)
    ensures BenchReady(env, old(mem.View()), s, old(BenchOf(res)))
    ensures s1 == SortOrder(env, old(mem.View()), s, res.seed3, finderIdx, old(BenchOf(res)))
    ensures Machine(mem.data16, BenchOf(res))
      == AfterSort(env, old(mem.View()), s, res.seed3, finderIdx, old(BenchOf(res)))
    ensures pidx == ProbeAt(finderIdx, FindCount(res.seed3)) && pdata == LastProbe(res.seed3)
    ensures retval == Score(old(mem.View()), s, finderIdx, FindCount(res.seed3))
  {
    ghost var m, n0, b := mem.View(), mem.next, BenchOf(res);
    ReprApart(mem, res);
    ViewIs(mem);
    BenchReadyParts(env, m, s, b);
    hide *;
    list, pidx, pdata, retval := FindPhase(mem, res.list, res.seed3, finderIdx, s);
    ViewIs(mem);
    FindsAre(m, s, res.seed3, finderIdx);
    ghost var f, n1 := AllFinds(m, s, res.seed3, finderIdx), mem.next;
    list, s1 := SortByData(mem, list, finderIdx, res, f.s, env);
    SameOutsidePerm(f.s, s, n1, mem.next);
    SameOutsideTrans(s, n0, n1, mem.next);
    SortOutcome(env, m, s, res.seed3, finderIdx, b, s1, mem.data16, BenchOf(res));
  }

  lemma BenchReadyParts(env: Env, m: Cells, s: seq<nat>, b: Bench)
    ensures BenchReady(env, m, s, b) <==>
      |s| >= 3 && m.Hold(s) && NoDup(s) && Able(env, CmpComplex, Machine(m.data16, b))
  {
  }

  lemma FindsAre(m: Cells, s: seq<nat>, findNum: s16, finderIdx: s16)
    requires |s| >= 3 && m.Hold(s)
    ensures AllFinds(m, s, findNum, finderIdx) == FindsAfter(m, s, finderIdx, FindCount(findNum))
    ensures m == Cells(m.info, m.data16, m.idx)
  {
  }

  lemma SortOutcome(env: Env, m: Cells, s: seq<nat>, findNum: s16, finderIdx: s16, b: Bench, s1: seq<nat>,
                    d1: seq<u16>, b1: Bench)
    requires BenchReady(env, m, s, b)
    requires SortedByData(env, m, b, AllFinds(m, s, findNum, finderIdx).s, finderIdx, s1, d1, b1)
    ensures Machine(d1, b1) == AfterSort(env, m, s, findNum, finderIdx, b)
    ensures s1 == SortOrder(env, m, s, findNum, finderIdx, b)
  {
    hide AllFinds, TouchAll, StableOrder, Cells.Hold, NoDup, Able;
  }

  /** The sort by data keeps every backup byte and touches no other cell. */
  lemma SortEvolves(env: Env, m: Cells, s: seq<nat>, findNum: s16, finderIdx: s16, b: Bench)
    requires BenchReady(env, m, s, b)
    ensures var d1 := AfterSort(env, m, s, findNum, finderIdx, b).data16;
      AllEvolved(CmpComplex, true, m.data16, d1) && SameCells(m.info, s, m.data16, d1)
  {
    var f := AllFinds(m, s, findNum, finderIdx);
    hide AllFinds, Able, NoDup, Touch, Settled;
    HoldRanged(m, f.s);
    AllEvolvedRefl(CmpComplex, true, m.data16);
    if finderIdx > 0 {
      TouchedSettled(env, CmpComplex, true, Machine(m.data16, b), m.info, f.s);
    }
    CellsOfPerm(m.info, f.s, s);
  }

  lemma ServesAble(res: Results, env: Env, d: seq<u16>)
    requires Serves(CmpComplex, res, env)
    ensures Able(env, CmpComplex, Machine(d, BenchOf(res)))
  {
  }

  /** The list benchmark leaves every cell pointer and data word exactly as it found them,
      and the same nodes sorted by index, with no link changed outside; the links are the ones
      it found exactly if nodes of equal index have come through finds and sort by data in
      their old order.  Its value, and what it does to text and CRCs, is fixed by the list,
      the number of finds and what it starts from. */
  method CoreBenchList(mem: Memory, res: Results, finderIdx: s16, ghost s: seq<nat>,
                       ghost env: Env) returns (retval: u16)
    requires |s| >= 3 && IsList(mem.next, res.list, s) && IndexSorted(mem.View(), s) && Serves(CmpComplex, res, env)
    modifies mem`next, mem`info, mem`data16, Repr(res)
    ensures mem.info == old(mem.info) && mem.data16 == old(mem.data16)
    ensures Serves(CmpComplex, res, env)
    ensures BenchReady(env, mem.View(), s, old(BenchOf(res)))
    ensures var out := BackOrder(env, mem.View(), s, res.seed3, finderIdx, old(BenchOf(res)));
      && IsList(mem.next, out[0], out) && SameOutside(s, old(mem.next), mem.next)
      && (mem.next == old(mem.next) <==> out == s)
    ensures mem.next == old(mem.next) <==>
      EqualsKept(mem.View(), s, SortOrder(env, mem.View(), s, res.seed3, finderIdx, old(BenchOf(res))))
    ensures BenchOf(res) == AfterSort(env, mem.View(), s, res.seed3, finderIdx, old(BenchOf(res))).bench
    ensures retval == BenchValue(env, mem.View(), s, res.seed3, finderIdx, old(BenchOf(res)))
  {
    hide *;
    ReprApart(mem, res);
    ghost var m, n0, l0, b := mem.View(), mem.next, res.list, BenchOf(res);
    BenchStart(mem, res, s, env);
    ViewIs(mem);
    var list, pidx, pdata;
    ghost var s1;
    list, pidx, pdata, retval, s1 := FindAndSort(mem, res, finderIdx, s, env);
    BenchHalf(env, m, s, res.seed3, finderIdx, b, s1, mem.data16);
    ViewIs(mem);
    retval := RemoveAndSortBack(mem, list, pidx, pdata, retval, m, n0, s, s1, env);
    ViewIs(mem);
    OrderBack(env, m, s, res.seed3, finderIdx, b, s1, n0, mem.next, l0);
  }

  /** What the order after the sort by index says about the links. */
  lemma OrderBack(env: Env, m: Cells, s: seq<nat>, findNum: s16, finderIdx: s16, b: Bench, s1: seq<nat>,
                  n0: seq<Ptr>, n1: seq<Ptr>, l0: Ptr)
    requires BenchReady(env, m, s, b) && s1 == SortOrder(env, m, s, findNum, finderIdx, b) && IndexSorted(m, s)
    requires IsList(n0, l0, s) && SortedBack(n1, n0, m, s, s1)
    ensures var out := BackOrder(env, m, s, findNum, finderIdx, b);
      && out != [] && IsList(n1, out[0], out) && SameOutside(s, n0, n1)
      && (n1 == n0 <==> out == s) && (out == s <==> EqualsKept(m, s, s1))
  {
    hide *;
    BenchReadyParts(env, m, s, b);
    OrderHolds(m, m.data16, s, s1);
    BackOrderIs(env, m, s, findNum, finderIdx, b);
    SortedBackParts(n1, n0, m, s, s1);
    var out := BackOrder(env, m, s, findNum, finderIdx, b);
    OrderRestored(m, s, s1);
    LinksRestored(s, n0, n1, l0, out[0], out);
  }

  lemma SortedBackParts(next: seq<Ptr>, n0: seq<Ptr>, m: Cells, s: seq<nat>, s1: seq<nat>)
    requires SortedBack(next, n0, m, s, s1)
    ensures var out := StableOrder(m, CmpIdx, s1);
      out != [] && |out| == |s| && IsList(next, out[0], out) && SameOutside(s, n0, next)
  {
  }

  lemma BackOrderIs(env: Env, m: Cells, s: seq<nat>, findNum: s16, finderIdx: s16, b: Bench)
    requires BenchReady(env, m, s, b)
    ensures BackOrder(env, m, s, findNum, finderIdx, b)
      == StableOrder(m, CmpIdx, SortOrder(env, m, s, findNum, finderIdx, b))
    ensures m.(data16 := m.data16) == m
  {
    hide StableOrder, SortOrder;
  }

  lemma BenchStart(mem: Memory, res: Results, s: seq<nat>, env: Env)
    requires |s| >= 3 && IsList(mem.next, res.list, s) && IndexSorted(mem.View(), s) && Serves(CmpComplex, res, env)
    ensures BenchReady(env, mem.View(), s, BenchOf(res))
  {
    hide *;
    SortedHolds(mem.View(), s);
    ListPlaces(mem.next, res.list, s);
    ServesAble(res, env, mem.data16);
    ViewIs(mem);
    BenchReadyParts(env, mem.View(), s, BenchOf(res));
  }

  lemma SortedHolds(m: Cells, s: seq<nat>)
    requires IndexSorted(m, s)
    ensures m.Hold(s)
  {
  }

  /** What the second half of the benchmark needs to know of the first. */
  lemma BenchHalf(env: Env, m: Cells, s: seq<nat>, findNum: s16, finderIdx: s16, b: Bench, s1: seq<nat>, d1: seq<u16>)
    requires BenchReady(env, m, s, b) && s1 == SortOrder(env, m, s, findNum, finderIdx, b)
    requires d1 == AfterSort(env, m, s, findNum, finderIdx, b).data16
    ensures |s| >= 3 && multiset(s1) == multiset(s) && |s1| == |s|
    ensures AllEvolved(CmpComplex, true, m.data16, d1) && SameCells(m.info, s, m.data16, d1)
    ensures m.(data16 := d1) == Cells(m.info, d1, m.idx) && m.(data16 := d1).Hold(s1) && NoDup(s1)
    ensures var n, out := FindCount(findNum), StableOrder(m, CmpIdx, s1);
      out != [] && m.HasCell(out[0])
      && BenchValue(env, m, s, findNum, finderIdx, b)
         == CrcTimes(m.Data(out[0]), |s| - 1, RemovedCrc(m.(data16 := d1), s1, ProbeAt(finderIdx, n),
           LastProbe(findNum), Score(m, s, finderIdx, n)))
  {
    hide *;
    BenchReadyParts(env, m, s, b);
    OrderHolds(m, d1, s, s1);
    SortEvolves(env, m, s, findNum, finderIdx, b);
    CellsView(m, d1);
    BackOrderIs(env, m, s, findNum, finderIdx, b);
    HeadHeld(m, BackOrder(env, m, s, findNum, finderIdx, b));
    BenchValueIs(env, m, s, findNum, finderIdx, b);
  }

  /** The second half: the removal with its CRC, and the sort by index. */
  method RemoveAndSortBack(mem: Memory, list: Ptr, pidx: s16, pdata: u16, crc: u16, ghost m: Cells, ghost n0: seq<Ptr>,
                           ghost s: seq<nat>, ghost s1: seq<nat>, ghost env: Env)
    returns (retval: u16)
    requires |s| >= 3 && IndexSorted(m, s) && multiset(s1) == multiset(s) && |s1| == |s|
    requires IsList(mem.next, list, s1) && mem.View().Hold(s1) && SameOutside(s, n0, mem.next)
    requires mem.View() == m.(data16 := mem.data16)
    requires AllEvolved(CmpComplex, true, m.data16, mem.data16) && SameCells(m.info, s, m.data16, mem.data16)
    modifies mem`next, mem`info, mem`data16
    ensures mem.View() == m && SortedBack(mem.next, n0, m, s, s1)
    ensures old(mem.View()).Hold(s1) && NoDup(s1)
    ensures var out := StableOrder(m, CmpIdx, s1);
      && out != [] && m.HasCell(out[0])
      && retval == CrcTimes(m.Data(out[0]), |s| - 1, RemovedCrc(old(mem.View()), s1, pidx, pdata, crc))
  {
    ghost var m1 := mem.View();
    hide *;
    ViewIs(mem);
    CellsView(m, mem.data16);
    retval := RemoveAndUndo(mem, list, pidx, pdata, crc, s1);
    ViewIs(mem);
    assert mem.View() == m1;
    retval := SortBackAndCrc(mem, list, retval, m, n0, s, s1, env);
    ViewIs(mem);
    CellsView(m, m.data16);
    SortedBackParts(mem.next, n0, m, s, s1);
  }

  lemma BenchValueIs(env: Env, m: Cells, s: seq<nat>, findNum: s16, finderIdx: s16, b: Bench)
    requires BenchReady(env, m, s, b)
    requires m.HasCell(BackOrder(env, m, s, findNum, finderIdx, b)[0])
    ensures var n, s1 := FindCount(findNum), SortOrder(env, m, s, findNum, finderIdx, b);
      var m1, out := m.(data16 := AfterSort(env, m, s, findNum, finderIdx, b).data16),
        BackOrder(env, m, s, findNum, finderIdx, b);
      && |s1| >= 3 && m1.Hold(s1) && NoDup(s1)
      && BenchValue(env, m, s, findNum, finderIdx, b)
         == CrcTimes(m.Data(out[0]), |s| - 1, RemovedCrc(m1, s1, ProbeAt(finderIdx, n), LastProbe(findNum),
           Score(m, s, finderIdx, n)))
  {
    hide AllFinds, Score, ProbeAt, FindCount, LastProbe, AfterSort, SortOrder, BackOrder, CrcTimes, RemovedCrc,
      Cells.Hold, NoDup, Able;
    OrderHolds(m, AfterSort(env, m, s, findNum, finderIdx, b).data16, s, SortOrder(env, m, s, findNum, finderIdx, b));
  }

  /** The value is a CRC that starts from the score of the finds.  Its message is the head's
      word in the order after the sort by data, once for each node from the probe on while the
      third is out of the list, and the head's word in the order after the sort by index, once
      for each other node. */
  lemma BenchMessage(env: Env, m: Cells, s: seq<nat>, findNum: s16, finderIdx: s16, b: Bench)
    requires BenchReady(env, m, s, b)
    ensures var n, s1 := FindCount(findNum), SortOrder(env, m, s, findNum, finderIdx, b);
      var m1, out := m.(data16 := AfterSort(env, m, s, findNum, finderIdx, b).data16),
        BackOrder(env, m, s, findNum, finderIdx, b);
      && |s1| >= 3 && m1.Hold(s1) && NoDup(s1) && m1.HasCell(s1[0]) && m.HasCell(out[0])
      && RemovedView(m1, s1).Hold(WithoutNext(s1, 1))
      && BenchValue(env, m, s, findNum, finderIdx, b) == CrcOf(
        Copies(m1.Data(s1[0]), NodesFromProbe(RemovedView(m1, s1), WithoutNext(s1, 1), ProbeAt(finderIdx, n),
          LastProbe(findNum)))
        + Copies(m.Data(out[0]), |s| - 1), Score(m, s, finderIdx, n))
  {
    hide *;
    BenchReadyParts(env, m, s, b);
    var n, s1 := FindCount(findNum), SortOrder(env, m, s, findNum, finderIdx, b);
    var m1, out := m.(data16 := AfterSort(env, m, s, findNum, finderIdx, b).data16),
      BackOrder(env, m, s, findNum, finderIdx, b);
    HeadHeld(m, out);
    BenchValueIs(env, m, s, findNum, finderIdx, b);
    HeadHeld(m1, s1);
    RemovedHolds(m1, s1);
    RemovedCrcIs(m1, s1, ProbeAt(finderIdx, n), LastProbe(findNum), Score(m, s, finderIdx, n));
    var k := NodesFromProbe(RemovedView(m1, s1), WithoutNext(s1, 1), ProbeAt(finderIdx, n), LastProbe(findNum));
    CrcOfCopies(m1.Data(s1[0]), k, Score(m, s, finderIdx, n));
    CrcOfCopies(m.Data(out[0]), |s| - 1, CrcOf(Copies(m1.Data(s1[0]), k), Score(m, s, finderIdx, n)));
    CrcOfAppend(Copies(m1.Data(s1[0]), k), Copies(m.Data(out[0]), |s| - 1), Score(m, s, finderIdx, n));
  }

  lemma RemovedCrcIs(m: Cells, s: seq<nat>, pidx: s16, pdata: u16, crc: u16)
    requires |s| >= 3 && m.Hold(s) && NoDup(s)
    ensures m.HasCell(s[0]) && RemovedView(m, s).Hold(WithoutNext(s, 1)) && WithoutNext(s, 1) != []
    ensures RemovedCrc(m, s, pidx, pdata, crc)
      == CrcTimes(m.Data(s[0]), NodesFromProbe(RemovedView(m, s), WithoutNext(s, 1), pidx, pdata), crc)
  {
    hide CrcTimes, NodesFromProbe;
    RemovedHolds(m, s);
  }

  // ------------------------------------------------------- when the list comes back

  /** From a list in which no index occurs twice the order always comes back. */
  lemma CanonicalBack(env: Env, m: Cells, s: seq<nat>, findNum: s16, finderIdx: s16, b: Bench)
    requires BenchReady(env, m, s, b) && Canonical(m, s)
    ensures BackOrder(env, m, s, findNum, finderIdx, b) == s
  {
    hide *;
    CanonicalSorted(m, s);
    KeptIff(env, m, s, findNum, finderIdx, b);
    CanonicalKept(m, s, SortOrder(env, m, s, findNum, finderIdx, b));
  }

  /** Where one find with the index 0 puts the node of place i, if the first match is at j. */
  function PlaceAfter(n: nat, i: nat, j: nat): nat
    requires i < n
  {
    var p := n - 1 - i;
    if j == n || j == 0 || p == 0 then p
    else if i + 1 == j then 1
    else if i >= j then p + 1
    else p
  }

  /** The order after one find whose first match is at j, or that has none. */
  function OneFound(s: seq<nat>, j: nat): (t: seq<nat>)
    requires j <= |s|
    ensures |t| == |s|
  {
    var r := Reversed(s);
    if j == |s| then r else MovedUp(r, |r| - 1 - j)
  }

  lemma FoundAt(s: seq<nat>, i: nat, j: nat)
    requires i < |s| && j <= |s|
    ensures PlaceAfter(|s|, i, j) < |s| && OneFound(s, j)[PlaceAfter(|s|, i, j)] == s[i]
  {
    hide Reversed, MovedUp, PtrAt;
    var r, p := Reversed(s), |s| - 1 - i;
    assert r[p] == s[i];
    if 0 < j < |s| {
      MovedAt(r, |r| - 1 - j, PlaceAfter(|s|, i, j));
      PtrAtIs(r, p);
      PtrAtIs(MovedUp(r, |r| - 1 - j), PlaceAfter(|s|, i, j));
    } else if j == 0 {
      NothingMoved(r);
    }
  }

  lemma NothingMoved(r: seq<nat>)
    requires r != []
    ensures MovedUp(r, |r| - 1) == r
  {
  }

  /** The list order after one find with the index 0, which no sort by data follows. */
  lemma OneFind(env: Env, m: Cells, s: seq<nat>, b: Bench)
    requires BenchReady(env, m, s, b)
    ensures SortOrder(env, m, s, 1, 0, b) == OneFound(s, FindAt(m, s, 0, 0))
  {
    hide *;
    BenchReadyParts(env, m, s, b);
    UnsortedOrder(env, m, s, 1, 0, b);
    CountIs(1);
    FirstFind(m, s, 0, FindCount(1));
  }

  lemma UnsortedOrder(env: Env, m: Cells, s: seq<nat>, findNum: s16, finderIdx: s16, b: Bench)
    requires BenchReady(env, m, s, b) && finderIdx <= 0
    ensures SortOrder(env, m, s, findNum, finderIdx, b) == FindsAfter(m, s, finderIdx, FindCount(findNum)).s
  {
    hide FindsAfter, FindCount;
  }

  lemma TurnOrder(m: Cells, f: Finds, i: u8)
    requires m.Hold(f.s) && |f.s| >= 2
    ensures FindTurn(m, f, i).s == OneFound(f.s, FindAt(m, f.s, f.pidx, i))
  {
    hide FindAt, MovedUp, Reversed, HitValue, MissValue, Cells.Hold, NextProbe, CountUp;
    assert i % 0x100 == i;
  }

  lemma FirstFind(m: Cells, s: seq<nat>, pidx: s16, k: nat)
    requires |s| >= 3 && m.Hold(s) && k == 1
    ensures FindsAfter(m, s, pidx, k).s == OneFound(s, FindAt(m, s, pidx, 0))
  {
    hide *;
    NoFinds(m, s, pidx);
    NextFind(m, s, pidx, k - 1);
    TurnOrder(m, FindsAfter(m, s, pidx, k - 1), 0);
  }

  /** The node in front of the match, which one find moves up, has an index of its own as far
      as the nodes behind it go. */
  lemma MovedAlone(m: Cells, s: seq<nat>, a: nat, c: nat)
    requires IndexSorted(m, s) && a < c < |s| && IndexAt(m, s[a]) == IndexAt(m, s[c])
    ensures a + 1 != FindAt(m, s, 0, 0)
  {
    FirstZero(m, s);
    hide FindAt, IndexAt;
    assert a + 1 < c ==> IndexAt(m, s[a + 1]) <= IndexAt(m, s[c]);
    assert IndexAt(m, s[a]) <= IndexAt(m, s[a + 1]);
  }

  lemma FirstZero(m: Cells, s: seq<nat>)
    requires m.Hold(s)
    ensures var j := FindAt(m, s, 0, 0);
      && (j < |s| ==> IndexAt(m, s[j]) == 0)
      && forall i :: 0 <= i < j ==> IndexAt(m, s[i]) != 0
  {
    hide FindAt;
    var j := FindAt(m, s, 0, 0);
    assert forall i :: 0 <= i < |s| ==> m.HasCell(s[i]);
    assert forall i :: 0 <= i < j ==> !Matches(m, s[i], 0, 0);
  }

  /** One find with the index 0 turns round all nodes of equal index. */
  lemma OneFindReverses(env: Env, m: Cells, s: seq<nat>, b: Bench, a: nat, c: nat)
    requires BenchReady(env, m, s, b) && IndexSorted(m, s) && a < c < |s| && IndexAt(m, s[a]) == IndexAt(m, s[c])
    ensures var t := SortOrder(env, m, s, 1, 0, b); Rank(t, s[c]) < Rank(t, s[a])
  {
    hide *;
    BenchReadyParts(env, m, s, b);
    OneFind(env, m, s, b);
    var j, t := FindAt(m, s, 0, 0), SortOrder(env, m, s, 1, 0, b);
    OrderHolds(m, m.data16, s, t);
    FoundAt(s, a, j);
    FoundAt(s, c, j);
    MovedAlone(m, s, a, c);
    PlacesTurned(|s|, a, c, j);
    RankAt(t, PlaceAfter(|s|, a, j));
    RankAt(t, PlaceAfter(|s|, c, j));
  }

  lemma PlacesTurned(n: nat, a: nat, c: nat, j: nat)
    requires a < c < n && j <= n && a + 1 != j
    ensures PlaceAfter(n, c, j) < PlaceAfter(n, a, j)
  {
  }

  /** The order comes back from every benchmark exactly if no index occurs twice. */
  lemma AlwaysBack(env: Env, m: Cells, s: seq<nat>, b: Bench)
    requires BenchReady(env, m, s, b) && IndexSorted(m, s)
    ensures (forall findNum, finderIdx :: BackOrder(env, m, s, findNum, finderIdx, b) == s) <==> Canonical(m, s)
  {
    hide *;
    if Canonical(m, s) {
      forall findNum, finderIdx
        ensures BackOrder(env, m, s, findNum, finderIdx, b) == s
      {
        CanonicalBack(env, m, s, findNum, finderIdx, b);
      }
    } else {
      CanonicalSorted(m, s);
      var a, c :| 0 <= a < c < |s| && IndexAt(m, s[a]) == IndexAt(m, s[c]);
      OneFindReverses(env, m, s, b, a, c);
      NotBack(env, m, s, 1, 0, b, a, c);
    }
  }

  lemma NotBack(env: Env, m: Cells, s: seq<nat>, findNum: s16, finderIdx: s16, b: Bench, a: nat, c: nat)
    requires BenchReady(env, m, s, b) && IndexSorted(m, s) && a < c < |s| && IndexAt(m, s[a]) == IndexAt(m, s[c])
    requires var t := SortOrder(env, m, s, findNum, finderIdx, b); Rank(t, s[c]) < Rank(t, s[a])
    ensures BackOrder(env, m, s, findNum, finderIdx, b) != s
  {
    hide *;
    var t := SortOrder(env, m, s, findNum, finderIdx, b);
    KeptIff(env, m, s, findNum, finderIdx, b);
    if EqualsKept(m, s, t) {
      KeptPair(m, s, t, a, c);
    }
  }

  lemma KeptIff(env: Env, m: Cells, s: seq<nat>, findNum: s16, finderIdx: s16, b: Bench)
    requires BenchReady(env, m, s, b) && IndexSorted(m, s)
    ensures BackOrder(env, m, s, findNum, finderIdx, b) == s <==>
      EqualsKept(m, s, SortOrder(env, m, s, findNum, finderIdx, b))
  {
    hide *;
    var t := SortOrder(env, m, s, findNum, finderIdx, b);
    BenchReadyParts(env, m, s, b);
    OrderHolds(m, m.data16, s, t);
    BackOrderIs(env, m, s, findNum, finderIdx, b);
    OrderRestored(m, s, t);
  }

  lemma KeptPair(m: Cells, s: seq<nat>, t: seq<nat>, a: nat, c: nat)
    requires a < c < |s| && IndexAt(m, s[a]) == IndexAt(m, s[c]) && EqualsKept(m, s, t)
    ensures Rank(t, s[a]) < Rank(t, s[c])
  {
  }

  // The second list benchmark of an iteration has the finder index -1: it probes for data.

  /** No data word of the list has that low byte. */
  predicate Missing(m: Cells, s: seq<nat>, v: u8) {
    forall k :: 0 <= k < |s| && m.HasCell(s[k]) ==> Low(m.Data(s[k])) != v
  }

  lemma MissingSame(m: Cells, s: seq<nat>, t: seq<nat>, v: u8)
    requires Missing(m, s, v) && multiset(t) == multiset(s)
    ensures Missing(m, t, v)
  {
    forall k | 0 <= k < |t| && m.HasCell(t[k])
      ensures Low(m.Data(t[k])) != v
    {
      assert t[k] in multiset(s);
      var j :| 0 <= j < |s| && s[j] == t[k];
    }
  }

  lemma {:induction false} ProbeStays(m: Cells, s: seq<nat>, k: nat)
    requires m.Hold(s) && |s| >= 2
    ensures FindsAfter(m, s, -1, k).pidx == -1
  {
    hide *;
    if k == 0 {
      NoFinds(m, s, -1);
    } else {
      ProbeStays(m, s, k - 1);
      NextFind(m, s, -1, k - 1);
      TurnProbe(m, FindsAfter(m, s, -1, k - 1), k - 1);
    }
  }

  lemma TurnProbe(m: Cells, f: Finds, i: nat)
    requires m.Hold(f.s) && |f.s| >= 2
    ensures FindTurn(m, f, i).pidx == if f.pidx < 0 then f.pidx else ToS16(f.pidx as int + 1)
  {
    hide FindAt, MovedUp, Reversed, HitValue, MissValue, Cells.Hold, CountUp, ToS16;
  }

  /** A find that misses just reverses the list. */
  lemma MissReverses(m: Cells, s: seq<nat>, v: u8)
    requires m.Hold(s) && |s| >= 2 && Missing(m, s, v)
    ensures FindsAfter(m, s, -1, v + 1).s == Reversed(FindsAfter(m, s, -1, v).s)
  {
    hide *;
    var f := FindsAfter(m, s, -1, v);
    ProbeStays(m, s, v);
    MissingSame(m, s, f.s, v);
    NoMatch(m, f.s, v);
    NextFind(m, s, -1, v);
    TurnOrder(m, f, v);
    NothingFound(f.s);
  }

  lemma NothingFound(s: seq<nat>)
    ensures OneFound(s, |s|) == Reversed(s)
  {
  }

  lemma NoMatch(m: Cells, s: seq<nat>, v: u8)
    requires m.Hold(s) && Missing(m, s, v)
    ensures FindAt(m, s, -1, v) == |s|
  {
    var j := FindAt(m, s, -1, v);
    hide FindAt;
    assert j < |s| ==> m.HasCell(s[j]);
  }

  lemma ReversedRank(s: seq<nat>, x: nat)
    requires NoDup(s) && x in s
    ensures NoDup(Reversed(s)) && Rank(Reversed(s), x) == |s| - 1 - Rank(s, x)
  {
    hide Rank, Reversed;
    NoDupPerm(s, Reversed(s));
    var i :| 0 <= i < |s| && s[i] == x;
    RankAt(s, i);
    RankAt(Reversed(s), |s| - 1 - i);
  }

  /** If a byte is missing then in one of two numbers of finds a pair of equal index changes
      places. */
  lemma OneOfTwoBreaks(env: Env, m: Cells, s: seq<nat>, b: Bench, v: u8, a: nat, c: nat)
    requires BenchReady(env, m, s, b) && IndexSorted(m, s) && Missing(m, s, v)
    requires a < c < |s| && IndexAt(m, s[a]) == IndexAt(m, s[c])
    ensures BackOrder(env, m, s, v, -1, b) != s || BackOrder(env, m, s, v + 1, -1, b) != s
  {
    hide *;
    BenchReadyParts(env, m, s, b);
    UnsortedOrder(env, m, s, v, -1, b);
    UnsortedOrder(env, m, s, v + 1, -1, b);
    CountIs(v);
    CountIs(v + 1);
    MissReverses(m, s, v);
    var t := FindsAfter(m, s, -1, v).s;
    OrderHolds(m, m.data16, s, t);
    SameNodes(t, s);
    ReversedRank(t, s[a]);
    ReversedRank(t, s[c]);
    if Rank(t, s[c]) < Rank(t, s[a]) {
      NotBack(env, m, s, v, -1, b, a, c);
    } else {
      RanksDiffer(t, s[a], s[c], s, a, c);
      NotBack(env, m, s, v + 1, -1, b, a, c);
    }
  }

  lemma CountIs(k: s16)
    requires k >= 0
    ensures FindCount(k) == k
  {
  }

  lemma RanksDiffer(t: seq<nat>, x: nat, y: nat, s: seq<nat>, a: nat, c: nat)
    requires NoDup(s) && a < c < |s| && x == s[a] && y == s[c] && x in t && y in t
    ensures Rank(t, x) != Rank(t, y)
  {
    RankIn(t, x);
    RankIn(t, y);
    hide Rank;
  }

  /** With the finder index -1 alone, if there is a byte that no data word has: the order
      comes back for every number of finds exactly if no index occurs twice. */
  lemma AlwaysBackData(env: Env, m: Cells, s: seq<nat>, b: Bench, v: u8)
    requires BenchReady(env, m, s, b) && IndexSorted(m, s) && Missing(m, s, v)
    ensures (forall findNum :: BackOrder(env, m, s, findNum, -1, b) == s) <==> Canonical(m, s)
  {
    hide *;
    if Canonical(m, s) {
      forall findNum
        ensures BackOrder(env, m, s, findNum, -1, b) == s
      {
        CanonicalBack(env, m, s, findNum, -1, b);
      }
    } else {
      CanonicalSorted(m, s);
      var a, c :| 0 <= a < c < |s| && IndexAt(m, s[a]) == IndexAt(m, s[c]);
      OneOfTwoBreaks(env, m, s, b, v, a, c);
    }
  }
}
