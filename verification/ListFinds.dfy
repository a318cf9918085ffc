/** The find phase of `core_bench_list`: the list is searched, reversed and rearranged, and
    hits, misses and single bits of the data are counted. */
module ListFinds {
  import opened MachineInts
  import opened ListOrder
  import opened ListMemory
  import opened ListSort
  import opened ListOps

  // -------------------------------------------------------------- the find phase

  /** The list r after the node behind place k has been moved to the second place. */
  function MovedUp(r: seq<nat>, k: nat): (t: seq<nat>)
    requires k < |r|
    ensures |t| == |r| && multiset(t) == multiset(r)
  {
    if k + 1 < |r| then
      assert r == [r[0]] + r[1..k + 1] + [r[k + 1]] + r[k + 2..];
      [r[0], r[k + 1]] + r[1..k + 1] + r[k + 2..]
    else r
  }

  /** List order, result, hits, misses and probe index between two finds. */
  datatype Finds = Finds(s: seq<nat>, retval: u16, found: u16, missed: u16, pidx: s16)

  /** `x++` and `x += bit` on a 16-bit counter */
  function CountUp(x: u16): u16 {
    (x as int + 1) % 0x1_0000
  }

  function AddBit(x: u16, bit: int): u16 {
    (x as int + bit) % 0x1_0000
  }

  /** The result after a hit on a data word, and after a miss. */
  function HitValue(d: u16, retval: u16): u16 {
    if d % 2 == 1 then AddBit(retval, d / 0x200 % 2) else retval
  }

  function MissValue(d: u16, retval: u16): u16 {
    AddBit(retval, d / 0x100 % 2)
  }

  function NextProbe(pidx: s16): s16 {
    if pidx >= 0 then ToS16(pidx as int + 1) else pidx
  }

  /** What the i-th find does. */
  function FindTurn(m: Cells, f: Finds, i: nat): (g: Finds)
    requires m.Hold(f.s) && |f.s| >= 2
    ensures multiset(g.s) == multiset(f.s) && |g.s| == |f.s|
  {
    var j, r := FindAt(m, f.s, f.pidx, i % 0x100), Reversed(f.s);
    if j == |f.s| then
      var x := f.s[|f.s| - 2];
      Finds(r, MissValue(m.Data(x), f.retval), f.found, CountUp(f.missed), NextProbe(f.pidx))
    else
      Finds(MovedUp(r, |r| - 1 - j), HitValue(m.Data(f.s[j]), f.retval), CountUp(f.found), f.missed, NextProbe(f.pidx))
  }

  /** The state after k finds. */
  function FindsAfter(m: Cells, s: seq<nat>, pidx: s16, k: nat): (f: Finds)
    requires m.Hold(s) && |s| >= 2
    ensures multiset(f.s) == multiset(s) && |f.s| == |s|
    ensures m.Hold(f.s)
  {
    if k == 0 then Finds(s, 0, 0, 0, pidx)
    else
      var f := FindsAfter(m, s, pidx, k - 1);
      var g := FindTurn(m, f, k - 1);
      HoldPerm(m, f.s, g.s);
      g
  }

  lemma MovedAt(r: seq<nat>, k: nat, i: nat)
    requires k + 1 < |r|
    ensures PtrAt(MovedUp(r, k), i) ==
      if i == 0 then r[0] else if i == 1 then r[k + 1] else if i <= k + 1 then r[i - 1] else PtrAt(r, i)
  {
  }

  /** The three assignments that unlink the node behind place k and link it in
      behind the head. */
  function Relinked(next: seq<Ptr>, head: nat, x: nat, f: nat): seq<Ptr>
    requires head < |next| && x < |next| && f < |next|
  {
    var n1 := next[x := next[f]];
    var n2 := n1[f := n1[head]];
    n2[head := f]
  }

  lemma RelinkedAt(next: seq<Ptr>, list: Ptr, r: seq<nat>, k: nat, o: nat)
    requires IsList(next, list, r) && k + 1 < |r| && o < |r|
    ensures r[0] < |next| && r[k] < |next| && r[k + 1] < |next| && r[o] < |next|
    ensures Relinked(next, r[0], r[k], r[k + 1])[r[o]] ==
      if o == 0 then r[k + 1]
      else if o == k + 1 then (if k == 0 then PtrAt(r, 2) else PtrAt(r, 1))
      else if o == k then PtrAt(r, k + 2)
      else PtrAt(r, o + 1)
  {
    assert r[0] < |next| && next[r[0]] == PtrAt(r, 1);
    assert r[k] < |next|;
    assert r[k + 1] < |next| && next[r[k + 1]] == PtrAt(r, k + 2);
    assert r[o] < |next| && next[r[o]] == PtrAt(r, o + 1);
    assert (o != 0 ==> r[o] != r[0]) && (o < k ==> r[o] != r[k]) && (k < o ==> r[o] != r[k]);
    assert (o < k + 1 ==> r[o] != r[k + 1]) && (k + 1 < o ==> r[o] != r[k + 1]);
    assert k > 0 ==> r[0] != r[k];
    assert r[0] != r[k + 1] && r[k] != r[k + 1];
  }

  lemma MovedLinkAt(next: seq<Ptr>, list: Ptr, r: seq<nat>, k: nat, i: nat)
    requires IsList(next, list, r) && k + 1 < |r| && i < |r|
    ensures r[0] < |next| && r[k] < |next| && r[k + 1] < |next|
    ensures var t := MovedUp(r, k); t[i] < |next| && Relinked(next, r[0], r[k], r[k + 1])[t[i]] == PtrAt(t, i + 1)
  {
    var t := MovedUp(r, k);
    PtrAtIs(t, i);
    PtrAtIs(t, i + 1);
    PtrAtIs(r, i);
    PtrAtIs(r, k + 1);
    PtrAtIs(r, k + 2);
    PtrAtIs(r, i + 1);
    PtrAtIs(r, 1);
    PtrAtIs(r, 2);
    MovedAt(r, k, i);
    MovedAt(r, k, i + 1);
    RelinkedAt(next, list, r, k, 0);
    hide *;
    if i == 0 {
    } else if i == 1 {
      RelinkedAt(next, list, r, k, k + 1);
    } else if i <= k + 1 {
      RelinkedAt(next, list, r, k, i - 1);
    } else {
      RelinkedAt(next, list, r, k, i);
    }
  }

  lemma PtrAtIs(s: seq<nat>, k: nat)
    ensures k < |s| ==> PtrAt(s, k) == s[k]
  {
  }

  lemma MovedLinks(next: seq<Ptr>, list: Ptr, r: seq<nat>, k: nat)
    requires IsList(next, list, r) && k + 1 < |r|
    ensures r[0] < |next| && r[k] < |next| && r[k + 1] < |next|
    ensures IsList(Relinked(next, r[0], r[k], r[k + 1]), list, MovedUp(r, k))
  {
    var t := MovedUp(r, k);
    MovedHead(next, list, r, k);
    MovedLinkAt(next, list, r, k, 0);
    hide *;
    var n3 := Relinked(next, r[0], r[k], r[k + 1]);
    forall i | 0 <= i < |t|
      ensures t[i] < |n3| && n3[t[i]] == PtrAt(t, i + 1)
    {
      MovedLinkAt(next, list, r, k, i);
    }
    IsListIntro(n3, list, t);
  }

  lemma MovedHead(next: seq<Ptr>, list: Ptr, r: seq<nat>, k: nat)
    requires IsList(next, list, r) && k + 1 < |r|
    ensures list == PtrAt(MovedUp(r, k), 0) && NoDup(MovedUp(r, k))
    ensures r[0] < |next| && r[k] < |next| && r[k + 1] < |next|
    ensures |Relinked(next, r[0], r[k], r[k + 1])| == |next|
  {
    ListStart(next, list, r, k);
    MovedAt(r, k, 0);
    RelinkedLength(next, r[0], r[k], r[k + 1]);
    hide *;
    NoDupPerm(r, MovedUp(r, k));
  }

  lemma ListStart(next: seq<Ptr>, list: Ptr, r: seq<nat>, k: nat)
    requires IsList(next, list, r) && k + 1 < |r|
    ensures r[0] < |next| && r[k] < |next| && r[k + 1] < |next| && list == r[0] && NoDup(r)
  {
  }

  lemma RelinkedLength(next: seq<Ptr>, head: nat, x: nat, f: nat)
    requires head < |next| && x < |next| && f < |next|
    ensures |Relinked(next, head, x, f)| == |next|
  {
  }

  lemma SameOutsidePerm(s: seq<nat>, t: seq<nat>, a: seq<Ptr>, b: seq<Ptr>)
    requires SameOutside(s, a, b) && multiset(s) == multiset(t)
    ensures SameOutside(t, a, b)
  {
    forall x | x in s
      ensures x in t
    {
      assert x in multiset(t);
    }
  }

  /** "Cache next item at the head of the list (if any)". */
  method CacheNext(mem: Memory, thisFind: Ptr, list: Ptr, ghost r: seq<nat>, ghost k: nat)
    requires IsList(mem.next, list, r) && k < |r| && thisFind == r[k]
    modifies mem`next
    ensures IsList(mem.next, list, MovedUp(r, k)) && SameOutside(r, old(mem.next), mem.next)
  {
    LinkAt(mem.next, list, r, k);
    if mem.next[thisFind] != NULL {
      MovedLinks(mem.next, list, r, k);
      RelinkedInside(mem.next, r, r[0], r[k], r[k + 1]);
      hide *;
      var finder := mem.next[thisFind];
      mem.next := mem.next[thisFind := mem.next[finder]];
      mem.next := mem.next[finder := mem.next[list]];
      mem.next := mem.next[list := finder];
    }
  }

  lemma LinkAt(next: seq<Ptr>, list: Ptr, r: seq<nat>, k: nat)
    requires IsList(next, list, r) && k < |r|
    ensures r[k] < |next| && next[r[k]] == PtrAt(r, k + 1) && list == r[0]
    ensures k + 1 < |r| <==> next[r[k]] != NULL
    ensures k + 1 < |r| ==> next[r[k]] == r[k + 1]
    ensures k + 1 == |r| ==> MovedUp(r, k) == r
  {
  }

  lemma RelinkedInside(next: seq<Ptr>, r: seq<nat>, head: nat, x: nat, f: nat)
    requires head < |next| && x < |next| && f < |next| && head in r && x in r && f in r
    ensures SameOutside(r, next, Relinked(next, head, x, f))
    ensures Relinked(next, head, x, f) ==
      var n1 := next[x := next[f]]; var n2 := n1[f := n1[head]]; n2[head := f]
  {
  }

  /** The value is in the list: use its data and cache the next item at the head. */
  method OnHit(mem: Memory, thisFind: nat, list: Ptr, retval0: u16, ghost s0: seq<nat>, ghost r: seq<nat>, ghost k: nat)
    returns (retval: u16)
    requires mem.View().HasCell(thisFind) && IsList(mem.next, list, r) && k < |r| && thisFind == r[k]
      && multiset(r) == multiset(s0)
    modifies mem`next
    ensures IsList(mem.next, list, MovedUp(r, k)) && SameOutside(s0, old(mem.next), mem.next)
    ensures retval == HitValue(mem.View().Data(thisFind), retval0)
  {
    hide IsList, MovedUp, SameOutside;
    retval := retval0;
    var d := mem.data16[mem.info[thisFind]];
    if d % 2 == 1 {
      retval := AddBit(retval, d / 0x200 % 2);
    }
    CacheNext(mem, thisFind, list, r, k);
    SameOutsidePerm(r, s0, old(mem.next), mem.next);
  }

  /** The value is not in the list: use the data behind the new head. */
  method OnMiss(mem: Memory, list: Ptr, retval0: u16, ghost r: seq<nat>) returns (retval: u16)
    requires |r| >= 2 && mem.View().HasCell(r[1]) && IsList(mem.next, list, r)
    ensures retval == MissValue(mem.View().Data(r[1]), retval0)
  {
    LinkAt(mem.next, list, r, 0);
    retval := AddBit(retval0, mem.data16[mem.info[mem.next[list]]] / 0x100 % 2);
  }

  /** One turn of the find loop. */
  method FindOnce(mem: Memory, list0: Ptr, pidx0: s16, pdata: u16, retval0: u16, found0: u16, missed0: u16,
                  ghost s0: seq<nat>, ghost f: Finds, ghost i: nat)
    returns (list: Ptr, pidx: s16, retval: u16, found: u16, missed: u16)
    requires mem.View().Hold(f.s) && |f.s| >= 2 && IsList(mem.next, list0, f.s) && multiset(f.s) == multiset(s0)
    requires pidx0 == f.pidx && retval0 == f.retval && found0 == f.found && missed0 == f.missed && pdata == i % 0x100
    modifies mem`next
    ensures var g := FindTurn(mem.View(), f, i);
      IsList(mem.next, list, g.s) && Finds(g.s, retval, found, missed, pidx) == g
    ensures SameOutside(s0, old(mem.next), mem.next)
  {
    hide IsList, FindAt, MovedUp, SameOutside, Reversed, CountUp, HitValue, MissValue, ToS16, Cells.Data, Matches;
    ghost var m, r := mem.View(), Reversed(f.s);
    ghost var j := FindAt(m, f.s, f.pidx, i % 0x100);
    pidx, retval, found, missed := pidx0, retval0, found0, missed0;
    var thisFind := CoreListFind(mem, list0, pidx, pdata, f.s);
    list := CoreListReverse(mem, list0, f.s);
    SameOutsidePerm(f.s, s0, old(mem.next), mem.next);
    if thisFind == NULL {
      missed := CountUp(missed);
      retval := OnMiss(mem, list, retval, r);
    } else {
      ghost var n1 := mem.next;
      found := CountUp(found);
      retval := OnHit(mem, thisFind, list, retval, s0, r, |r| - 1 - j);
      SameOutsideTrans(s0, old(mem.next), n1, mem.next);
    }
    if pidx >= 0 {
      pidx := ToS16(pidx as int + 1);
    }
  }

  // ------------------------------------------------------------- what the finds count

  /** The index that turn i looks for: one more every turn, until it is negative. */
  function ProbeAt(finderIdx: s16, i: nat): s16 {
    if finderIdx < 0 then finderIdx else if finderIdx + i < 0x8000 then finderIdx + i else -0x8000
  }

  /** Does any node of the list, in whatever order, have what turn i looks for? */
  predicate Present(m: Cells, s: seq<nat>, finderIdx: s16, i: nat)
    requires m.Hold(s)
  {
    exists k :: 0 <= k < |s| && (if ProbeAt(finderIdx, i) >= 0 then m.idx[m.info[s[k]]] == ProbeAt(finderIdx, i)
                                 else m.data16[m.info[s[k]]] % 0x100 == i % 0x100)
  }

  /** How many of the first n turns look for something the list has. */
  function Hits(m: Cells, s: seq<nat>, finderIdx: s16, n: nat): (h: nat)
    requires m.Hold(s)
    ensures h <= n
  {
    if n == 0 then 0 else Hits(m, s, finderIdx, n - 1) + (if Present(m, s, finderIdx, n - 1) then 1 else 0)
  }

  /** The bit that turn i takes from the list t: bit 9 of the first match if that is odd;
      without a match bit 8 of the last node but one, which the reversal puts behind the head. */
  function UsedBit(m: Cells, t: seq<nat>, finderIdx: s16, i: nat): nat
    requires m.Hold(t) && |t| >= 2
  {
    var j := FindAt(m, t, ProbeAt(finderIdx, i), i % 0x100);
    if j == |t| then Bit(m.Data(t[|t| - 2]), 8)
    else if Bit(m.Data(t[j]), 0) == 1 then Bit(m.Data(t[j]), 9)
    else 0
  }

  /** The bits of the first n turns, each taken from the list as it is then. */
  function UsedBits(m: Cells, s: seq<nat>, finderIdx: s16, n: nat): (b: nat)
    requires m.Hold(s) && |s| >= 2
    ensures b <= n
  {
    if n == 0 then 0 else
      UsedBits(m, s, finderIdx, n - 1) + UsedBit(m, FindsAfter(m, s, finderIdx, n - 1).s, finderIdx, n - 1)
  }

  /** The value of the whole phase, on 16 bits. */
  function Score(m: Cells, s: seq<nat>, finderIdx: s16, n: nat): u16
    requires m.Hold(s) && |s| >= 2
  {
    var hits := Hits(m, s, finderIdx, n);
    (4 * hits - (n - hits) + UsedBits(m, s, finderIdx, n)) % 0x1_0000
  }

  /** Four for each hit, minus one for each miss, and the bits. */
  lemma ScoreParts(m: Cells, s: seq<nat>, finderIdx: s16, n: nat)
    requires m.Hold(s) && |s| >= 2
    ensures var hits := Hits(m, s, finderIdx, n);
      Score(m, s, finderIdx, n) == (4 * hits - (n - hits) + UsedBits(m, s, finderIdx, n)) % 0x1_0000
  {
    hide Hits, UsedBits;
  }

  lemma NextFind(m: Cells, s: seq<nat>, pidx: s16, k: nat)
    requires m.Hold(s) && |s| >= 2
    ensures FindsAfter(m, s, pidx, k + 1) == FindTurn(m, FindsAfter(m, s, pidx, k), k)
  {
    hide FindTurn, Cells.Hold;
  }

  lemma NoFinds(m: Cells, s: seq<nat>, pidx: s16)
    requires m.Hold(s) && |s| >= 2
    ensures FindsAfter(m, s, pidx, 0) == Finds(s, 0, 0, 0, pidx)
  {
    hide FindTurn, Cells.Hold;
  }

  lemma ProbeNext(finderIdx: s16, i: nat)
    ensures ProbeAt(finderIdx, 0) == finderIdx
    ensures NextProbe(ProbeAt(finderIdx, i)) == ProbeAt(finderIdx, i + 1)
  {
  }

  /** The data bits by position. */
  lemma WordBits(d: u16)
    ensures Bit(d, 0) == d % 2 && Bit(d, 8) == d / 0x100 % 2 && Bit(d, 9) == d / 0x200 % 2
  {
    Pow2Values();
    assert Pow2(9) == 0x200;
  }

  /** Finding depends on which nodes the list has, not on their order. */
  lemma PresentFound(m: Cells, s: seq<nat>, t: seq<nat>, finderIdx: s16, i: nat)
    requires m.Hold(s) && m.Hold(t) && multiset(t) == multiset(s)
    ensures Present(m, s, finderIdx, i) <==> FindAt(m, t, ProbeAt(finderIdx, i), i % 0x100) < |t|
  {
    var p := ProbeAt(finderIdx, i);
    var j := FindAt(m, t, p, i % 0x100);
    hide FindAt, ProbeAt;
    if j < |t| {
      assert t[j] in multiset(s);
      var k :| 0 <= k < |s| && s[k] == t[j];
    }
    if k :| 0 <= k < |s| && Matches(m, s[k], p, i % 0x100) {
      assert s[k] in multiset(t);
      var l :| 0 <= l < |t| && t[l] == s[k];
    }
  }

  /** What one turn adds to the counters. */
  lemma TurnCounts(m: Cells, f: Finds, finderIdx: s16, i: nat)
    requires m.Hold(f.s) && |f.s| >= 2 && f.pidx == ProbeAt(finderIdx, i)
    ensures var g, hit := FindTurn(m, f, i), FindAt(m, f.s, f.pidx, i % 0x100) < |f.s|;
      && g.pidx == ProbeAt(finderIdx, i + 1)
      && g.found == (if hit then CountUp(f.found) else f.found)
      && g.missed == (if hit then f.missed else CountUp(f.missed))
      && g.retval == AddBit(f.retval, UsedBit(m, f.s, finderIdx, i))
  {
    hide *;
    ProbeNext(finderIdx, i);
    var j := FindAt(m, f.s, f.pidx, i % 0x100);
    ValueBit(m, f, finderIdx, i);
    TurnParts(m, f, i);
  }

  lemma TurnParts(m: Cells, f: Finds, i: nat)
    requires m.Hold(f.s) && |f.s| >= 2
    ensures var g, j := FindTurn(m, f, i), FindAt(m, f.s, f.pidx, i % 0x100);
      && g.pidx == NextProbe(f.pidx)
      && (if j == |f.s| then
            g.found == f.found && g.missed == CountUp(f.missed)
              && g.retval == MissValue(m.Data(f.s[|f.s| - 2]), f.retval)
          else g.found == CountUp(f.found) && g.missed == f.missed && g.retval == HitValue(m.Data(f.s[j]), f.retval))
  {
    hide FindAt, HitValue, MissValue, NextProbe, MovedUp, Reversed, CountUp;
  }

  lemma ValueBit(m: Cells, f: Finds, finderIdx: s16, i: nat)
    requires m.Hold(f.s) && |f.s| >= 2 && f.pidx == ProbeAt(finderIdx, i)
    ensures var j := FindAt(m, f.s, f.pidx, i % 0x100);
      AddBit(f.retval, UsedBit(m, f.s, finderIdx, i)) ==
        if j == |f.s| then MissValue(m.Data(f.s[|f.s| - 2]), f.retval) else HitValue(m.Data(f.s[j]), f.retval)
  {
    hide ProbeAt, FindAt, Bit, AddBit;
    var j := FindAt(m, f.s, f.pidx, i % 0x100);
    var d := m.Data(f.s[if j == |f.s| then |f.s| - 2 else j]);
    WordBits(d);
    NoBit(f.retval);
  }

  lemma NoBit(x: u16)
    ensures AddBit(x, 0) == x
  {
  }

  lemma WrapUp(x: u16, n: nat, b: nat)
    requires x == n % 0x1_0000
    ensures CountUp(x) == (n + 1) % 0x1_0000 && AddBit(x, b) == (n + b) % 0x1_0000
  {
  }

  /** After n turns the counters hold, on 16 bits, the hits, the misses and the used bits. */
  lemma {:induction false} FindsCounted(m: Cells, s: seq<nat>, finderIdx: s16, n: nat)
    requires m.Hold(s) && |s| >= 2
    ensures var f, hits := FindsAfter(m, s, finderIdx, n), Hits(m, s, finderIdx, n);
      && f.pidx == ProbeAt(finderIdx, n) && f.found == hits % 0x1_0000 && f.missed == (n - hits) % 0x1_0000
      && f.retval == UsedBits(m, s, finderIdx, n) % 0x1_0000
  {
    hide *;
    if n == 0 {
      NoFinds(m, s, finderIdx);
      ProbeNext(finderIdx, 0);
      NothingCounted(m, s, finderIdx);
    } else {
      var f, hits := FindsAfter(m, s, finderIdx, n - 1), Hits(m, s, finderIdx, n - 1);
      FindsCounted(m, s, finderIdx, n - 1);
      NextFind(m, s, finderIdx, n - 1);
      TurnCounts(m, f, finderIdx, n - 1);
      PresentFound(m, s, f.s, finderIdx, n - 1);
      CountsNext(m, s, finderIdx, n);
      WrapUp(f.found, hits, 0);
      WrapUp(f.missed, n - 1 - hits, 0);
      WrapUp(f.retval, UsedBits(m, s, finderIdx, n - 1), UsedBit(m, f.s, finderIdx, n - 1));
    }
  }

  lemma NothingCounted(m: Cells, s: seq<nat>, finderIdx: s16)
    requires m.Hold(s) && |s| >= 2
    ensures Hits(m, s, finderIdx, 0) == 0 && UsedBits(m, s, finderIdx, 0) == 0
  {
  }

  lemma CountsNext(m: Cells, s: seq<nat>, finderIdx: s16, n: nat)
    requires m.Hold(s) && |s| >= 2 && n > 0
    ensures Hits(m, s, finderIdx, n)
      == Hits(m, s, finderIdx, n - 1) + (if Present(m, s, finderIdx, n - 1) then 1 else 0)
    ensures UsedBits(m, s, finderIdx, n) == UsedBits(m, s, finderIdx, n - 1)
      + UsedBit(m, FindsAfter(m, s, finderIdx, n - 1).s, finderIdx, n - 1)
  {
    hide Present, FindsAfter, UsedBit;
  }

  /** `retval += found * 4 - missed` makes the score of them. */
  lemma ScoreIs(m: Cells, s: seq<nat>, finderIdx: s16, n: nat)
    requires m.Hold(s) && |s| >= 2
    ensures var f := FindsAfter(m, s, finderIdx, n);
      (f.retval as int + f.found as int * 4 - f.missed as int) % 0x1_0000 == Score(m, s, finderIdx, n)
  {
    hide *;
    FindsCounted(m, s, finderIdx, n);
    ScoreParts(m, s, finderIdx, n);
    var hits := Hits(m, s, finderIdx, n);
    WrapSum(UsedBits(m, s, finderIdx, n), hits, n - hits);
  }

  lemma WrapSum(b: nat, h: nat, k: nat)
    ensures (b % 0x1_0000 + h % 0x1_0000 * 4 - k % 0x1_0000) % 0x1_0000 == (4 * h - k + b) % 0x1_0000
  {
  }

  /** Even words only, all of them found: four times the number of finds. */
  lemma {:induction false} AllFound(m: Cells, s: seq<nat>, finderIdx: s16, n: nat)
    requires m.Hold(s) && |s| >= 2
    requires forall i :: 0 <= i < n ==> Present(m, s, finderIdx, i)
    requires forall k :: 0 <= k < |s| ==> m.Data(s[k]) % 2 == 0
    ensures Score(m, s, finderIdx, n) == 4 * n % 0x1_0000
  {
    hide *;
    NoBitsUsed(m, s, finderIdx, n, true);
    HitsAll(m, s, finderIdx, n, true);
    ScoreParts(m, s, finderIdx, n);
  }

  /** Words with bit 8 clear and no find that hits: minus the number of finds. */
  lemma {:induction false} NoneFound(m: Cells, s: seq<nat>, finderIdx: s16, n: nat)
    requires m.Hold(s) && |s| >= 2
    requires forall i :: 0 <= i < n ==> !Present(m, s, finderIdx, i)
    requires forall k :: 0 <= k < |s| ==> m.Data(s[k]) / 0x100 % 2 == 0
    ensures Score(m, s, finderIdx, n) == -(n as int) % 0x1_0000
  {
    hide *;
    NoBitsUsed(m, s, finderIdx, n, false);
    HitsAll(m, s, finderIdx, n, false);
    ScoreParts(m, s, finderIdx, n);
  }

  lemma {:induction false} HitsAll(m: Cells, s: seq<nat>, finderIdx: s16, n: nat, hit: bool)
    requires m.Hold(s) && forall i :: 0 <= i < n ==> Present(m, s, finderIdx, i) == hit
    ensures Hits(m, s, finderIdx, n) == if hit then n else 0
  {
    hide Present;
    if n > 0 {
      HitsAll(m, s, finderIdx, n - 1, hit);
    }
  }

  /** The bit looked at is clear in all words. */
  lemma {:induction false} NoBitsUsed(m: Cells, s: seq<nat>, finderIdx: s16, n: nat, hit: bool)
    requires m.Hold(s) && |s| >= 2
    requires forall i :: 0 <= i < n ==> Present(m, s, finderIdx, i) == hit
    requires forall k :: 0 <= k < |s| ==> (if hit then m.Data(s[k]) % 2 else m.Data(s[k]) / 0x100 % 2) == 0
    ensures UsedBits(m, s, finderIdx, n) == 0
  {
    hide *;
    if n > 0 {
      NoBitsUsed(m, s, finderIdx, n - 1, hit);
      var t := FindsAfter(m, s, finderIdx, n - 1).s;
      PresentFound(m, s, t, finderIdx, n - 1);
      NoBitUsed(m, s, t, finderIdx, n - 1, hit);
      CountsNext(m, s, finderIdx, n);
    } else {
      NothingCounted(m, s, finderIdx);
    }
  }

  lemma NoBitUsed(m: Cells, s: seq<nat>, t: seq<nat>, finderIdx: s16, i: nat, hit: bool)
    requires m.Hold(s) && |s| >= 2 && m.Hold(t) && |t| == |s| && multiset(t) == multiset(s)
    requires (FindAt(m, t, ProbeAt(finderIdx, i), i % 0x100) < |t|) == hit
    requires forall k :: 0 <= k < |s| ==> (if hit then m.Data(s[k]) % 2 else m.Data(s[k]) / 0x100 % 2) == 0
    ensures UsedBit(m, t, finderIdx, i) == 0
  {
    var j := FindAt(m, t, ProbeAt(finderIdx, i), i % 0x100);
    var x := t[if hit then j else |t| - 2];
    hide Bit, FindAt, ProbeAt;
    assert x in multiset(s);
    var k :| 0 <= k < |s| && s[k] == x;
    WordBits(m.Data(x));
  }

  // ----------------------------------------------------------------- the whole loop

  /** The low byte the last find looked for. */
  function LastProbe(findNum: s16): u16 {
    if findNum > 0 then (findNum - 1) % 0x100 else 0
  }

  function FindCount(findNum: s16): nat {
    if findNum > 0 then findNum else 0
  }

  /** The find loop. */
  method FindLoop(mem: Memory, list0: Ptr, findNum: s16, finderIdx: s16, ghost s: seq<nat>)
    returns (list: Ptr, pidx: s16, pdata: u16, retval: u16, found: u16, missed: u16)
    requires mem.View().Hold(s) && |s| >= 2 && IsList(mem.next, list0, s)
    modifies mem`next
    ensures var f := FindsAfter(mem.View(), s, finderIdx, FindCount(findNum));
      IsList(mem.next, list, f.s) && f == Finds(f.s, retval, found, missed, pidx)
    ensures pdata == LastProbe(findNum) && SameOutside(s, old(mem.next), mem.next)
  {
    hide FindTurn, IsList, Cells.Hold, SameOutside;
    SameOutsideRefl(s, mem.next);
    list, pidx, pdata, retval, found, missed := list0, finderIdx, 0, 0, 0, 0;
    var i: int := 0;
    ghost var m := mem.View();
    while i < findNum
      invariant 0 <= i <= FindCount(findNum)
      invariant IsList(mem.next, list, FindsAfter(m, s, finderIdx, i).s)
      invariant FindsAfter(m, s, finderIdx, i) == Finds(FindsAfter(m, s, finderIdx, i).s, retval, found, missed, pidx)
      invariant pdata == LastProbe(i)
      invariant SameOutside(s, old(mem.next), mem.next)
    {
      ghost var n1 := mem.next;
      pdata := i % 0x100;
      list, pidx, retval, found, missed := FindOnce(mem, list, pidx, pdata, retval, found, missed, s,
        FindsAfter(m, s, finderIdx, i), i);
      SameOutsideTrans(s, old(mem.next), n1, mem.next);
      i := i + 1;
    }
  }

  /** All finds and `retval += found * 4 - missed`: the value is the score of the list and of
      what the finds look for. */
  method FindPhase(mem: Memory, list0: Ptr, findNum: s16, finderIdx: s16, ghost s: seq<nat>)
    returns (list: Ptr, pidx: s16, pdata: u16, retval: u16)
    requires mem.View().Hold(s) && |s| >= 2 && IsList(mem.next, list0, s)
    modifies mem`next
    ensures IsList(mem.next, list, FindsAfter(mem.View(), s, finderIdx, FindCount(findNum)).s)
    ensures pidx == ProbeAt(finderIdx, FindCount(findNum)) && pdata == LastProbe(findNum)
    ensures retval == Score(mem.View(), s, finderIdx, FindCount(findNum))
    ensures var n, hits := FindCount(findNum), Hits(mem.View(), s, finderIdx, FindCount(findNum));
      retval == (4 * hits - (n - hits) + UsedBits(mem.View(), s, finderIdx, n)) % 0x1_0000
    ensures SameOutside(s, old(mem.next), mem.next)
  {
    hide *;
    var found, missed;
    list, pidx, pdata, retval, found, missed := FindLoop(mem, list0, findNum, finderIdx, s);
    FindsCounted(mem.View(), s, finderIdx, FindCount(findNum));
    ScoreIs(mem.View(), s, finderIdx, FindCount(findNum));
    ScoreParts(mem.View(), s, finderIdx, FindCount(findNum));
    retval := (retval as int + found as int * 4 - missed as int) % 0x1_0000;
  }
}
