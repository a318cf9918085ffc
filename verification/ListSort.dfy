/** The in-place, non-recursive mergesort of `core_list_join.c`. */
module ListSort {
  import opened MachineInts
  import opened ListOrder
  import opened ListMemory
  import opened ListCompare
  import opened ListTrace

  // --------------------------------------------------------- the shape of a pass

  /** w is linked in order from `list` to `tail`; where `tail` points is still open. */
  predicate Written(next: seq<Ptr>, w: seq<nat>, list: Ptr, tail: Ptr) {
    && list == PtrAt(w, 0)
    && tail == (if w == [] then NULL else w[|w| - 1])
    && Segment(next, w)
  }

  /** The nodes of s follow one another; where the last one points does not matter. */
  predicate Segment(next: seq<Ptr>, s: seq<nat>) {
    forall k :: 0 <= k < |s| ==> s[k] < |next| && (k + 1 < |s| ==> next[s[k]] == s[k + 1])
  }

  predicate Disjoint(s: seq<nat>, t: seq<nat>) {
    forall i, j :: 0 <= i < |s| && 0 <= j < |t| ==> s[i] != t[j]
  }

  /** w written so far, ps and qs left to merge, rest still to come. */
  predicate Shape(next: seq<Ptr>, w: seq<nat>, ps: seq<nat>, qs: seq<nat>, list: Ptr, tail: Ptr) {
    && Written(next, w, list, tail) && Segment(next, ps) && Links(next, qs)
    && NoDup(w) && NoDup(ps) && NoDup(qs)
    && Disjoint(w, ps) && Disjoint(w, qs) && Disjoint(ps, qs)
  }

  function Emitted(next: seq<Ptr>, tail: Ptr, e: nat): seq<Ptr>
    requires tail == NULL || 0 <= tail < |next|
  {
    if tail == NULL then next else next[tail := e]
  }

  lemma EmitWritten(next: seq<Ptr>, w: seq<nat>, list: Ptr, tail: Ptr, e: nat)
    requires Written(next, w, list, tail) && NoDup(w) && e < |next|
    requires forall k :: 0 <= k < |w| ==> w[k] != e
    ensures tail == NULL || 0 <= tail < |next|
    ensures Written(Emitted(next, tail, e), w + [e], if tail == NULL then e else list, e)
    ensures NoDup(w + [e])
  {
  }

  lemma EmitElsewhere(next: seq<Ptr>, w: seq<nat>, list: Ptr, tail: Ptr, e: nat, s: seq<nat>)
    requires Written(next, w, list, tail) && Disjoint(w, s)
    ensures tail == NULL || 0 <= tail < |next|
    ensures Segment(next, s) ==> Segment(Emitted(next, tail, e), s)
    ensures Links(next, s) ==> Links(Emitted(next, tail, e), s)
  {
    var next' := Emitted(next, tail, e);
    if Segment(next, s) || Links(next, s) {
      forall k | 0 <= k < |s|
        ensures s[k] < |next| && next'[s[k]] == next[s[k]]
      {
        if w != [] {
          assert w[|w| - 1] != s[k];
        }
      }
    }
  }

  /** Moving the head of s behind w keeps everything apart. */
  lemma MoveHead(w: seq<nat>, s: seq<nat>, t: seq<nat>)
    requires s != [] && NoDup(s) && Disjoint(w, s) && Disjoint(w, t)
    requires Disjoint(s, t) || Disjoint(t, s)
    ensures NoDup(s[1..]) && Disjoint(w + [s[0]], s[1..]) && Disjoint(w + [s[0]], t)
    ensures Disjoint(s, t) ==> Disjoint(s[1..], t)
    ensures Disjoint(t, s) ==> Disjoint(t, s[1..])
    ensures forall k :: 0 <= k < |w| ==> w[k] != s[0]
  {
  }

  lemma DropSegment(next: seq<Ptr>, s: seq<nat>)
    requires s != []
    ensures Segment(next, s) ==> Segment(next, s[1..]) && 0 <= s[0] < |next| && (|s| > 1 ==> next[s[0]] == s[1])
    ensures Links(next, s) ==> Links(next, s[1..]) && 0 <= s[0] < |next| && next[s[0]] == PtrAt(s[1..], 0)
  {
  }

  /** Taking the head of the first run. */
  lemma ShapeTakeP(next: seq<Ptr>, w: seq<nat>, ps: seq<nat>, qs: seq<nat>, list: Ptr, tail: Ptr)
    requires Shape(next, w, ps, qs, list, tail) && ps != []
    ensures tail == NULL || 0 <= tail < |next|
    ensures Shape(if tail == NULL then next else next[tail := ps[0]], w + [ps[0]], ps[1..], qs,
      if tail == NULL then ps[0] else list, ps[0])
    ensures 0 <= ps[0] < |next| && (|ps| > 1 ==> next[ps[0]] == ps[1])
  {
    hide Written, Segment, Links, NoDup, Disjoint;
    var e := ps[0];
    MoveHead(w, ps, qs);
    DropSegment(next, ps);
    EmitWritten(next, w, list, tail, e);
    EmitElsewhere(next, w, list, tail, e, ps);
    DropSegment(Emitted(next, tail, e), ps);
    EmitElsewhere(next, w, list, tail, e, qs);
  }

  /** Taking the head of the second run. */
  lemma ShapeTakeQ(next: seq<Ptr>, w: seq<nat>, ps: seq<nat>, qs: seq<nat>, list: Ptr, tail: Ptr)
    requires Shape(next, w, ps, qs, list, tail) && qs != []
    ensures tail == NULL || 0 <= tail < |next|
    ensures Shape(if tail == NULL then next else next[tail := qs[0]], w + [qs[0]], ps, qs[1..],
      if tail == NULL then qs[0] else list, qs[0])
    ensures 0 <= qs[0] < |next| && next[qs[0]] == PtrAt(qs[1..], 0)
  {
    hide Written, Segment, Links, NoDup, Disjoint;
    var e := qs[0];
    MoveHead(w, qs, ps);
    DropSegment(next, qs);
    EmitWritten(next, w, list, tail, e);
    EmitElsewhere(next, w, list, tail, e, qs);
    DropSegment(Emitted(next, tail, e), qs);
    EmitElsewhere(next, w, list, tail, e, ps);
  }

  // ----------------------------------------------------------- merging two runs

  /** What merging keeps: the output of this merge stays sorted in front of what is
      left of either run. */
  ghost predicate Merging(s0: seq<nat>, keys: Keys, run: seq<nat>, ps: seq<nat>, qs: seq<nat>) {
    Sorted(s0, keys, run + ps) && Sorted(s0, keys, run + qs) && Ahead(s0, ps, qs)
  }

  lemma MergeTakeP(s0: seq<nat>, keys: Keys, run: seq<nat>, ps: seq<nat>, qs: seq<nat>)
    requires Merging(s0, keys, run, ps, qs) && ps != []
    requires qs != [] ==> ps[0] in keys && qs[0] in keys && keys[ps[0]] <= keys[qs[0]]
    ensures Merging(s0, keys, run + [ps[0]], ps[1..], qs)
  {
    hide Rank;
    assert ps == [ps[0]] + ps[1..];
    TakeNext(s0, keys, run, ps[0], ps[1..], qs);
  }

  lemma MergeTakeQ(s0: seq<nat>, keys: Keys, run: seq<nat>, ps: seq<nat>, qs: seq<nat>)
    requires Merging(s0, keys, run, ps, qs) && qs != []
    requires ps != [] ==> ps[0] in keys && qs[0] in keys && keys[qs[0]] < keys[ps[0]]
    ensures Merging(s0, keys, run + [qs[0]], ps, qs[1..])
  {
    hide Rank;
    assert qs == [qs[0]] + qs[1..];
    TakeNext(s0, keys, run, qs[0], qs[1..], ps);
  }

  lemma MergeExtends(s0: seq<nat>, keys: Keys, more: Keys, run: seq<nat>, ps: seq<nat>, qs: seq<nat>)
    requires Merging(s0, keys, run, ps, qs) && Extends(keys, more)
    ensures Merging(s0, more, run, ps, qs)
  {
    SortedExtends(s0, keys, more, run + ps);
    SortedExtends(s0, keys, more, run + qs);
  }

  lemma TakePMultiset(run: seq<nat>, ps: seq<nat>, qs: seq<nat>)
    requires ps != []
    ensures multiset((run + [ps[0]]) + (ps[1..] + qs)) == multiset(run + (ps + qs))
  {
    assert (run + [ps[0]]) + (ps[1..] + qs) == run + (ps + qs);
  }

  lemma TakeQMultiset(run: seq<nat>, ps: seq<nat>, qs: seq<nat>)
    requires qs != []
    ensures multiset((run + [qs[0]]) + (ps + qs[1..])) == multiset(run + (ps + qs))
  {
    assert qs == [qs[0]] + qs[1..];
  }

  /** The cells after a comparison of p and q, with both keys now on record. */
  lemma Record(m: Cells, m': Cells, cmp: Cmp, hasRes: bool, keys: Keys, p: nat, q: nat) returns (more: Keys)
    requires m.Known(cmp, hasRes, keys)
    requires m'.info == m.info && m'.idx == m.idx && AllEvolved(cmp, hasRes, m.data16, m'.data16)
    requires m'.HasCell(p) && Settled(cmp, hasRes, m'.Data(p))
    requires m'.HasCell(q) && Settled(cmp, hasRes, m'.Data(q))
    ensures Extends(keys, more) && m'.Known(cmp, hasRes, more)
    ensures p in more && q in more && more[p] == m'.Key(cmp, p) && more[q] == m'.Key(cmp, q)
  {
    KnownEvolves(m, m', cmp, hasRes, keys);
    more := keys[p := m'.Key(cmp, p)][q := m'.Key(cmp, q)];
  }

  lemma PtrHead(s: seq<nat>)
    ensures PtrAt(s, 0) == if s == [] then NULL else s[0]
    ensures NULL == -1
  {
  }

  lemma HoldTail(m: Cells, s: seq<nat>)
    requires m.Hold(s) && s != []
    ensures m.Hold(s[1..])
  {
  }

  lemma ReprApart(mem: Memory, res: Results?)
    ensures mem !in Repr(res)
  {
  }

  /** Only data of the heads of the two runs may differ. */
  ghost predicate OnlyHeads(info: seq<nat>, ps: seq<nat>, qs: seq<nat>, d: seq<u16>, d': seq<u16>) {
    |d'| == |d| && forall c :: 0 <= c < |d| && c !in CellsOf(info, ps) && c !in CellsOf(info, qs) ==> d'[c] == d[c]
  }

  lemma HeadCell(info: seq<nat>, s: seq<nat>)
    requires s != [] && s[0] < |info|
    ensures info[s[0]] in CellsOf(info, s)
  {
  }

  lemma OnlyHeadsInside(info: seq<nat>, s0: seq<nat>, ps: seq<nat>, qs: seq<nat>, rest: seq<nat>, d: seq<u16>,
                        d': seq<u16>)
    requires OnlyHeads(info, ps, qs, d, d') && Within(s0, ps) && Within(s0, qs + rest)
    ensures SameCells(info, s0, d, d')
  {
    forall c | c in CellsOf(info, ps) || c in CellsOf(info, qs)
      ensures c in CellsOf(info, s0)
    {
      if c in CellsOf(info, ps) {
        var k :| 0 <= k < |ps| && ps[k] < |info| && info[ps[k]] == c;
        assert ps[k] in s0;
      } else {
        var k :| 0 <= k < |qs| && qs[k] < |info| && info[qs[k]] == c;
        assert (qs + rest)[k] in s0;
      }
    }
  }

  /** The sort stands where `job` is after touching the first k nodes. */
  ghost predicate Tracks(job: Job, k: nat, env: Env, cmp: Cmp, mem: Memory, res: Results?, s0: seq<nat>)
    reads mem`data16, mem`info, if res == null then {} else {res, res.state}
  {
    && job.env == env && job.cmp == cmp && job.hasRes == (res != null) && job.info == mem.info && job.s0 == s0
    && job.At(k, Machine(mem.data16, BenchOf(res)))
  }

  /** Both heads are nodes of the list. */
  predicate HeadsIn(s0: seq<nat>, ps: seq<nat>, qs: seq<nat>) {
    (ps != [] ==> ps[0] in s0) && (qs != [] ==> qs[0] in s0)
  }

  /** Compares the heads of the two runs. */
  method CompareHeads(mem: Memory, p: nat, q: nat, cmp: Cmp, res: Results?,
                      ghost s0: seq<nat>, ghost ps: seq<nat>, ghost qs: seq<nat>, ghost env: Env, ghost job: Job,
                      ghost k: nat)
    returns (r: int)
    requires Serves(cmp, res, env) && Tracks(job, k, env, cmp, mem, res, s0) && Due(s0, k, ps, qs) && Ahead(s0, ps, qs)
    requires ps != [] && qs != [] && p == ps[0] && q == qs[0] && HeadsIn(s0, ps, qs)
    requires mem.View().HasCell(p) && mem.View().HasCell(q) && |mem.idx| == |mem.data16|
    modifies mem`data16, Repr(res)
    ensures Serves(cmp, res, env) && Tracks(job, Reach(s0, k, ps, qs), env, cmp, mem, res, s0)
    ensures AllEvolved(cmp, res != null, old(mem.data16), mem.data16)
    ensures mem.View().HasCell(p) && Settled(cmp, res != null, mem.View().Data(p))
    ensures mem.View().HasCell(q) && Settled(cmp, res != null, mem.View().Data(q))
    ensures r <= 0 <==> mem.View().Key(cmp, p) <= mem.View().Key(cmp, q)
    ensures forall x :: 0 <= x < |mem.data16| && x != mem.info[p] && x != mem.info[q] ==>
      mem.data16[x] == old(mem.data16[x])
  {
    hide Due, Ahead, Reach, Settled, AllEvolved, Compared, Job.At, TextSafe, Env.Ready;
    ghost var m := Machine(mem.data16, BenchOf(res));
    ReprApart(mem, res);
    ComparedHeads(job, k, m, ps, qs);
    ComparedSettles(env, cmp, res != null, m, mem.info[p], mem.info[q]);
    r := Compare(mem, cmp, mem.info[p], mem.info[q], res, env);
  }

  /** The run to take from is not used up, and its head is the other run's head at most. */
  predicate Picks(keys: Keys, ps: seq<nat>, qs: seq<nat>, fromP: bool) {
    if fromP then ps != [] && (qs != [] ==> ps[0] in keys && qs[0] in keys && keys[ps[0]] <= keys[qs[0]])
    else qs != [] && (ps != [] ==> ps[0] in keys && qs[0] in keys && keys[qs[0]] < keys[ps[0]])
  }

  /** Which run the next element comes from. */
  method TakeFromP(mem: Memory, p: Ptr, q: Ptr, psize: int, qsize: int, cmp: Cmp, res: Results?,
                   ghost s0: seq<nat>, ghost run: seq<nat>, ghost ps: seq<nat>, ghost qs: seq<nat>, ghost keys: Keys,
                   ghost env: Env, ghost job: Job, ghost k: nat)
    returns (fromP: bool, ghost more: Keys)
    requires Serves(cmp, res, env) && Tracks(job, k, env, cmp, mem, res, s0) && Due(s0, k, ps, qs)
      && HeadsIn(s0, ps, qs)
    requires psize == |ps| && (ps != [] ==> p == ps[0])
    requires (qsize > 0 && q != NULL) <==> qs != []
    requires (qs != [] ==> q == qs[0]) && (ps != [] || qs != [])
    requires mem.View().Hold(ps) && mem.View().Hold(qs)
    requires mem.View().Known(cmp, res != null, keys)
    requires Merging(s0, keys, run, ps, qs) && qsize >= 0
    modifies mem`data16, Repr(res)
    ensures Serves(cmp, res, env) && Tracks(job, Reach(s0, k, ps, qs), env, cmp, mem, res, s0)
    ensures Extends(keys, more) && mem.View().Known(cmp, res != null, more)
    ensures mem.View().Hold(ps) && mem.View().Hold(qs)
    ensures OnlyHeads(mem.info, ps, qs, old(mem.data16), mem.data16)
    ensures AllEvolved(cmp, res != null, old(mem.data16), mem.data16)
    ensures fromP ==> ps != [] && Merging(s0, more, run + [ps[0]], ps[1..], qs)
    ensures !fromP ==> qs != [] && Merging(s0, more, run + [qs[0]], ps, qs[1..])
  {
    MergingAhead(s0, keys, run, ps, qs);
    hide *;
    ReprApart(mem, res);
    fromP, more := PickRun(mem, p, q, psize, qsize, cmp, res, s0, ps, qs, keys, env, job, k);
    MergeExtends(s0, keys, more, run, ps, qs);
    TakePicked(s0, more, run, ps, qs, fromP);
  }

  lemma MergingAhead(s0: seq<nat>, keys: Keys, run: seq<nat>, ps: seq<nat>, qs: seq<nat>)
    requires Merging(s0, keys, run, ps, qs)
    ensures Ahead(s0, ps, qs)
  {
  }

  lemma TakePicked(s0: seq<nat>, keys: Keys, run: seq<nat>, ps: seq<nat>, qs: seq<nat>, fromP: bool)
    requires Merging(s0, keys, run, ps, qs) && Picks(keys, ps, qs, fromP)
    ensures fromP ==> ps != [] && Merging(s0, keys, run + [ps[0]], ps[1..], qs)
    ensures !fromP ==> qs != [] && Merging(s0, keys, run + [qs[0]], ps, qs[1..])
  {
    hide Merging;
    if fromP {
      MergeTakeP(s0, keys, run, ps, qs);
    } else {
      MergeTakeQ(s0, keys, run, ps, qs);
    }
  }

  lemma PicksIs(keys: Keys, ps: seq<nat>, qs: seq<nat>, fromP: bool)
    ensures Picks(keys, ps, qs, fromP) <==>
      if fromP then ps != [] && (qs != [] ==> ps[0] in keys && qs[0] in keys && keys[ps[0]] <= keys[qs[0]])
      else qs != [] && (ps != [] ==> ps[0] in keys && qs[0] in keys && keys[qs[0]] < keys[ps[0]])
  {
  }

  lemma UsedUp(m: Cells, cmp: Cmp, hasRes: bool, s0: seq<nat>, k: nat, ps: seq<nat>, qs: seq<nat>, keys: Keys)
    ensures Extends(keys, keys) && AllEvolved(cmp, hasRes, m.data16, m.data16)
      && OnlyHeads(m.info, ps, qs, m.data16, m.data16)
    ensures ps == [] || qs == [] ==> Reach(s0, k, ps, qs) == k
  {
  }

  lemma HeadsHeld(m: Cells, s: seq<nat>)
    requires m.Hold(s)
    ensures |m.idx| == |m.data16| && (s != [] ==> m.HasCell(s[0]))
  {
  }

  lemma HeadsOnly(info: seq<nat>, ps: seq<nat>, qs: seq<nat>, d: seq<u16>, d': seq<u16>)
    requires ps != [] && qs != [] && ps[0] < |info| && qs[0] < |info| && |d'| == |d|
    requires forall x :: 0 <= x < |d| && x != info[ps[0]] && x != info[qs[0]] ==> d'[x] == d[x]
    ensures OnlyHeads(info, ps, qs, d, d')
  {
    HeadCell(info, ps);
    HeadCell(info, qs);
    hide CellsOf;
  }

  /** The comparison, unless a run is used up. */
  method PickRun(mem: Memory, p: Ptr, q: Ptr, psize: int, qsize: int, cmp: Cmp, res: Results?,
                 ghost s0: seq<nat>, ghost ps: seq<nat>, ghost qs: seq<nat>, ghost keys: Keys,
                 ghost env: Env, ghost job: Job, ghost k: nat)
    returns (fromP: bool, ghost more: Keys)
    requires Serves(cmp, res, env) && Tracks(job, k, env, cmp, mem, res, s0) && Due(s0, k, ps, qs)
      && HeadsIn(s0, ps, qs)
    requires psize == |ps| && (ps != [] ==> p == ps[0])
    requires (qsize > 0 && q != NULL) <==> qs != []
    requires (qs != [] ==> q == qs[0]) && (ps != [] || qs != [])
    requires mem.View().Hold(ps) && mem.View().Hold(qs)
    requires mem.View().Known(cmp, res != null, keys)
    requires Ahead(s0, ps, qs) && qsize >= 0
    modifies mem`data16, Repr(res)
    ensures Serves(cmp, res, env) && Tracks(job, Reach(s0, k, ps, qs), env, cmp, mem, res, s0)
    ensures Extends(keys, more) && mem.View().Known(cmp, res != null, more)
    ensures mem.View().Hold(ps) && mem.View().Hold(qs)
    ensures OnlyHeads(mem.info, ps, qs, old(mem.data16), mem.data16)
    ensures AllEvolved(cmp, res != null, old(mem.data16), mem.data16)
    ensures Picks(more, ps, qs, fromP)
  {
    hide *;
    ReprApart(mem, res);
    ViewIs(mem);
    more := keys;
    UsedUp(mem.View(), cmp, res != null, s0, k, ps, qs, keys);
    if psize == 0 {
      fromP := false;
      PicksIs(more, ps, qs, fromP);
    } else if qsize == 0 || q == NULL {
      fromP := true;
      PicksIs(more, ps, qs, fromP);
    } else {
      ghost var m := mem.View();
      ViewIs(mem);
      HeadsHeld(m, ps);
      HeadsHeld(m, qs);
      var r := CompareHeads(mem, p, q, cmp, res, s0, ps, qs, env, job, k);
      ViewIs(mem);
      fromP := r <= 0;
      more := Record(m, mem.View(), cmp, res != null, keys, p, q);
      HoldEvolves(m, mem.View(), cmp, res != null, ps);
      HoldEvolves(m, mem.View(), cmp, res != null, qs);
      HeadsOnly(mem.info, ps, qs, m.data16, mem.data16);
      PicksIs(more, ps, qs, fromP);
    }
  }

  lemma TailInside(next: seq<Ptr>, w: seq<nat>, ps: seq<nat>, qs: seq<nat>, list: Ptr, tail: Ptr)
    requires Shape(next, w, ps, qs, list, tail)
    ensures tail == NULL || tail in w
  {
  }

  /** Adds the next element to the merged list and steps past it. */
  method Emit(mem: Memory, list: Ptr, tail: Ptr, p: Ptr, q: Ptr, fromP: bool,
              ghost w: seq<nat>, ghost ps: seq<nat>, ghost qs: seq<nat>)
    returns (list': Ptr, e: Ptr, p': Ptr, q': Ptr)
    requires Shape(mem.next, w, ps, qs, list, tail)
    requires fromP ==> ps != [] && p == ps[0]
    requires !fromP ==> qs != [] && q == qs[0]
    modifies mem`next
    ensures |mem.next| == |old(mem.next)|
    ensures forall x :: 0 <= x < |mem.next| && x !in w ==> mem.next[x] == old(mem.next[x])
    ensures fromP ==> Shape(mem.next, w + [ps[0]], ps[1..], qs, list', e) && q' == q && (|ps| > 1 ==> p' == ps[1])
    ensures !fromP ==> Shape(mem.next, w + [qs[0]], ps, qs[1..], list', e) && p' == p && q' == PtrAt(qs[1..], 0)
  {
    TailInside(mem.next, w, ps, qs, list, tail);
    hide *;
    list', p', q' := list, p, q;
    if fromP {
      ShapeTakeP(mem.next, w, ps, qs, list, tail);
      e := p;
      p' := mem.next[p];
    } else {
      ShapeTakeQ(mem.next, w, ps, qs, list, tail);
      e := q;
      q' := mem.next[q];
    }
    if tail != NULL {
      mem.next := mem.next[tail := e];
    } else {
      list' := e;
    }
  }

  /** What holds at every turn of the inner loop. */
  ghost predicate Midway(next: seq<Ptr>, m: Cells, cmp: Cmp, hasRes: bool, s0: seq<nat>, keys: Keys,
                         w: seq<nat>, run: seq<nat>, ps: seq<nat>, qs: seq<nat>, rest: seq<nat>, list: Ptr, tail: Ptr)
  {
    && Shape(next, w + run, ps, qs + rest, list, tail)
    && Within(s0, w + run) && Within(s0, ps) && Within(s0, qs + rest)
    && m.Hold(ps) && m.Hold(qs) && m.Known(cmp, hasRes, keys)
    && Merging(s0, keys, run, ps, qs)
  }

  /** s has only nodes of s0. */
  predicate Within(s0: seq<nat>, s: seq<nat>) {
    forall k :: 0 <= k < |s| ==> s[k] in s0
  }

  /** Only links of nodes of s0 may differ. */
  ghost predicate SameOutside(s0: seq<nat>, next: seq<Ptr>, next': seq<Ptr>) {
    |next'| == |next| && forall x :: 0 <= x < |next| && x !in s0 ==> next'[x] == next[x]
  }

  lemma SameOutsideRefl(s0: seq<nat>, next: seq<Ptr>)
    ensures SameOutside(s0, next, next)
  {
  }

  lemma SameOutsideTrans(s: seq<nat>, a: seq<Ptr>, b: seq<Ptr>, c: seq<Ptr>)
    requires SameOutside(s, a, b) && SameOutside(s, b, c)
    ensures SameOutside(s, a, c)
  {
  }

  /** What may change while merging: links inside the list, data by comparisons,
      and the record of keys, which only grows. */
  ghost predicate Advance(cmp: Cmp, hasRes: bool, info: seq<nat>, s0: seq<nat>, next: seq<Ptr>, d: seq<u16>, keys: Keys,
                          next': seq<Ptr>, d': seq<u16>, keys': Keys)
  {
    && SameOutside(s0, next, next') && SameCells(info, s0, d, d')
    && AllEvolved(cmp, hasRes, d, d') && Extends(keys, keys')
  }

  lemma AdvanceRefl(cmp: Cmp, hasRes: bool, info: seq<nat>, s0: seq<nat>, next: seq<Ptr>, d: seq<u16>, keys: Keys)
    ensures Advance(cmp, hasRes, info, s0, next, d, keys, next, d, keys)
  {
  }

  lemma AdvanceTrans(cmp: Cmp, hasRes: bool, info: seq<nat>, s0: seq<nat>, n1: seq<Ptr>, d1: seq<u16>, k1: Keys,
                     n2: seq<Ptr>, d2: seq<u16>, k2: Keys, n3: seq<Ptr>, d3: seq<u16>, k3: Keys)
    requires Advance(cmp, hasRes, info, s0, n1, d1, k1, n2, d2, k2)
    requires Advance(cmp, hasRes, info, s0, n2, d2, k2, n3, d3, k3)
    ensures Advance(cmp, hasRes, info, s0, n1, d1, k1, n3, d3, k3)
  {
    hide AllEvolved, CellsOf;
    AllEvolvedTrans(cmp, hasRes, d1, d2, d3);
  }

  lemma StepSeqs(w: seq<nat>, run: seq<nat>, ps: seq<nat>, qs: seq<nat>, rest: seq<nat>)
    ensures ps != [] ==> (w + run) + [ps[0]] == w + (run + [ps[0]])
    ensures qs != [] ==> (w + run) + [qs[0]] == w + (run + [qs[0]])
    ensures qs != [] ==> (qs + rest)[0] == qs[0] && (qs + rest)[1..] == qs[1..] + rest
  {
  }

  lemma StepWithin(s0: seq<nat>, w: seq<nat>, run: seq<nat>, ps: seq<nat>, qs: seq<nat>, rest: seq<nat>)
    requires Within(s0, w + run) && Within(s0, ps) && Within(s0, qs + rest)
    ensures ps != [] ==> Within(s0, w + (run + [ps[0]])) && Within(s0, ps[1..])
    ensures qs != [] ==> Within(s0, w + (run + [qs[0]])) && Within(s0, qs[1..] + rest)
  {
    StepSeqs(w, run, ps, qs, rest);
    if qs != [] {
      assert (qs + rest)[0] in s0;
    }
  }

  lemma NotWithin(s0: seq<nat>, s: seq<nat>, x: int)
    requires Within(s0, s) && x !in s0
    ensures x !in s
  {
  }

  /** One turn of the inner loop. */
  method MergeStep(mem: Memory, list: Ptr, tail: Ptr, p: Ptr, q: Ptr, psize: int, qsize: int, cmp: Cmp, res: Results?,
                   ghost s0: seq<nat>, ghost w: seq<nat>, ghost run: seq<nat>, ghost ps: seq<nat>, ghost qs: seq<nat>,
                   ghost rest: seq<nat>, ghost keys: Keys, ghost env: Env, ghost job: Job, ghost k: nat)
    returns (list': Ptr, tail': Ptr, p': Ptr, q': Ptr, fromP: bool, ghost more: Keys)
    requires Serves(cmp, res, env) && Tracks(job, k, env, cmp, mem, res, s0) && Due(s0, k, ps, qs)
    requires Midway(mem.next, mem.View(), cmp, res != null, s0, keys, w, run, ps, qs, rest, list, tail)
    requires psize == |ps| && (ps != [] ==> p == ps[0]) && q == PtrAt(qs + rest, 0)
    requires qsize >= 0 && ((qsize > 0 && q != NULL) <==> qs != []) && (ps != [] || qs != [])
    modifies mem`next, mem`data16, Repr(res)
    ensures Serves(cmp, res, env) && Tracks(job, Reach(s0, k, ps, qs), env, cmp, mem, res, s0)
    ensures Advance(cmp, res != null, mem.info, s0, old(mem.next), old(mem.data16), keys, mem.next, mem.data16, more)
    ensures fromP ==> ps != [] && q' == q && (|ps| > 1 ==> p' == ps[1])
    ensures fromP ==>
      Midway(mem.next, mem.View(), cmp, res != null, s0, more, w, run + [ps[0]], ps[1..], qs, rest, list', tail')
    ensures !fromP ==> qs != [] && p' == p && q' == PtrAt(qs[1..] + rest, 0)
    ensures !fromP ==>
      Midway(mem.next, mem.View(), cmp, res != null, s0, more, w, run + [qs[0]], ps, qs[1..], rest, list', tail')
  {
    hide *;
    ReprApart(mem, res);
    MidwayOpen(mem.next, mem.View(), cmp, res != null, s0, keys, w, run, ps, qs, rest, list, tail);
    PtrHead(qs + rest);
    StepSeqs(w, run, ps, qs, rest);
    HeadsWithin(s0, ps, qs, rest);
    ghost var n, m := mem.next, mem.View();
    ViewIs(mem);
    fromP, more := TakeFromP(mem, p, q, psize, qsize, cmp, res, s0, run, ps, qs, keys, env, job, k);
    ViewIs(mem);
    OnlyHeadsInside(mem.info, s0, ps, qs, rest, old(mem.data16), mem.data16);
    list', tail', p', q' := Emit(mem, list, tail, p, q, fromP, w + run, ps, qs + rest);
    ViewIs(mem);
    OutsideWritten(s0, w + run, n, mem.next);
    AdvanceIs(cmp, res != null, mem.info, s0, n, old(mem.data16), keys, mem.next, mem.data16, more);
    if fromP {
      MidwayTakenP(mem.next, mem.View(), cmp, res != null, s0, more, w, run, ps, qs, rest, list', tail');
    } else {
      MidwayTakenQ(mem.next, mem.View(), cmp, res != null, s0, more, w, run, ps, qs, rest, list', tail');
    }
  }

  lemma MidwayOpen(next: seq<Ptr>, m: Cells, cmp: Cmp, hasRes: bool, s0: seq<nat>, keys: Keys,
                   w: seq<nat>, run: seq<nat>, ps: seq<nat>, qs: seq<nat>, rest: seq<nat>, list: Ptr, tail: Ptr)
    requires Midway(next, m, cmp, hasRes, s0, keys, w, run, ps, qs, rest, list, tail)
    ensures Shape(next, w + run, ps, qs + rest, list, tail) && Merging(s0, keys, run, ps, qs)
    ensures Within(s0, w + run) && Within(s0, ps) && Within(s0, qs + rest)
    ensures m.Hold(ps) && m.Hold(qs) && m.Known(cmp, hasRes, keys)
  {
  }

  lemma MidwayTakenP(next: seq<Ptr>, m: Cells, cmp: Cmp, hasRes: bool, s0: seq<nat>, keys: Keys,
                     w: seq<nat>, run: seq<nat>, ps: seq<nat>, qs: seq<nat>, rest: seq<nat>, list: Ptr, tail: Ptr)
    requires ps != [] && Shape(next, (w + run) + [ps[0]], ps[1..], qs + rest, list, tail)
    requires Merging(s0, keys, run + [ps[0]], ps[1..], qs)
    requires Within(s0, w + run) && Within(s0, ps) && Within(s0, qs + rest)
    requires m.Hold(ps) && m.Hold(qs) && m.Known(cmp, hasRes, keys)
    ensures Midway(next, m, cmp, hasRes, s0, keys, w, run + [ps[0]], ps[1..], qs, rest, list, tail)
  {
    StepSeqs(w, run, ps, qs, rest);
    StepWithin(s0, w, run, ps, qs, rest);
    HoldTail(m, ps);
    hide Shape, Within, Merging, Cells.Hold, Cells.Known;
  }

  lemma MidwayTakenQ(next: seq<Ptr>, m: Cells, cmp: Cmp, hasRes: bool, s0: seq<nat>, keys: Keys,
                     w: seq<nat>, run: seq<nat>, ps: seq<nat>, qs: seq<nat>, rest: seq<nat>, list: Ptr, tail: Ptr)
    requires qs != [] && Shape(next, (w + run) + [qs[0]], ps, qs[1..] + rest, list, tail)
    requires Merging(s0, keys, run + [qs[0]], ps, qs[1..])
    requires Within(s0, w + run) && Within(s0, ps) && Within(s0, qs + rest)
    requires m.Hold(ps) && m.Hold(qs) && m.Known(cmp, hasRes, keys)
    ensures Midway(next, m, cmp, hasRes, s0, keys, w, run + [qs[0]], ps, qs[1..], rest, list, tail)
  {
    StepSeqs(w, run, ps, qs, rest);
    StepWithin(s0, w, run, ps, qs, rest);
    HoldTail(m, qs);
    hide Shape, Within, Merging, Cells.Hold, Cells.Known;
  }

  lemma OutsideWritten(s0: seq<nat>, w: seq<nat>, n: seq<Ptr>, n': seq<Ptr>)
    requires Within(s0, w) && |n'| == |n| && forall x :: 0 <= x < |n'| && x !in w ==> n'[x] == n[x]
    ensures SameOutside(s0, n, n')
  {
    forall x | 0 <= x < |n| && x !in s0
      ensures x !in w
    {
      NotWithin(s0, w, x);
    }
  }

  lemma AdvanceIs(cmp: Cmp, hasRes: bool, info: seq<nat>, s0: seq<nat>, next: seq<Ptr>, d: seq<u16>, keys: Keys,
                  next': seq<Ptr>, d': seq<u16>, keys': Keys)
    requires SameOutside(s0, next, next') && SameCells(info, s0, d, d')
    requires AllEvolved(cmp, hasRes, d, d') && Extends(keys, keys')
    ensures Advance(cmp, hasRes, info, s0, next, d, keys, next', d', keys')
  {
  }

  lemma HeadsWithin(s0: seq<nat>, ps: seq<nat>, qs: seq<nat>, rest: seq<nat>)
    requires Within(s0, ps) && Within(s0, qs + rest)
    ensures HeadsIn(s0, ps, qs)
  {
    if qs != [] {
      assert (qs + rest)[0] == qs[0];
    }
  }

  /** The counters say what is left of the two runs, and nothing has been lost. */
  predicate Taking(insize: int, ps0: seq<nat>, qs0: seq<nat>, run: seq<nat>, ps: seq<nat>, qs: seq<nat>, psize: int,
                   qsize: int) {
    && psize == |ps| && qsize == insize - |qs0| + |qs| && |qs| <= |qs0| <= insize
    && multiset(run + (ps + qs)) == multiset(ps0 + qs0)
  }

  lemma TakingTurn(insize: int, ps0: seq<nat>, qs0: seq<nat>, run: seq<nat>, ps: seq<nat>, qs: seq<nat>, psize: int,
                   qsize: int)
    requires Taking(insize, ps0, qs0, run, ps, qs, psize, qsize)
    ensures ps != [] ==> Taking(insize, ps0, qs0, run + [ps[0]], ps[1..], qs, psize - 1, qsize)
    ensures qs != [] ==> Taking(insize, ps0, qs0, run + [qs[0]], ps, qs[1..], psize, qsize - 1)
    ensures ps == [] && qs == [] ==> multiset(run) == multiset(ps0 + qs0)
    ensures psize == |ps| && qsize >= 0
  {
    if ps != [] {
      TakePMultiset(run, ps, qs);
    }
    if qs != [] {
      TakeQMultiset(run, ps, qs);
    }
    assert run + ([] + []) == run;
  }

  /** The loop test on q says whether the second run is used up. */
  lemma SecondRun(insize: int, ps0: seq<nat>, qs0: seq<nat>, run: seq<nat>, ps: seq<nat>, qs: seq<nat>,
                  psize: int, qsize: int, rest: seq<nat>, q: Ptr)
    requires Taking(insize, ps0, qs0, run, ps, qs, psize, qsize) && (|qs0| < insize ==> rest == [])
    requires q == PtrAt(qs + rest, 0)
    ensures (qsize > 0 && q != NULL) <==> qs != []
    ensures qs == [] ==> q == PtrAt(rest, 0)
  {
    assert [] + rest == rest;
    if qs != [] {
      assert (qs + rest)[0] == qs[0];
    }
  }

  lemma TakingStart(insize: int, ps0: seq<nat>, qs0: seq<nat>)
    requires |qs0| <= insize
    ensures Taking(insize, ps0, qs0, [], ps0, qs0, |ps0|, insize)
  {
    assert [] + (ps0 + qs0) == ps0 + qs0;
  }

  /** The inner loop: merges a run of `psize` nodes from p with one of at most
      `insize` nodes from q behind what is already written. */
  method MergeRuns(mem: Memory, p0: Ptr, q0: Ptr, psize0: int, insize: int, list0: Ptr, tail0: Ptr, cmp: Cmp,
                   res: Results?,
                   ghost s0: seq<nat>, ghost w: seq<nat>, ghost ps0: seq<nat>, ghost qs0: seq<nat>,
                   ghost rest: seq<nat>, ghost keys0: Keys,
                   ghost env: Env, ghost job: Job, ghost k0: nat)
    returns (list: Ptr, tail: Ptr, q: Ptr, ghost run: seq<nat>, ghost keys: Keys, ghost k: nat)
    requires Serves(cmp, res, env) && Tracks(job, k0, env, cmp, mem, res, s0) && Due(s0, k0, ps0, qs0)
    requires Midway(mem.next, mem.View(), cmp, res != null, s0, keys0, w, [], ps0, qs0, rest, list0, tail0)
    requires p0 == PtrAt(ps0, 0) && q0 == PtrAt(qs0 + rest, 0)
    requires psize0 == |ps0| > 0 && |qs0| <= insize && (|qs0| < insize ==> rest == [])
    modifies mem`next, mem`data16, Repr(res)
    ensures Serves(cmp, res, env) && Tracks(job, k, env, cmp, mem, res, s0) && Merged(s0, k0, k, ps0, qs0)
    ensures Midway(mem.next, mem.View(), cmp, res != null, s0, keys, w, run, [], [], rest, list, tail)
    ensures q == PtrAt(rest, 0)
    ensures multiset(run) == multiset(ps0 + qs0)
    ensures Advance(cmp, res != null, mem.info, s0, old(mem.next), old(mem.data16), keys0, mem.next, mem.data16, keys)
  {
    ReprApart(mem, res);
    PtrHead(ps0);
    hide *;
    list, tail, q, run, keys, k := list0, tail0, q0, [], keys0, k0;
    HalfwayEnds(s0, k0, k0, ps0, qs0);
    TakingStart(insize, ps0, qs0);
    var p, psize, qsize, fromP := p0, psize0, insize, true;
    ghost var ps, qs := ps0, qs0;
    AdvanceRefl(cmp, res != null, mem.info, s0, mem.next, mem.data16, keys);
    while psize > 0 || (qsize > 0 && q != NULL)
      invariant Midway(mem.next, mem.View(), cmp, res != null, s0, keys, w, run, ps, qs, rest, list, tail)
      invariant Serves(cmp, res, env) && Tracks(job, k, env, cmp, mem, res, s0)
      invariant Halfway(s0, k0, k, ps0, qs0, ps, qs)
      invariant Taking(insize, ps0, qs0, run, ps, qs, psize, qsize)
      invariant (ps != [] ==> p == ps[0]) && q == PtrAt(qs + rest, 0)
      invariant Advance(cmp, res != null, mem.info, s0, old(mem.next), old(mem.data16), keys0, mem.next, mem.data16,
        keys)
      decreases |ps| + |qs|
    {
      SecondRun(insize, ps0, qs0, run, ps, qs, psize, qsize, rest, q);
      TakingTurn(insize, ps0, qs0, run, ps, qs, psize, qsize);
      HalfwayDue(s0, k0, k, ps0, qs0, ps, qs);
      HalfwayStep(s0, k0, k, ps0, qs0, ps, qs);
      ghost var n1, d1, more := mem.next, mem.data16, keys;
      list, tail, p, q, fromP, more :=
        MergeStep(mem, list, tail, p, q, psize, qsize, cmp, res, s0, w, run, ps, qs, rest, keys, env, job, k);
      AdvanceTrans(cmp, res != null, mem.info, s0, old(mem.next), old(mem.data16), keys0, n1, d1, keys, mem.next,
        mem.data16, more);
      keys, k := more, Reach(s0, k, ps, qs);
      if fromP {
        psize := psize - 1;
        run, ps := run + [ps[0]], ps[1..];
      } else {
        qsize := qsize - 1;
        run, qs := run + [qs[0]], qs[1..];
      }
    }
    SecondRun(insize, ps0, qs0, run, ps, qs, psize, qsize, rest, q);
    TakingTurn(insize, ps0, qs0, run, ps, qs, psize, qsize);
    HalfwayEnds(s0, k0, k, ps0, qs0);
  }

  // ------------------------------------------------------------------- one pass

  /** Steps `insize` places along from p, or to the end of the list. */
  method StepAlong(mem: Memory, p: Ptr, insize: int, ghost left: seq<nat>) returns (q: Ptr, psize: int)
    requires insize > 0 && left != [] && p == PtrAt(left, 0) && Links(mem.next, left)
    ensures psize == if |left| < insize then |left| else insize
    ensures q == PtrAt(left, psize)
  {
    q := p;
    psize := 0;
    var i := 0;
    while i < insize
      invariant 0 <= i == psize <= insize && psize < |left|
      invariant q == PtrAt(left, psize)
    {
      psize := psize + 1;
      q := mem.next[q];
      if q == NULL {
        break;
      }
      i := i + 1;
    }
  }

  /** What holds between two merges of a pass: w is written, `left` is to come. */
  ghost predicate BetweenMerges(next: seq<Ptr>, m: Cells, cmp: Cmp, hasRes: bool, s0: seq<nat>, keys: Keys,
                                w: seq<nat>, left: seq<nat>, insize: nat, list: Ptr, tail: Ptr)
  {
    && insize > 0 && Shape(next, w, [], left, list, tail)
    && Within(s0, w) && Within(s0, left) && m.Hold(left) && m.Known(cmp, hasRes, keys)
    && Runs(s0, keys, left, insize) && Ahead(s0, w, left) && Runs(s0, keys, w, 2 * insize)
    && (left != [] ==> FullRuns(s0, keys, w, 2 * insize))
  }

  /** The next two runs are ready to be merged. */
  lemma MergeReady(next: seq<Ptr>, m: Cells, cmp: Cmp, hasRes: bool, s0: seq<nat>, keys: Keys,
                   w: seq<nat>, ps: seq<nat>, qs: seq<nat>, rest: seq<nat>, insize: nat, list: Ptr, tail: Ptr)
    requires BetweenMerges(next, m, cmp, hasRes, s0, keys, w, ps + (qs + rest), insize, list, tail)
    requires |ps| <= insize && |qs| <= insize
    requires (|ps| < insize ==> qs == [] && rest == []) && (|qs| < insize ==> rest == [])
    ensures Midway(next, m, cmp, hasRes, s0, keys, w, [], ps, qs, rest, list, tail)
  {
    hide *;
    BetweenParts(next, m, cmp, hasRes, s0, keys, w, ps + (qs + rest), insize, list, tail);
    RunsSplit(s0, keys, ps, qs, rest, insize);
    AheadSplit(s0, ps, qs, rest);
    ShapeSplit(next, w, ps, qs + rest, list, tail);
    WithinSplit(s0, m, ps, qs + rest);
    WithinSplit(s0, m, qs, rest);
    assert w + [] == w && [] + ps == ps && [] + qs == qs;
    MidwayParts(next, m, cmp, hasRes, s0, keys, w, [], ps, qs, rest, list, tail);
  }

  // Reading and establishing the two conjunctions with everything else hidden.
  lemma BetweenParts(next: seq<Ptr>, m: Cells, cmp: Cmp, hasRes: bool, s0: seq<nat>, keys: Keys,
                     w: seq<nat>, left: seq<nat>, insize: nat, list: Ptr, tail: Ptr)
    ensures BetweenMerges(next, m, cmp, hasRes, s0, keys, w, left, insize, list, tail) <==>
      && insize > 0 && Shape(next, w, [], left, list, tail)
      && Within(s0, w) && Within(s0, left) && m.Hold(left) && m.Known(cmp, hasRes, keys)
      && Runs(s0, keys, left, insize) && Ahead(s0, w, left) && Runs(s0, keys, w, 2 * insize)
      && (left != [] ==> FullRuns(s0, keys, w, 2 * insize))
  {
  }

  lemma MidwayParts(next: seq<Ptr>, m: Cells, cmp: Cmp, hasRes: bool, s0: seq<nat>, keys: Keys,
                    w: seq<nat>, run: seq<nat>, ps: seq<nat>, qs: seq<nat>, rest: seq<nat>, list: Ptr, tail: Ptr)
    ensures Midway(next, m, cmp, hasRes, s0, keys, w, run, ps, qs, rest, list, tail) <==>
      && Shape(next, w + run, ps, qs + rest, list, tail)
      && Within(s0, w + run) && Within(s0, ps) && Within(s0, qs + rest)
      && m.Hold(ps) && m.Hold(qs) && m.Known(cmp, hasRes, keys)
      && Sorted(s0, keys, run + ps) && Sorted(s0, keys, run + qs) && Ahead(s0, ps, qs)
  {
  }

  lemma ShapeSplit(next: seq<Ptr>, w: seq<nat>, s: seq<nat>, t: seq<nat>, list: Ptr, tail: Ptr)
    requires Shape(next, w, [], s + t, list, tail)
    ensures Shape(next, w, s, t, list, tail)
  {
    hide Segment, Links, Written;
    SegmentPrefix(next, s, t);
    var u := s + t;
    assert forall k :: 0 <= k < |s| ==> u[k] == s[k];
    assert forall k :: 0 <= k < |t| ==> u[|s| + k] == t[k];
  }

  lemma WithinSplit(s0: seq<nat>, m: Cells, s: seq<nat>, t: seq<nat>)
    requires Within(s0, s + t)
    ensures Within(s0, s) && Within(s0, t)
    ensures m.Hold(s + t) ==> m.Hold(s) && m.Hold(t)
  {
    var u := s + t;
    assert forall k :: 0 <= k < |s| ==> u[k] == s[k];
    assert forall k :: 0 <= k < |t| ==> u[|s| + k] == t[k];
  }

  lemma SegmentPrefix(next: seq<Ptr>, s: seq<nat>, t: seq<nat>)
    requires Links(next, s + t)
    ensures Segment(next, s) && Links(next, t)
  {
    var u := s + t;
    forall k | 0 <= k < |s|
      ensures s[k] < |next| && (k + 1 < |s| ==> next[s[k]] == s[k + 1])
    {
      assert u[k] == s[k];
    }
    forall k | 0 <= k < |t|
      ensures t[k] < |next| && next[t[k]] == PtrAt(t, k + 1)
    {
      assert u[|s| + k] == t[k];
    }
  }

  lemma NothingLeft(run: seq<nat>, rest: seq<nat>)
    ensures run + [] == run && [] + rest == rest
  {
  }

  lemma MergedNext(next: seq<Ptr>, m: Cells, cmp: Cmp, hasRes: bool, s0: seq<nat>, keys: Keys, more: Keys,
                   w: seq<nat>, ps: seq<nat>, qs: seq<nat>, rest: seq<nat>, run: seq<nat>, insize: nat, list: Ptr,
                   tail: Ptr)
    requires insize > 0 && Runs(s0, keys, ps + (qs + rest), insize) && FullRuns(s0, keys, w, 2 * insize)
    requires Ahead(s0, w, ps + (qs + rest)) && m.Hold(rest) && Extends(keys, more)
    requires |ps| <= insize && |qs| <= insize
    requires (|ps| < insize ==> qs == [] && rest == []) && (|qs| < insize ==> rest == [])
    requires multiset(run) == multiset(ps + qs)
    requires Midway(next, m, cmp, hasRes, s0, more, w, run, [], [], rest, list, tail)
    ensures BetweenMerges(next, m, cmp, hasRes, s0, more, w + run, rest, insize, list, tail)
    ensures |run| == |ps| + |qs|
  {
    hide *;
    MidwayParts(next, m, cmp, hasRes, s0, more, w, run, [], [], rest, list, tail);
    NothingLeft(run, rest);
    PassStep(s0, keys, more, w, ps, qs, rest, run, insize);
    BetweenParts(next, m, cmp, hasRes, s0, more, w + run, rest, insize, list, tail);
  }

  lemma HoldEvolves(m: Cells, m': Cells, cmp: Cmp, hasRes: bool, s: seq<nat>)
    requires m.Hold(s) && m'.info == m.info && m'.idx == m.idx && AllEvolved(cmp, hasRes, m.data16, m'.data16)
    ensures m'.Hold(s)
  {
  }

  lemma ViewIs(mem: Memory)
    ensures mem.View() == Cells(mem.info, mem.data16, mem.idx)
  {
  }

  /** Cuts what is left into the next two runs and the rest. */
  ghost function Cut(left: seq<nat>, n: nat): (c: (seq<nat>, seq<nat>, seq<nat>))
    requires n > 0
    ensures left == c.0 + (c.1 + c.2)
    ensures |c.0| <= n && |c.1| <= n && (|c.0| < n ==> c.1 == [] && c.2 == []) && (|c.1| < n ==> c.2 == [])
    ensures |c.0| == if |left| < n then |left| else n
    ensures |left| <= 2 * n ==> c.2 == []
    ensures left != [] ==> c.0 != []
  {
    if |left| <= n then (left, [], [])
    else if |left| <= 2 * n then (left[..n], left[n..], [])
    else (left[..n], left[n..2 * n], left[2 * n..])
  }

  lemma LinksOfShape(next: seq<Ptr>, w: seq<nat>, left: seq<nat>, list: Ptr, tail: Ptr)
    requires Shape(next, w, [], left, list, tail)
    ensures Links(next, left)
  {
  }

  lemma PtrAtSplit(s: seq<nat>, t: seq<nat>)
    ensures PtrAt(s + t, |s|) == PtrAt(t, 0)
    ensures s != [] ==> PtrAt(s + t, 0) == PtrAt(s, 0)
  {
  }

  /** One turn of the middle loop: finds the next two runs and merges them. */
  method MergeNext(mem: Memory, p: Ptr, insize: int, list: Ptr, tail: Ptr, cmp: Cmp, res: Results?,
                   ghost s0: seq<nat>, ghost w: seq<nat>, ghost left: seq<nat>, ghost keys: Keys,
                   ghost env: Env, ghost job: Job, ghost k0: nat)
    returns (list': Ptr, tail': Ptr, p': Ptr, ghost run: seq<nat>, ghost rest: seq<nat>, ghost more: Keys, ghost k: nat)
    requires Serves(cmp, res, env) && Tracks(job, k0, env, cmp, mem, res, s0) && NoDup(s0)
      && Poised(s0, k0, left, insize)
    requires insize > 0 && left != [] && p == PtrAt(left, 0)
    requires BetweenMerges(mem.next, mem.View(), cmp, res != null, s0, keys, w, left, insize, list, tail)
    modifies mem`next, mem`data16, Repr(res)
    ensures Serves(cmp, res, env) && Tracks(job, k, env, cmp, mem, res, s0) && Poised(s0, k, rest, insize)
    ensures BetweenMerges(mem.next, mem.View(), cmp, res != null, s0, more, w + run, rest, insize, list', tail')
    ensures p' == PtrAt(rest, 0) && run != [] && (|left| <= 2 * insize <==> rest == [])
    ensures rest != [] ==> |run| == 2 * insize
    ensures multiset(run + rest) == multiset(left) && |run + rest| == |left|
    ensures Advance(cmp, res != null, mem.info, s0, old(mem.next), old(mem.data16), keys, mem.next, mem.data16, more)
  {
    hide *;
    ReprApart(mem, res);
    ghost var c := Cut(left, insize);
    ghost var ps, qs := c.0, c.1;
    rest := c.2;
    BetweenParts(mem.next, mem.View(), cmp, res != null, s0, keys, w, left, insize, list, tail);
    LinksOfShape(mem.next, w, left, list, tail);
    var q, psize := StepAlong(mem, p, insize, left);
    PtrAtSplit(ps, qs + rest);
    MergeReady(mem.next, mem.View(), cmp, res != null, s0, keys, w, ps, qs, rest, insize, list, tail);
    WithinSplit(s0, mem.View(), ps, qs + rest);
    WithinSplit(s0, mem.View(), qs, rest);
    PoisedDue(s0, k0, ps, qs, rest, insize);
    ghost var m, d := mem.View(), mem.data16;
    ViewIs(mem);
    list', tail', p', run, more, k :=
      MergeRuns(mem, p, q, psize, insize, list, tail, cmp, res, s0, w, ps, qs, rest, keys, env, job, k0);
    PoisedNext(s0, k0, k, ps, qs, rest, insize);
    ViewIs(mem);
    AdvanceParts(cmp, res != null, mem.info, s0, old(mem.next), d, keys, mem.next, mem.data16, more);
    HoldEvolves(m, mem.View(), cmp, res != null, rest);
    MergedNext(mem.next, mem.View(), cmp, res != null, s0, keys, more, w, ps, qs, rest, run, insize, list', tail');
    MultisetRejoin(left, ps, qs, rest, run);
  }

  lemma MultisetRejoin(left: seq<nat>, ps: seq<nat>, qs: seq<nat>, rest: seq<nat>, run: seq<nat>)
    requires left == ps + (qs + rest) && multiset(run) == multiset(ps + qs)
    ensures multiset(run + rest) == multiset(left)
  {
    assert left == (ps + qs) + rest;
  }

  lemma AdvanceParts(cmp: Cmp, hasRes: bool, info: seq<nat>, s0: seq<nat>, next: seq<Ptr>, d: seq<u16>, keys: Keys,
                     next': seq<Ptr>, d': seq<u16>, keys': Keys)
    requires Advance(cmp, hasRes, info, s0, next, d, keys, next', d', keys')
    ensures SameOutside(s0, next, next') && SameCells(info, s0, d, d')
    ensures AllEvolved(cmp, hasRes, d, d') && Extends(keys, keys')
  {
  }

  /** How far a pass has come: out is merged, left is not, and only the last merge may be
      short. */
  ghost predicate Passed(s0: seq<nat>, s: seq<nat>, out: seq<nat>, left: seq<nat>, insize: int, nmerges: int) {
    && multiset(out + left) == multiset(s0) && |out + left| == |s|
    && nmerges >= 0 && (nmerges == 0 <==> out == []) && (nmerges <= 1 <==> |out| <= 2 * insize)
    && (left != [] && out != [] ==> |out| >= 2 * insize)
  }

  lemma PassedNone(s0: seq<nat>, s: seq<nat>, insize: int)
    requires insize > 0 && multiset(s) == multiset(s0)
    ensures Passed(s0, s, [], s, insize, 0) && [] + s == s
  {
    assert [] + s == s;
  }

  lemma PassedNext(s0: seq<nat>, s: seq<nat>, out: seq<nat>, left: seq<nat>, run: seq<nat>, rest: seq<nat>,
                   insize: int, nmerges: int)
    requires Passed(s0, s, out, left, insize, nmerges) && insize > 0 && left != [] && run != []
    requires multiset(run + rest) == multiset(left) && |run + rest| == |left| && (rest != [] ==> |run| == 2 * insize)
    requires |left| <= 2 * insize <==> rest == []
    ensures Passed(s0, s, out + run, rest, insize, nmerges + 1)
  {
    assert (out + run) + rest == out + (run + rest);
  }

  lemma PassedAll(s0: seq<nat>, s: seq<nat>, out: seq<nat>, left: seq<nat>, insize: int, nmerges: int)
    requires Passed(s0, s, out, left, insize, nmerges) && left == [] && s != []
    ensures multiset(out) == multiset(s0) && out != [] && (nmerges <= 1 <==> |s| <= 2 * insize)
  {
    assert out + left == out;
  }

  /** One pass over the list: merges its runs of `insize` nodes pairwise. */
  method MergePass(mem: Memory, list0: Ptr, insize: int, cmp: Cmp, res: Results?,
                   ghost s0: seq<nat>, ghost s: seq<nat>, ghost keys0: Keys, ghost env: Env,
                   ghost job: Job, ghost k0: nat)
    returns (list: Ptr, nmerges: int, ghost out: seq<nat>, ghost keys: Keys, ghost k: nat)
    requires Serves(cmp, res, env) && Tracks(job, k0, env, cmp, mem, res, s0) && NoDup(s0) && Poised(s0, k0, s, insize)
    requires insize > 0 && s != [] && IsList(mem.next, list0, s)
    requires mem.View().Hold(s) && mem.View().Known(cmp, res != null, keys0)
    requires multiset(s) == multiset(s0) && Runs(s0, keys0, s, insize)
    modifies mem`next, mem`data16, Repr(res)
    ensures Serves(cmp, res, env) && Tracks(job, k, env, cmp, mem, res, s0) && k + 1 >= |s0|
    ensures IsList(mem.next, list, out) && multiset(out) == multiset(s0)
    ensures mem.View().Known(cmp, res != null, keys)
    ensures Runs(s0, keys, out, 2 * insize)
    ensures nmerges <= 1 <==> |s| <= 2 * insize
    ensures Advance(cmp, res != null, mem.info, s0, old(mem.next), old(mem.data16), keys0, mem.next, mem.data16, keys)
  {
    hide *;
    ReprApart(mem, res);
    var first := FirstPointers(list0);
    FirstIs(list0);
    var p, tail := first.p, first.tail;
    list, nmerges, out, keys, k := first.list, 0, [], keys0, k0;
    ghost var left := s;
    PassStart(mem.next, mem.View(), cmp, res != null, s0, keys, s, insize, p);
    AdvanceRefl(cmp, res != null, mem.info, s0, mem.next, mem.data16, keys);
    PassedNone(s0, s, insize);
    while p != NULL
      invariant BetweenMerges(mem.next, mem.View(), cmp, res != null, s0, keys, out, left, insize, list, tail)
      invariant Serves(cmp, res, env) && Tracks(job, k, env, cmp, mem, res, s0) && Poised(s0, k, left, insize)
      invariant p == PtrAt(left, 0)
      invariant Passed(s0, s, out, left, insize, nmerges)
      invariant Advance(cmp, res != null, mem.info, s0, old(mem.next), old(mem.data16), keys0, mem.next, mem.data16,
        keys)
      decreases |left|
    {
      nmerges := nmerges + 1;
      PtrHead(left);
      ghost var n1, d1, run, rest, more := mem.next, mem.data16, [], [], keys;
      list, tail, p, run, rest, more, k := MergeNext(mem, p, insize, list, tail, cmp, res, s0, out, left, keys, env,
        job, k);
      AdvanceTrans(cmp, res != null, mem.info, s0, old(mem.next), old(mem.data16), keys0, n1, d1, keys, mem.next,
        mem.data16, more);
      PassedNext(s0, s, out, left, run, rest, insize, nmerges - 1);
      out, left, keys := out + run, rest, more;
    }
    PtrHead(left);
    PassedAll(s0, s, out, left, insize, nmerges);
    PoisedEnds(s0, k, insize);
    PassEnd(mem.next, mem.View(), cmp, res != null, s0, keys, out, insize, list, tail);
    ghost var n1 := mem.next;
    mem.next := mem.next[tail := NULL];
    AdvanceEnd(cmp, res != null, mem.info, s0, old(mem.next), old(mem.data16), keys0, n1, mem.data16, keys, tail);
  }

  /** `p`, `list` and `tail` at the start of a pass */
  datatype Pointers = Pointers(p: Ptr, list: Ptr, tail: Ptr)

  function FirstPointers(list0: Ptr): Pointers {
    Pointers(list0, NULL, NULL)
  }

  lemma FirstIs(list0: Ptr)
    ensures FirstPointers(list0) == Pointers(list0, NULL, NULL)
  {
  }

  /** The empty list is not sorted: its first pass does not enter the middle loop, and the
      store through `tail` behind that loop has no node to go to. */
  lemma EmptyPass(next: seq<Ptr>, list0: Ptr)
    requires IsList(next, list0, [])
    ensures var first := FirstPointers(list0); first.p == NULL && !(0 <= first.tail < |next|)
  {
  }

  lemma PassStart(next: seq<Ptr>, m: Cells, cmp: Cmp, hasRes: bool, s0: seq<nat>, keys: Keys, s: seq<nat>,
                  insize: nat, p: Ptr)
    requires insize > 0 && s != [] && IsList(next, p, s) && m.Hold(s) && m.Known(cmp, hasRes, keys)
    requires multiset(s) == multiset(s0) && Runs(s0, keys, s, insize)
    ensures BetweenMerges(next, m, cmp, hasRes, s0, keys, [], s, insize, NULL, NULL) && p == PtrAt(s, 0)
  {
    WithinPerm(s0, s);
    ShapeStart(next, s, p);
    hide *;
    RunsNil(s0, keys, s, 2 * insize);
    BetweenParts(next, m, cmp, hasRes, s0, keys, [], s, insize, NULL, NULL);
  }

  lemma WithinPerm(s0: seq<nat>, s: seq<nat>)
    requires multiset(s) == multiset(s0)
    ensures Within(s0, s) && Within(s0, [])
  {
    forall k | 0 <= k < |s|
      ensures s[k] in s0
    {
      assert s[k] in multiset(s0);
    }
  }

  lemma ShapeStart(next: seq<Ptr>, s: seq<nat>, p: Ptr)
    requires IsList(next, p, s)
    ensures Shape(next, [], [], s, NULL, NULL) && p == PtrAt(s, 0)
  {
  }

  lemma PassEnd(next: seq<Ptr>, m: Cells, cmp: Cmp, hasRes: bool, s0: seq<nat>, keys: Keys, out: seq<nat>,
                insize: nat, list: Ptr, tail: Ptr)
    requires out != [] && BetweenMerges(next, m, cmp, hasRes, s0, keys, out, [], insize, list, tail)
    ensures 0 <= tail < |next| && tail in s0 && IsList(next[tail := NULL], list, out)
    ensures insize > 0 && Runs(s0, keys, out, 2 * insize) && m.Known(cmp, hasRes, keys)
  {
    hide Runs, FullRuns, Ahead, Cells.Known;
    forall k | 0 <= k < |out|
      ensures out[k] < |next| && next[tail := NULL][out[k]] == PtrAt(out, k + 1)
    {
      if k + 1 < |out| {
        assert out[k] != out[|out| - 1];
      }
    }
  }

  lemma AdvanceEnd(cmp: Cmp, hasRes: bool, info: seq<nat>, s0: seq<nat>, next: seq<Ptr>, d: seq<u16>, keys: Keys,
                   next': seq<Ptr>, d': seq<u16>, keys': Keys, tail: Ptr)
    requires Advance(cmp, hasRes, info, s0, next, d, keys, next', d', keys')
    requires 0 <= tail < |next'| && tail in s0
    ensures Advance(cmp, hasRes, info, s0, next, d, keys, next'[tail := NULL], d', keys')
  {
  }

  // ------------------------------------------------------------------- the sort

  /** Ordered by key, and nodes with equal keys as they stood in s. */
  ghost predicate StablySorted(m: Cells, cmp: Cmp, s: seq<nat>, out: seq<nat>) {
    forall a, b :: 0 <= a < b < |out| ==> StablyBefore(m, cmp, s, out[a], out[b])
  }

  /** A smaller key, or the same key and an earlier place. */
  ghost predicate StablyBefore(m: Cells, cmp: Cmp, s: seq<nat>, x: nat, y: nat) {
    && m.HasCell(x) && m.HasCell(y)
    && (m.Key(cmp, x) < m.Key(cmp, y) || (m.Key(cmp, x) == m.Key(cmp, y) && Rank(s, x) < Rank(s, y)))
  }

  ghost predicate AllSettled(m: Cells, cmp: Cmp, hasRes: bool, out: seq<nat>) {
    forall k :: 0 <= k < |out| ==> m.HasCell(out[k]) && Settled(cmp, hasRes, m.Data(out[k]))
  }

  /** What holds before and after every pass. */
  ghost predicate BetweenPasses(next: seq<Ptr>, m: Cells, cmp: Cmp, hasRes: bool, s: seq<nat>, keys: Keys,
                        out: seq<nat>, insize: nat, list: Ptr) {
    && insize > 0 && out != [] && IsList(next, list, out) && m.Hold(out)
    && multiset(out) == multiset(s) && |out| == |s|
    && m.Known(cmp, hasRes, keys) && Runs(s, keys, out, insize)
  }

  method SortPass(mem: Memory, list0: Ptr, insize: int, cmp: Cmp, res: Results?, ghost s: seq<nat>,
                  ghost keys0: Keys, ghost out0: seq<nat>, ghost env: Env, ghost job: Job, ghost k0: nat)
    returns (list: Ptr, nmerges: int, ghost out: seq<nat>, ghost keys: Keys, ghost k: nat)
    requires Serves(cmp, res, env) && Tracks(job, k0, env, cmp, mem, res, s) && NoDup(s) && Poised(s, k0, out0, insize)
    requires insize > 0 && BetweenPasses(mem.next, mem.View(), cmp, res != null, s, keys0, out0, insize, list0)
    modifies mem`next, mem`data16, Repr(res)
    ensures Serves(cmp, res, env) && Tracks(job, k, env, cmp, mem, res, s) && k + 1 >= |s|
    ensures BetweenPasses(mem.next, mem.View(), cmp, res != null, s, keys, out, 2 * insize, list)
    ensures nmerges <= 1 <==> |s| <= 2 * insize
    ensures Advance(cmp, res != null, mem.info, s, old(mem.next), old(mem.data16), keys0, mem.next, mem.data16, keys)
  {
    ReprApart(mem, res);
    hide Serves, Tracks, Poised, NoDup, IsList, Cells.Hold, Cells.Known, Runs, Advance, Repr;
    ghost var m, n, d := mem.View(), mem.next, mem.data16;
    list, nmerges, out, keys, k := MergePass(mem, list0, insize, cmp, res, s, out0, keys0, env, job, k0);
    AdvanceParts(cmp, res != null, mem.info, s, n, d, keys0, mem.next, mem.data16, keys);
    HoldEvolves(m, mem.View(), cmp, res != null, out0);
    HoldPerm(mem.View(), out0, out);
  }

  /** The outer loop: passes with runs of 1, 2, 4, ... nodes until a pass does one merge. */
  method SortPasses(mem: Memory, list0: Ptr, cmp: Cmp, res: Results?, ghost s: seq<nat>, ghost keys0: Keys,
                    ghost env: Env, ghost job: Job)
    returns (list: Ptr, ghost out: seq<nat>, ghost keys: Keys, ghost passes: nat, ghost k: nat)
    requires Serves(cmp, res, env) && Tracks(job, 0, env, cmp, mem, res, s) && NoDup(s)
    requires BetweenPasses(mem.next, mem.View(), cmp, res != null, s, keys0, s, 1, list0)
    modifies mem`next, mem`data16, Repr(res)
    ensures Serves(cmp, res, env) && Tracks(job, k, env, cmp, mem, res, s) && k + 1 >= |s|
    ensures BetweenPasses(mem.next, mem.View(), cmp, res != null, s, keys, out, Pow2(passes), list)
    ensures Advance(cmp, res != null, mem.info, s, old(mem.next), old(mem.data16), keys0, mem.next, mem.data16, keys)
    ensures passes >= 1 && |s| <= Pow2(passes) && (passes > 1 ==> Pow2(passes - 1) < |s|)
  {
    ReprApart(mem, res);
    Pow2Zero();
    hide *;
    list := list0;
    var insize, nmerges := 1, 0;
    keys, out, passes, k := keys0, s, 0, 0;
    PoisedEnds(s, 0, 1);
    AdvanceRefl(cmp, res != null, mem.info, s, mem.next, mem.data16, keys);
    while true
      invariant BetweenPasses(mem.next, mem.View(), cmp, res != null, s, keys, out, insize, list)
      invariant Serves(cmp, res, env) && Tracks(job, k, env, cmp, mem, res, s) && Poised(s, k, out, insize)
      invariant insize > 0 && insize == Pow2(passes) && (passes > 0 ==> insize < |s|)
      invariant Advance(cmp, res != null, mem.info, s, old(mem.next), old(mem.data16), keys0, mem.next, mem.data16,
        keys)
      decreases |s| - insize
    {
      ghost var n1, d1, more := mem.next, mem.data16, keys;
      list, nmerges, out, more, k := SortPass(mem, list, insize, cmp, res, s, keys, out, env, job, k);
      AdvanceTrans(cmp, res != null, mem.info, s, old(mem.next), old(mem.data16), keys0, n1, d1, keys, mem.next,
        mem.data16, more);
      keys := more;
      passes := passes + 1;
      Doubled(passes, insize);
      if nmerges <= 1 {
        return;
      }
      insize := insize * 2;
      PoisedEnds(s, k, insize);
    }
  }

  /** Sorts the list in place.  The cells are touched in the order of the list, each once;
      the order is the stable one by the keys they have then.  `passes` counts the passes. */
  method Mergesort(mem: Memory, list0: Ptr, cmp: Cmp, res: Results?, ghost s: seq<nat>, ghost env: Env)
    returns (list: Ptr, ghost out: seq<nat>, ghost passes: nat)
    requires Serves(cmp, res, env)
    requires s != [] && IsList(mem.next, list0, s) && mem.View().Hold(s)
    modifies mem`next, mem`data16, Repr(res)
    ensures Serves(cmp, res, env)
    ensures IsList(mem.next, list, out) && multiset(out) == multiset(s) && |out| == |s| && mem.View().Hold(out)
    ensures StablySorted(mem.View(), cmp, s, out) && out == StableOrder(mem.View(), cmp, s)
    ensures |s| >= 2 ==> AllSettled(mem.View(), cmp, res != null, out)
    ensures Sorts(env, cmp, res != null, old(mem.data16), old(BenchOf(res)), mem.info, s, mem.data16, BenchOf(res))
    ensures AllEvolved(cmp, res != null, old(mem.data16), mem.data16)
    ensures SameOutside(s, old(mem.next), mem.next) && SameCells(mem.info, s, old(mem.data16), mem.data16)
    ensures passes >= 1 && |s| <= Pow2(passes) && (passes > 1 ==> Pow2(passes - 1) < |s|)
  {
    ghost var job, k := Job(env, cmp, res != null, Machine(mem.data16, BenchOf(res)), mem.info, s), 0;
    JobStart(job, env, cmp, mem, res, s);
    SortStart(mem.next, mem.View(), cmp, res != null, s, list0);
    hide *;
    ghost var keys0: Keys, keys := map[], map[];
    list, out, keys, passes, k := SortPasses(mem, list0, cmp, res, s, keys0, env, job);
    AdvanceParts(cmp, res != null, mem.info, s, old(mem.next), old(mem.data16), keys0, mem.next, mem.data16, keys);
    SortEnd(mem.next, mem.View(), cmp, res != null, s, keys, out, Pow2(passes), list);
    JobEnd(job, k, env, cmp, mem, res, s, out);
    StableOrderUnique(mem.View(), cmp, s, out);
  }

  /** What a sort does to data and benchmarks: every cell of the list is touched, in the
      order of the list; a single node is not compared with anything. */
  ghost predicate Sorts(env: Env, cmp: Cmp, hasRes: bool, d: seq<u16>, b: Bench, info: seq<nat>, s: seq<nat>,
                        d': seq<u16>, b': Bench)
  {
    && Able(env, cmp, Machine(d, b)) && Ranged(d, info, s)
    && Machine(d', b') == if |s| >= 2 then TouchAll(env, cmp, hasRes, Machine(d, b), info, s) else Machine(d, b)
  }

  lemma JobStart(job: Job, env: Env, cmp: Cmp, mem: Memory, res: Results?, s: seq<nat>)
    requires Serves(cmp, res, env) && NoDup(s) && mem.View().Hold(s)
    requires job == Job(env, cmp, res != null, Machine(mem.data16, BenchOf(res)), mem.info, s)
    ensures Tracks(job, 0, env, cmp, mem, res, s)
  {
    hide TextSafe, Env.Ready, NoDup;
    assert s[..0] == [];
  }

  lemma JobEnd(job: Job, k: nat, env: Env, cmp: Cmp, mem: Memory, res: Results?, s: seq<nat>, out: seq<nat>)
    requires Tracks(job, k, env, cmp, mem, res, s) && k + 1 >= |s| && s != [] && multiset(out) == multiset(s)
    requires |s| >= 2 ==> AllSettled(mem.View(), cmp, res != null, out)
    ensures Sorts(env, cmp, res != null, job.start.data16, job.start.bench, mem.info, s, mem.data16, BenchOf(res))
    ensures NoDup(s)
  {
    hide Touch, Settled, NoDup, Able;
    var m := Machine(mem.data16, BenchOf(res));
    if |s| >= 2 {
      var x := s[|s| - 1];
      assert x in multiset(out);
      var i :| 0 <= i < |out| && out[i] == x;
      assert Settled(cmp, res != null, mem.View().Data(out[i]));
      AllTouched(job, k, m);
    } else {
      assert k == 0 && s[..0] == [];
    }
  }

  // ------------------------------------------------------------ the stable order

  function SortKey(m: Cells, cmp: Cmp, x: nat): int {
    if m.HasCell(x) then m.Key(cmp, x) else 0
  }

  /** x in front of the first node whose key is not below its own. */
  function InsertNode(m: Cells, cmp: Cmp, x: nat, out: seq<nat>): (r: seq<nat>)
    ensures multiset(r) == multiset([x] + out)
  {
    if out == [] then [x]
    else if SortKey(m, cmp, x) <= SortKey(m, cmp, out[0]) then [x] + out
    else
      assert out == [out[0]] + out[1..];
      [out[0]] + InsertNode(m, cmp, x, out[1..])
  }

  /** The nodes of s by key, those with equal keys as they stand in s. */
  function StableOrder(m: Cells, cmp: Cmp, s: seq<nat>): (r: seq<nat>)
    ensures multiset(r) == multiset(s)
  {
    if s == [] then [] else
      assert s == [s[0]] + s[1..];
      InsertNode(m, cmp, s[0], StableOrder(m, cmp, s[1..]))
  }

  predicate Ordered(m: Cells, cmp: Cmp, s0: seq<nat>, x: nat, y: nat) {
    || SortKey(m, cmp, x) < SortKey(m, cmp, y)
    || (SortKey(m, cmp, x) == SortKey(m, cmp, y) && Rank(s0, x) < Rank(s0, y))
  }

  predicate InOrderOf(m: Cells, cmp: Cmp, s0: seq<nat>, out: seq<nat>) {
    forall a, b :: 0 <= a < b < |out| ==> Ordered(m, cmp, s0, out[a], out[b])
  }

  /** x stands before all of out. */
  ghost predicate First(m: Cells, cmp: Cmp, s0: seq<nat>, x: nat, out: seq<nat>) {
    forall y :: y in out ==> Ordered(m, cmp, s0, x, y)
  }

  lemma ConsInOrder(m: Cells, cmp: Cmp, s0: seq<nat>, x: nat, out: seq<nat>)
    ensures InOrderOf(m, cmp, s0, [x] + out) <==> InOrderOf(m, cmp, s0, out) && First(m, cmp, s0, x, out)
  {
    hide Ordered;
    var r := [x] + out;
    if InOrderOf(m, cmp, s0, r) {
      forall a, b | 0 <= a < b < |out|
        ensures Ordered(m, cmp, s0, out[a], out[b])
      {
        assert Ordered(m, cmp, s0, r[a + 1], r[b + 1]);
      }
      forall y | y in out
        ensures Ordered(m, cmp, s0, x, y)
      {
        var i :| 0 <= i < |out| && out[i] == y;
        assert Ordered(m, cmp, s0, r[0], r[i + 1]);
      }
    }
    if InOrderOf(m, cmp, s0, out) && First(m, cmp, s0, x, out) {
      forall a, b | 0 <= a < b < |r|
        ensures Ordered(m, cmp, s0, r[a], r[b])
      {
        if a > 0 {
          assert Ordered(m, cmp, s0, out[a - 1], out[b - 1]);
        } else {
          assert r[b] == out[b - 1];
        }
      }
    }
  }

  /** Earlier in the list, with a key that is not above that of the first. */
  lemma FirstByRank(m: Cells, cmp: Cmp, s0: seq<nat>, x: nat, out: seq<nat>)
    requires out != [] && First(m, cmp, s0, out[0], out[1..]) && SortKey(m, cmp, x) <= SortKey(m, cmp, out[0])
    requires forall y :: y in out ==> Rank(s0, x) < Rank(s0, y)
    ensures First(m, cmp, s0, x, out)
  {
    hide Rank, SortKey;
    forall y | y in out
      ensures Ordered(m, cmp, s0, x, y)
    {
      if y != out[0] {
        var i :| 0 <= i < |out| && out[i] == y;
        assert out[1..][i - 1] == y;
        assert Ordered(m, cmp, s0, out[0], y);
      }
    }
  }

  lemma FirstInserted(m: Cells, cmp: Cmp, s0: seq<nat>, x: nat, y: nat, out: seq<nat>)
    requires First(m, cmp, s0, y, out) && SortKey(m, cmp, y) < SortKey(m, cmp, x)
    ensures First(m, cmp, s0, y, InsertNode(m, cmp, x, out))
  {
    hide Rank, SortKey, InsertNode;
    var r := InsertNode(m, cmp, x, out);
    forall z | z in r
      ensures Ordered(m, cmp, s0, y, z)
    {
      assert z in multiset(r);
      assert z == x || z in multiset(out);
    }
  }

  lemma InsertTurn(m: Cells, cmp: Cmp, x: nat, out: seq<nat>)
    ensures out == [] ==> InsertNode(m, cmp, x, out) == [x]
    ensures out != [] && SortKey(m, cmp, x) <= SortKey(m, cmp, out[0]) ==> InsertNode(m, cmp, x, out) == [x] + out
    ensures out != [] && SortKey(m, cmp, x) > SortKey(m, cmp, out[0])
      ==> InsertNode(m, cmp, x, out) == [out[0]] + InsertNode(m, cmp, x, out[1..])
  {
  }

  lemma {:induction false} InsertOrdered(m: Cells, cmp: Cmp, s0: seq<nat>, x: nat, out: seq<nat>)
    requires InOrderOf(m, cmp, s0, out) && forall y :: y in out ==> Rank(s0, x) < Rank(s0, y)
    ensures InOrderOf(m, cmp, s0, InsertNode(m, cmp, x, out))
  {
    if out == [] {
      assert InOrderOf(m, cmp, s0, [x]);
    }
    hide *;
    InsertTurn(m, cmp, x, out);
    if out != [] {
      assert out == [out[0]] + out[1..];
      ConsInOrder(m, cmp, s0, out[0], out[1..]);
      if SortKey(m, cmp, x) <= SortKey(m, cmp, out[0]) {
        FirstByRank(m, cmp, s0, x, out);
        ConsInOrder(m, cmp, s0, x, out);
      } else {
        InsertOrdered(m, cmp, s0, x, out[1..]);
        FirstInserted(m, cmp, s0, x, out[0], out[1..]);
        ConsInOrder(m, cmp, s0, out[0], InsertNode(m, cmp, x, out[1..]));
      }
    }
  }

  lemma {:induction false} StableOrderOrdered(m: Cells, cmp: Cmp, s0: seq<nat>, t: seq<nat>)
    requires forall a, b :: 0 <= a < b < |t| ==> Rank(s0, t[a]) < Rank(s0, t[b])
    ensures InOrderOf(m, cmp, s0, StableOrder(m, cmp, t))
  {
    hide Rank, Ordered;
    if t != [] {
      forall a, b | 0 <= a < b < |t| - 1
        ensures Rank(s0, t[1..][a]) < Rank(s0, t[1..][b])
      {
        assert Rank(s0, t[a + 1]) < Rank(s0, t[b + 1]);
      }
      StableOrderOrdered(m, cmp, s0, t[1..]);
      var u := StableOrder(m, cmp, t[1..]);
      forall y | y in u
        ensures Rank(s0, t[0]) < Rank(s0, y)
      {
        assert y in multiset(t[1..]);
        var i :| 0 <= i < |t| - 1 && t[1..][i] == y;
        assert Rank(s0, t[0]) < Rank(s0, t[i + 1]);
      }
      InsertOrdered(m, cmp, s0, t[0], u);
    }
  }

  lemma OrderedSorted(m: Cells, cmp: Cmp, s0: seq<nat>, keys: Keys, out: seq<nat>)
    requires InOrderOf(m, cmp, s0, out) && forall x :: x in out ==> x in keys && keys[x] == SortKey(m, cmp, x)
    ensures Sorted(s0, keys, out)
  {
    hide Rank, SortKey;
    forall a, b | 0 <= a < b < |out|
      ensures Before(s0, keys, out[a], out[b])
    {
      assert Ordered(m, cmp, s0, out[a], out[b]);
      assert out[a] in out && out[b] in out;
    }
  }

  /** A stably sorted rearrangement is the stable order. */
  lemma StableOrderUnique(m: Cells, cmp: Cmp, s: seq<nat>, out: seq<nat>)
    requires NoDup(s) && StablySorted(m, cmp, s, out) && multiset(out) == multiset(s)
    ensures out == StableOrder(m, cmp, s)
  {
    hide *;
    var r := StableOrder(m, cmp, s);
    RanksGrow(s);
    StableOrderOrdered(m, cmp, s, s);
    StablyInOrder(m, cmp, s, out);
    var keys := SortKeys(m, cmp, s);
    SameNodes(s, r);
    SameNodes(s, out);
    OrderedSorted(m, cmp, s, keys, r);
    OrderedSorted(m, cmp, s, keys, out);
    SortedUnique(s, keys, out, r);
  }

  lemma SortKeys(m: Cells, cmp: Cmp, s: seq<nat>) returns (keys: Keys)
    ensures forall x :: x in s ==> x in keys && keys[x] == SortKey(m, cmp, x)
  {
    keys := map x: nat | x in s :: SortKey(m, cmp, x);
  }

  lemma RanksGrow(s: seq<nat>)
    requires NoDup(s)
    ensures forall a, b :: 0 <= a < b < |s| ==> Rank(s, s[a]) < Rank(s, s[b])
  {
    forall a, b | 0 <= a < b < |s|
      ensures Rank(s, s[a]) < Rank(s, s[b])
    {
      RankAt(s, a);
      RankAt(s, b);
    }
  }

  lemma StablyInOrder(m: Cells, cmp: Cmp, s: seq<nat>, out: seq<nat>)
    requires StablySorted(m, cmp, s, out)
    ensures InOrderOf(m, cmp, s, out)
  {
    hide Rank;
    forall a, b | 0 <= a < b < |out|
      ensures Ordered(m, cmp, s, out[a], out[b])
    {
      assert StablyBefore(m, cmp, s, out[a], out[b]);
    }
  }

  lemma SameNodes(s: seq<nat>, t: seq<nat>)
    requires multiset(t) == multiset(s)
    ensures forall x :: x in t ==> x in s
  {
    assert forall x :: x in t ==> x in multiset(t);
  }

  lemma Doubled(passes: nat, insize: nat)
    ensures passes > 0 && insize == Pow2(passes - 1) ==> Pow2(passes) == 2 * insize
  {
  }

  lemma HoldPerm(m: Cells, s: seq<nat>, out: seq<nat>)
    requires m.Hold(s) && multiset(out) == multiset(s)
    ensures m.Hold(out) && |out| == |s|
  {
    assert |multiset(out)| == |out| && |multiset(s)| == |s|;
    forall k | 0 <= k < |out|
      ensures out[k] in s
    {
      assert out[k] in multiset(s);
    }
  }

  /** To begin with every run of one node is sorted and no key is known. */
  lemma {:induction false} SingletonRuns(s0: seq<nat>, s: seq<nat>, t: seq<nat>)
    requires NoDup(s0) && s0 == t + s
    ensures Runs(s0, map[], s, 1)
    decreases |s|
  {
    if |s| > 1 {
      var u := t + [s[0]];
      assert s0 == u + s[1..];
      SingletonRuns(s0, s[1..], u);
      assert s0[|t|] == s[0];
      RankAt(s0, |t|);
      forall b | 0 <= b < |s| - 1
        ensures Rank(s0, s[0]) < Rank(s0, s[1..][b])
      {
        assert s0[|t| + 1 + b] == s[1..][b];
        RankAt(s0, |t| + 1 + b);
      }
    }
  }

  lemma SortStart(next: seq<Ptr>, m: Cells, cmp: Cmp, hasRes: bool, s: seq<nat>, list: Ptr)
    requires s != [] && IsList(next, list, s) && m.Hold(s)
    ensures BetweenPasses(next, m, cmp, hasRes, s, map[], s, 1, list)
  {
    assert s == [] + s;
    SingletonRuns(s, s, []);
    hide *;
    BetweenPassesParts(next, m, cmp, hasRes, s, map[], s, 1, list);
    KnownNothing(m, cmp, hasRes);
  }

  lemma Pow2Zero()
    ensures Pow2(0) == 1
  {
  }

  lemma KnownNothing(m: Cells, cmp: Cmp, hasRes: bool)
    ensures m.Known(cmp, hasRes, map[])
  {
  }

  lemma BetweenPassesParts(next: seq<Ptr>, m: Cells, cmp: Cmp, hasRes: bool, s: seq<nat>, keys: Keys, out: seq<nat>,
                        insize: nat, list: Ptr)
    ensures BetweenPasses(next, m, cmp, hasRes, s, keys, out, insize, list) <==>
      && insize > 0 && out != [] && IsList(next, list, out) && m.Hold(out)
      && multiset(out) == multiset(s) && |out| == |s|
      && m.Known(cmp, hasRes, keys) && Runs(s, keys, out, insize)
  {
  }

  lemma SortEnd(next: seq<Ptr>, m: Cells, cmp: Cmp, hasRes: bool, s: seq<nat>, keys: Keys, out: seq<nat>, w: nat,
                list: Ptr)
    requires BetweenPasses(next, m, cmp, hasRes, s, keys, out, w, list) && |s| <= w
    ensures StablySorted(m, cmp, s, out)
    ensures |s| >= 2 ==> AllSettled(m, cmp, hasRes, out)
    ensures IsList(next, list, out) && multiset(out) == multiset(s) && |out| == |s| && m.Hold(out)
  {
    hide Rank, Links, NoDup;
    forall a, b | 0 <= a < b < |out|
      ensures Before(s, keys, out[a], out[b])
    {
    }
    if |out| >= 2 {
      SortedKnown(s, keys, out);
    }
  }

  /** What sorting by `cmp_complex` leaves behind, whatever the inner benchmarks returned:
      every cell of the list holds a cached value, its backup byte is untouched, and the
      cached values go up; equal ones are in the order in which their nodes came. */
  lemma ComplexSortMeaning(m: Cells, d0: seq<u16>, s: seq<nat>, out: seq<nat>)
    requires StablySorted(m, CmpComplex, s, out) && AllSettled(m, CmpComplex, true, out)
    requires AllEvolved(CmpComplex, true, d0, m.data16)
    ensures forall k :: 0 <= k < |out| ==> m.HasCell(out[k]) && m.info[out[k]] < |d0|
    ensures forall k :: 0 <= k < |out| ==> Cached(m.Data(out[k])) && High(m.Data(out[k])) == High(d0[m.info[out[k]]])
    ensures forall k :: 0 <= k < |out| && Cached(d0[m.info[out[k]]]) ==> m.Data(out[k]) == d0[m.info[out[k]]]
    ensures forall a, b :: 0 <= a < b < |out| ==> (
      && m.Data(out[a]) % 0x80 <= m.Data(out[b]) % 0x80
      && (m.Data(out[a]) % 0x80 == m.Data(out[b]) % 0x80 ==> Rank(s, out[a]) < Rank(s, out[b])))
  {
    hide Rank;
    forall k | 0 <= k < |out|
      ensures m.HasCell(out[k]) && m.info[out[k]] < |d0|
        && Evolved(CmpComplex, true, d0[m.info[out[k]]], m.Data(out[k]))
      ensures Settled(CmpComplex, true, m.Data(out[k]))
    {
    }
    forall a, b | 0 <= a < b < |out|
      ensures m.Key(CmpComplex, out[a]) == m.Data(out[a]) % 0x80 && m.Key(CmpComplex, out[b]) == m.Data(out[b]) % 0x80
    {
    }
    hide Cached, High;
  }
}
