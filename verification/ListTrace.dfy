/** In which order `core_list_mergesort` touches the cells it compares: the order of the
    list.  The first pass compares neighbours from the head on; only the last node of an
    odd number is left for a later pass. */
module ListTrace {
  import opened MachineInts
  import opened ListOrder
  import opened ListMemory
  import opened ListCompare

  /** The nodes of s point at cells. */
  predicate Ranged(d: seq<u16>, info: seq<nat>, s: seq<nat>) {
    forall k :: 0 <= k < |s| ==> s[k] < |info| && info[s[k]] < |d|
  }

  /** The cells of s touched one after another. */
  ghost function TouchAll(env: Env, cmp: Cmp, hasRes: bool, m: Machine, info: seq<nat>, s: seq<nat>): (m': Machine)
    requires Able(env, cmp, m) && Ranged(m.data16, info, s)
    ensures Able(env, cmp, m') && |m'.data16| == |m.data16|
  {
    if s == [] then m
    else Touch(env, cmp, hasRes, TouchAll(env, cmp, hasRes, m, info, s[..|s| - 1]), info[s[|s| - 1]])
  }

  /** All of them are settled then, and no other cell has changed. */
  lemma {:induction false} TouchedSettled(env: Env, cmp: Cmp, hasRes: bool, m: Machine, info: seq<nat>, s: seq<nat>)
    requires Able(env, cmp, m) && Ranged(m.data16, info, s)
    ensures var d := TouchAll(env, cmp, hasRes, m, info, s).data16;
      && AllEvolved(cmp, hasRes, m.data16, d) && SameCells(info, s, m.data16, d)
      && forall i :: 0 <= i < |s| ==> Settled(cmp, hasRes, d[info[s[i]]])
    decreases |s|
  {
    hide Touch, Settled;
    if s == [] {
      AllEvolvedRefl(cmp, hasRes, m.data16);
    } else {
      var t, c := s[..|s| - 1], info[s[|s| - 1]];
      var m1 := TouchAll(env, cmp, hasRes, m, info, t);
      TouchedSettled(env, cmp, hasRes, m, info, t);
      TouchSettles(env, cmp, hasRes, m1, c);
      var d := Touch(env, cmp, hasRes, m1, c).data16;
      AllEvolvedTrans(cmp, hasRes, m.data16, m1.data16, d);
      MoreCells(info, s);
      forall i | 0 <= i < |s|
        ensures Settled(cmp, hasRes, d[info[s[i]]])
      {
        if i < |s| - 1 {
          assert Settled(cmp, hasRes, m1.data16[info[t[i]]]);
          assert Evolved(cmp, hasRes, m1.data16[info[s[i]]], d[info[s[i]]]);
        }
      }
    }
  }

  lemma MoreCells(info: seq<nat>, s: seq<nat>)
    requires s != [] && s[|s| - 1] < |info|
    ensures CellsOf(info, s) == CellsOf(info, s[..|s| - 1]) + {info[s[|s| - 1]]}
  {
    var t := s[..|s| - 1];
    forall c | c in CellsOf(info, s)
      ensures c in CellsOf(info, t) || c == info[s[|s| - 1]]
    {
      var k :| 0 <= k < |s| && s[k] < |info| && info[s[k]] == c;
      if k < |t| {
        assert t[k] == s[k];
      }
    }
    forall c | c in CellsOf(info, t)
      ensures c in CellsOf(info, s)
    {
      var k :| 0 <= k < |t| && t[k] < |info| && info[t[k]] == c;
      assert s[k] == t[k];
    }
  }

  /** A sort: what it starts from. */
  datatype Job = Job(env: Env, cmp: Cmp, hasRes: bool, start: Machine, info: seq<nat>, s0: seq<nat>) {
    ghost predicate Valid() {
      Able(env, cmp, start) && Ranged(start.data16, info, s0) && NoDup(s0)
    }

    /** The first k nodes of the list have been touched. */
    ghost predicate At(k: nat, m: Machine) {
      && Valid() && k <= |s0| && (k > 0 ==> |s0| >= 2)
      && m == TouchAll(env, cmp, hasRes, start, info, s0[..k])
    }
  }

  /** How far a comparison of the two heads gets, if there are two. */
  function Reach(s0: seq<nat>, k: nat, ps: seq<nat>, qs: seq<nat>): nat {
    if ps == [] || qs == [] || Rank(s0, qs[0]) < k then k else Rank(s0, qs[0]) + 1
  }

  /** Only the last node is untouched, if any, or two single nodes are next. */
  predicate Due(s0: seq<nat>, k: nat, ps: seq<nat>, qs: seq<nat>) {
    || k + 1 >= |s0|
    || (|ps| <= 1 && |qs| <= 1 && (ps != [] && qs != [] ==> Rank(s0, ps[0]) == k && Rank(s0, qs[0]) == k + 1))
  }

  lemma {:induction false} RankIn(s: seq<nat>, x: nat)
    requires x in s
    ensures Rank(s, x) < |s| && s[Rank(s, x)] == x
  {
    if s[0] != x {
      RankIn(s[1..], x);
    }
  }

  lemma DueHeads(s0: seq<nat>, k: nat, ps: seq<nat>, qs: seq<nat>)
    requires Due(s0, k, ps, qs) && ps != [] && qs != [] && ps[0] in s0 && qs[0] in s0 && Ahead(s0, ps, qs)
    ensures Rank(s0, ps[0]) < Rank(s0, qs[0]) < |s0|
    ensures if Rank(s0, ps[0]) < k then Rank(s0, qs[0]) <= k else Rank(s0, ps[0]) == k && Rank(s0, qs[0]) == k + 1
  {
    RankIn(s0, ps[0]);
    RankIn(s0, qs[0]);
    hide Rank;
  }

  lemma TouchedAgain(job: Job, k: nat, m: Machine, x: nat)
    requires job.At(k, m) && x in job.s0 && Rank(job.s0, x) < k
    ensures x < |job.info| && job.info[x] < |m.data16| && Able(job.env, job.cmp, m)
    ensures Touch(job.env, job.cmp, job.hasRes, m, job.info[x]) == m
  {
    RankIn(job.s0, x);
    var i := Rank(job.s0, x);
    hide Rank, Touch, Settled;
    assert job.s0[..k][i] == x;
    TouchedSettled(job.env, job.cmp, job.hasRes, job.start, job.info, job.s0[..k]);
    TouchSettles(job.env, job.cmp, job.hasRes, m, job.info[x]);
  }

  lemma TouchedNext(job: Job, k: nat, m: Machine, x: nat)
    requires job.At(k, m) && x in job.s0 && Rank(job.s0, x) == k && |job.s0| >= 2
    ensures x < |job.info| && job.info[x] < |m.data16| && Able(job.env, job.cmp, m)
    ensures job.At(k + 1, Touch(job.env, job.cmp, job.hasRes, m, job.info[x]))
  {
    RankIn(job.s0, x);
    hide Rank, Touch;
    assert job.s0[..k + 1][..k] == job.s0[..k];
  }

  lemma ReachIs(s0: seq<nat>, k: nat, ps: seq<nat>, qs: seq<nat>)
    requires ps != [] && qs != []
    ensures Reach(s0, k, ps, qs) == if Rank(s0, qs[0]) < k then k else Rank(s0, qs[0]) + 1
  {
  }

  lemma ComparedIs(job: Job, k: nat, m: Machine, p: nat, q: nat)
    requires job.At(k, m) && p in job.s0 && q in job.s0
    ensures p < |job.info| && q < |job.info| && Able(job.env, job.cmp, m)
    ensures job.info[p] < |m.data16| && job.info[q] < |m.data16|
    ensures Compared(job.env, job.cmp, job.hasRes, m, job.info[p], job.info[q])
      == Touch(job.env, job.cmp, job.hasRes, Touch(job.env, job.cmp, job.hasRes, m, job.info[p]), job.info[q])
  {
    hide Touch;
  }

  /** A comparison of the two heads moves the trace on along the list. */
  lemma ComparedHeads(job: Job, k: nat, m: Machine, ps: seq<nat>, qs: seq<nat>)
    requires job.At(k, m) && Due(job.s0, k, ps, qs) && Ahead(job.s0, ps, qs)
    requires ps != [] && qs != [] && ps[0] in job.s0 && qs[0] in job.s0
    ensures ps[0] < |job.info| && qs[0] < |job.info| && Able(job.env, job.cmp, m)
    ensures job.info[ps[0]] < |m.data16| && job.info[qs[0]] < |m.data16|
    ensures job.At(Reach(job.s0, k, ps, qs), Compared(job.env, job.cmp, job.hasRes, m, job.info[ps[0]],
      job.info[qs[0]]))
  {
    hide *;
    var p, q := ps[0], qs[0];
    DueHeads(job.s0, k, ps, qs);
    ReachIs(job.s0, k, ps, qs);
    ComparedIs(job, k, m, p, q);
    if Rank(job.s0, p) < k {
      TouchedAgain(job, k, m, p);
      if Rank(job.s0, q) < k {
        TouchedAgain(job, k, m, q);
      } else {
        TouchedNext(job, k, m, q);
      }
    } else {
      TouchedNext(job, k, m, p);
      TouchedNext(job, k + 1, Touch(job.env, job.cmp, job.hasRes, m, job.info[p]), q);
    }
  }

  // ------------------------------------------------------------------- one merge

  /** Where the trace may be in a merge that began with ps0 and qs0 at k0. */
  predicate Halfway(s0: seq<nat>, k0: nat, k: nat, ps0: seq<nat>, qs0: seq<nat>, ps: seq<nat>, qs: seq<nat>) {
    && Due(s0, k, ps, qs) && k0 <= k
    && ((k == k0 && ps == ps0 && qs == qs0) || Ended(s0, k0, k, ps0, qs0, ps, qs))
  }

  predicate Ended(s0: seq<nat>, k0: nat, k: nat, ps0: seq<nat>, qs0: seq<nat>, ps: seq<nat>, qs: seq<nat>) {
    k0 + 1 < |s0| && ps0 != [] && qs0 != [] ==> k == k0 + 2 && (ps == [] || qs == [])
  }

  lemma HalfwayStep(s0: seq<nat>, k0: nat, k: nat, ps0: seq<nat>, qs0: seq<nat>, ps: seq<nat>, qs: seq<nat>)
    requires Halfway(s0, k0, k, ps0, qs0, ps, qs)
    ensures ps != [] ==> Halfway(s0, k0, Reach(s0, k, ps, qs), ps0, qs0, ps[1..], qs)
    ensures qs != [] ==> Halfway(s0, k0, Reach(s0, k, ps, qs), ps0, qs0, ps, qs[1..])
  {
    hide Rank;
  }

  lemma HalfwayDue(s0: seq<nat>, k0: nat, k: nat, ps0: seq<nat>, qs0: seq<nat>, ps: seq<nat>, qs: seq<nat>)
    requires Halfway(s0, k0, k, ps0, qs0, ps, qs)
    ensures Due(s0, k, ps, qs)
  {
  }

  /** What a whole merge does to the trace. */
  predicate Merged(s0: seq<nat>, k0: nat, k: nat, ps0: seq<nat>, qs0: seq<nat>) {
    k0 <= k && (k0 + 1 < |s0| && ps0 != [] && qs0 != [] ==> k == k0 + 2)
  }

  lemma HalfwayEnds(s0: seq<nat>, k0: nat, k: nat, ps0: seq<nat>, qs0: seq<nat>)
    ensures Due(s0, k0, ps0, qs0) ==> Halfway(s0, k0, k0, ps0, qs0, ps0, qs0)
    ensures ps0 != [] && Halfway(s0, k0, k, ps0, qs0, [], []) ==> Merged(s0, k0, k, ps0, qs0)
  {
    hide Rank;
  }

  // -------------------------------------------------------------------- one pass

  /** Before a merge: only the last node is untouched, if any, or this is the first pass and
      the nodes to come are the untouched ones. */
  predicate Poised(s0: seq<nat>, k: nat, left: seq<nat>, insize: int) {
    k + 1 >= |s0| || (insize == 1 && k <= |s0| && left == s0[k..])
  }

  lemma PoisedDue(s0: seq<nat>, k: nat, ps: seq<nat>, qs: seq<nat>, rest: seq<nat>, insize: int)
    requires NoDup(s0) && Poised(s0, k, ps + (qs + rest), insize) && |ps| <= insize && |qs| <= insize
    requires (|ps| < insize ==> qs == [] && rest == []) && (|qs| < insize ==> rest == [])
    ensures Due(s0, k, ps, qs)
  {
    if k + 1 < |s0| {
      var left := ps + (qs + rest);
      assert |left| >= 2;
      assert left[0] == ps[0] == s0[k] && left[1] == qs[0] == s0[k + 1];
      RankAt(s0, k);
      RankAt(s0, k + 1);
    }
  }

  lemma PoisedNext(s0: seq<nat>, k: nat, k': nat, ps: seq<nat>, qs: seq<nat>, rest: seq<nat>, insize: int)
    requires Poised(s0, k, ps + (qs + rest), insize) && |ps| <= insize && |qs| <= insize
    requires (|ps| < insize ==> qs == [] && rest == []) && (|qs| < insize ==> rest == [])
    requires Merged(s0, k, k', ps, qs)
    ensures Poised(s0, k', rest, insize)
  {
    if k + 1 < |s0| {
      var left := ps + (qs + rest);
      assert |left| >= 2;
      assert left[2..] == rest;
    }
  }

  lemma PoisedEnds(s0: seq<nat>, k: nat, insize: int)
    ensures Poised(s0, 0, s0, 1)
    ensures Poised(s0, k, [], insize) ==> k + 1 >= |s0|
    ensures forall left :: k + 1 >= |s0| ==> Poised(s0, k, left, insize)
  {
    assert s0[0..] == s0;
  }

  /** When all cells of the list are settled, the whole list has been touched. */
  lemma AllTouched(job: Job, k: nat, m: Machine)
    requires job.At(k, m) && k + 1 >= |job.s0| >= 2
    requires Settled(job.cmp, job.hasRes, m.data16[job.info[job.s0[|job.s0| - 1]]])
    ensures m == TouchAll(job.env, job.cmp, job.hasRes, job.start, job.info, job.s0)
  {
    hide Settled, Touch, TouchAll;
    var s0 := job.s0;
    if k < |s0| {
      TouchSettles(job.env, job.cmp, job.hasRes, m, job.info[s0[k]]);
      TouchAllNext(job.env, job.cmp, job.hasRes, job.start, job.info, s0, k);
    } else {
      assert s0[..k] == s0;
    }
  }

  /** One more node is touched after the others. */
  lemma TouchAllNext(env: Env, cmp: Cmp, hasRes: bool, m: Machine, info: seq<nat>, s: seq<nat>, k: nat)
    requires Able(env, cmp, m) && Ranged(m.data16, info, s) && |s| == k + 1
    ensures TouchAll(env, cmp, hasRes, m, info, s)
      == Touch(env, cmp, hasRes, TouchAll(env, cmp, hasRes, m, info, s[..k]), info[s[k]])
  {
    hide Touch;
  }
}
