/** What a run of `iterate` does to the state text, and exactly when it gives it back. */
module CoreText {
  import opened MachineInts
  import opened StateBench
  import opened ListOrder
  import opened ListMemory
  import opened ListCompare
  import opened ListTrace
  import opened ListBench
  import opened CoreIterate

  // ---------------------------------------------------------------- steps of a run

  /** The step of the state benchmark a data word asks for, if it asks for one. */
  function StepsOf(d: u16): (steps: seq<nat>)
    ensures AreSteps(steps)
  {
    if !Cached(d) && d % 8 == 0 then [StepOf(d)] else []
  }

  /** The state benchmarks that touching the cells of s starts, in order. */
  ghost function TouchSteps(env: Env, m: Machine, info: seq<nat>, s: seq<nat>): (steps: seq<nat>)
    requires Able(env, CmpComplex, m) && Ranged(m.data16, info, s)
    ensures AreSteps(steps)
  {
    if s == [] then [] else
      var t := TouchAll(env, CmpComplex, true, m, info, s[..|s| - 1]);
      TouchSteps(env, m, info, s[..|s| - 1]) + StepsOf(t.data16[info[s[|s| - 1]]])
  }

  /** The state benchmarks of the sort by data of one iteration. */
  ghost function RoundSteps(env: Env, m: Cells, findNum: s16, r: Run): (steps: seq<nat>)
    requires RunReady(env, m, r)
    ensures AreSteps(steps)
  {
    var f := AllFinds(m, r.s, findNum, 1);
    HoldRanged(m, f.s);
    TouchSteps(env, Machine(m.data16, r.bench), m.info, f.s)
  }

  /** The state benchmarks of k iterations. */
  ghost function RunSteps(env: Env, m: Cells, findNum: s16, r: Run, k: nat): (steps: seq<nat>)
    requires RunReady(env, m, r)
    ensures AreSteps(steps)
  {
    if k == 0 then [] else
      RunSteps(env, m, findNum, r, k - 1) + RoundSteps(env, m, findNum, RoundsAfter(env, m, findNum, r, k - 1))
  }

  lemma {:induction false} TouchText(env: Env, m: Machine, info: seq<nat>, s: seq<nat>)
    requires Able(env, CmpComplex, m) && Ranged(m.data16, info, s)
    ensures TouchAll(env, CmpComplex, true, m, info, s).bench.text
      == SweptAll(m.bench.text, env.mask1, env.mask2, TouchSteps(env, m, info, s))
    decreases |s|
  {
    if s != [] {
      var t := TouchAll(env, CmpComplex, true, m, info, s[..|s| - 1]);
      var c := info[s[|s| - 1]];
      hide StaysScannable, Env.Ready, Touch, StepsOf, SweptAll;
      TouchText(env, m, info, s[..|s| - 1]);
      OneTouchText(env, t, c);
      SweptAppend(m.bench.text, env.mask1, env.mask2, TouchSteps(env, m, info, s[..|s| - 1]), StepsOf(t.data16[c]));
    }
  }

  lemma OneTouchText(env: Env, m: Machine, cell: nat)
    requires Able(env, CmpComplex, m) && cell < |m.data16|
    ensures Touch(env, CmpComplex, true, m, cell).bench.text
      == SweptAll(m.bench.text, env.mask1, env.mask2, StepsOf(m.data16[cell]))
  {
    hide StaysScannable, Env.Ready, OpResult, Swept, StepOf;
    var steps := StepsOf(m.data16[cell]);
    assert steps != [] ==> steps[1..] == [];
  }

  lemma RoundText(env: Env, m: Cells, findNum: s16, r: Run)
    requires RunReady(env, m, r)
    ensures RoundAfter(env, m, findNum, r).bench.text
      == SweptAll(r.bench.text, env.mask1, env.mask2, RoundSteps(env, m, findNum, r))
  {
    hide *;
    RoundIs(env, m, findNum, r);
    var q := Turn(env, m, findNum, 1, r);
    TurnIs(env, m, findNum, 1, r);
    TurnIs(env, m, findNum, -1, q);
    RunParts(env, m, r);
    RunParts(env, m, q);
    SortText(env, m, findNum, r);
    NoSortText(env, m, q.s, findNum, q.bench);
  }

  lemma SortText(env: Env, m: Cells, findNum: s16, r: Run)
    requires RunReady(env, m, r)
    ensures AfterSort(env, m, r.s, findNum, 1, r.bench).bench.text
      == SweptAll(r.bench.text, env.mask1, env.mask2, RoundSteps(env, m, findNum, r))
  {
    hide AllFinds, TouchAll, TouchSteps, SweptAll, Able, NoDup, IndexSorted, Cells.Hold;
    var f := AllFinds(m, r.s, findNum, 1);
    HoldRanged(m, f.s);
    TouchText(env, Machine(m.data16, r.bench), m.info, f.s);
  }

  lemma NoSortText(env: Env, m: Cells, s: seq<nat>, findNum: s16, b: Bench)
    requires BenchReady(env, m, s, b)
    ensures AfterSort(env, m, s, findNum, -1, b).bench == b
  {
    hide AllFinds, Able, NoDup;
  }

  /** The text after k iterations is the initial one swept with the steps of the run. */
  lemma {:induction false} RunText(env: Env, m: Cells, findNum: s16, r: Run, k: nat)
    requires RunReady(env, m, r)
    ensures RoundsAfter(env, m, findNum, r, k).bench.text
      == SweptAll(r.bench.text, env.mask1, env.mask2, RunSteps(env, m, findNum, r, k))
  {
    hide *;
    RunStepsTurn(env, m, findNum, r, k);
    if k == 0 {
      RoundsTurn(env, m, findNum, r, 0);
      SweptNothing(r.bench.text, env.mask1, env.mask2);
    } else {
      RunText(env, m, findNum, r, k - 1);
      RoundsTurn(env, m, findNum, r, k - 1);
      var q := RoundsAfter(env, m, findNum, r, k - 1);
      RoundText(env, m, findNum, q);
      SweptAppend(r.bench.text, env.mask1, env.mask2, RunSteps(env, m, findNum, r, k - 1),
        RoundSteps(env, m, findNum, q));
    }
  }

  lemma SweptNothing(s: seq<u8>, x1: u8, x2: u8)
    ensures SweptAll(s, x1, x2, []) == s
  {
  }

  lemma RunStepsTurn(env: Env, m: Cells, findNum: s16, r: Run, k: nat)
    requires RunReady(env, m, r)
    ensures k == 0 ==> RunSteps(env, m, findNum, r, k) == []
    ensures k > 0 ==> (
      var q := RoundsAfter(env, m, findNum, r, k - 1);
      RunSteps(env, m, findNum, r, k) == RunSteps(env, m, findNum, r, k - 1) + RoundSteps(env, m, findNum, q))
  {
    hide RunReady, RoundSteps, RoundsAfter;
  }

  // ------------------------------------------------------- which steps those are

  /** Some node of s asks for a state benchmark with that step. */
  ghost predicate AsksFor(m: Cells, s: seq<nat>, step: nat) {
    exists x :: x in s && m.HasCell(x) && step in StepsOf(m.Data(x))
  }

  lemma AsksSame(m: Cells, s: seq<nat>, t: seq<nat>, step: nat)
    requires AsksFor(m, s, step) && forall x :: x in s ==> x in t
    ensures AsksFor(m, t, step)
  {
    hide StepsOf;
    var x :| x in s && m.HasCell(x) && step in StepsOf(m.Data(x));
    assert x in t;
  }

  /** A cell starts its benchmark at the first touch, and never again. */
  lemma {:induction false} TouchStepsIn(env: Env, m: Cells, b: Bench, s: seq<nat>, step: nat)
    requires Able(env, CmpComplex, Machine(m.data16, b)) && m.Hold(s)
    ensures Ranged(m.data16, m.info, s)
    ensures step in TouchSteps(env, Machine(m.data16, b), m.info, s) <==> AsksFor(m, s, step)
    decreases |s|
  {
    HoldRanged(m, s);
    if s != [] {
      var front, x := s[..|s| - 1], s[|s| - 1];
      var t := TouchAll(env, CmpComplex, true, Machine(m.data16, b), m.info, front);
      TouchStepsIn(env, m, b, front, step);
      hide Able, StepsOf, TouchAll;
      AsksSnoc(m, s, step);
      TouchedOnce(env, m, b, front, x, step);
    }
  }

  lemma AsksSnoc(m: Cells, s: seq<nat>, step: nat)
    requires s != [] && m.Hold(s)
    ensures var front, x := s[..|s| - 1], s[|s| - 1];
      m.HasCell(x) && (AsksFor(m, s, step) <==> AsksFor(m, front, step) || step in StepsOf(m.Data(x)))
  {
    hide StepsOf;
    var front, x := s[..|s| - 1], s[|s| - 1];
    assert s == front + [x];
    if AsksFor(m, front, step) {
      AsksSame(m, front, s, step);
    }
  }

  lemma TouchedOnce(env: Env, m: Cells, b: Bench, front: seq<nat>, x: nat, step: nat)
    requires Able(env, CmpComplex, Machine(m.data16, b)) && m.Hold(front) && m.HasCell(x)
    ensures Ranged(m.data16, m.info, front)
    ensures var d := TouchAll(env, CmpComplex, true, Machine(m.data16, b), m.info, front).data16;
      && |d| == |m.data16|
      && (step in StepsOf(d[m.info[x]]) ==> step in StepsOf(m.Data(x)))
      && (step in StepsOf(m.Data(x)) ==> step in StepsOf(d[m.info[x]]) || AsksFor(m, front, step))
  {
    HoldRanged(m, front);
    TouchedSettled(env, CmpComplex, true, Machine(m.data16, b), m.info, front);
    hide Able, TouchAll, AllEvolved;
    var d := TouchAll(env, CmpComplex, true, Machine(m.data16, b), m.info, front).data16;
    if m.info[x] in CellsOf(m.info, front) {
      var k :| 0 <= k < |front| && front[k] < |m.info| && m.info[front[k]] == m.info[x];
      assert Settled(CmpComplex, true, d[m.info[front[k]]]);
      assert m.HasCell(front[k]) && m.Data(front[k]) == m.Data(x) && front[k] in front;
    }
  }

  lemma RoundStepsIn(env: Env, m: Cells, findNum: s16, r: Run, step: nat)
    requires RunReady(env, m, r)
    ensures step in RoundSteps(env, m, findNum, r) <==> AsksFor(m, r.s, step)
  {
    hide *;
    RunParts(env, m, r);
    var f := AllFinds(m, r.s, findNum, 1);
    RoundStepsAre(env, m, findNum, r);
    TouchStepsIn(env, m, r.bench, f.s, step);
    FoundSame(r.s, f.s);
    if AsksFor(m, f.s, step) {
      AsksSame(m, f.s, r.s, step);
    }
    if AsksFor(m, r.s, step) {
      AsksSame(m, r.s, f.s, step);
    }
  }

  lemma RoundStepsAre(env: Env, m: Cells, findNum: s16, r: Run)
    requires RunReady(env, m, r)
    ensures var f := AllFinds(m, r.s, findNum, 1);
      && m.Hold(f.s) && Ranged(m.data16, m.info, f.s) && multiset(f.s) == multiset(r.s)
      && RoundSteps(env, m, findNum, r) == TouchSteps(env, Machine(m.data16, r.bench), m.info, f.s)
  {
    hide AllFinds, TouchSteps, Able, NoDup, IndexSorted, Cells.Hold;
    HoldRanged(m, AllFinds(m, r.s, findNum, 1).s);
  }

  lemma FoundSame(s: seq<nat>, t: seq<nat>)
    requires multiset(s) == multiset(t)
    ensures forall x :: x in s <==> x in t
  {
    assert forall x :: x in s <==> x in multiset(s);
    assert forall x :: x in t <==> x in multiset(t);
  }

  /** A run of at least one iteration uses the steps its list asks for, and no others. */
  lemma {:induction false} RunStepsIn(env: Env, m: Cells, findNum: s16, r: Run, k: nat, step: nat)
    requires RunReady(env, m, r) && k > 0
    ensures step in RunSteps(env, m, findNum, r, k) <==> AsksFor(m, r.s, step)
  {
    hide *;
    RunStepsTurn(env, m, findNum, r, k);
    var q := RoundsAfter(env, m, findNum, r, k - 1);
    RoundsTurn(env, m, findNum, r, k - 1);
    RoundStepsIn(env, m, findNum, q, step);
    if k == 1 {
      RunStepsTurn(env, m, findNum, r, 0);
      RoundsTurn(env, m, findNum, r, 0);
    } else {
      RunStepsIn(env, m, findNum, r, k - 1, step);
      RoundsInside(env, m, findNum, r, k - 1);
      if AsksFor(m, q.s, step) {
        AsksSame(m, q.s, r.s, step);
      }
    }
  }

  // ------------------------------------------------------- when the text comes back

  /** For any masks: the text comes back exactly if every byte does after as many sweeps as
      the run makes over it. */
  lemma TextBack(env: Env, m: Cells, findNum: s16, r: Run, k: nat)
    requires RunReady(env, m, r)
    ensures var text := r.bench.text;
      RoundsAfter(env, m, findNum, r, k).bench.text == text <==>
      forall i :: 0 <= i < |text| ==>
        ComesBack(text[i], env.mask1, env.mask2, TimesSampled(RunSteps(env, m, findNum, r, k), i))
  {
    hide *;
    RunText(env, m, findNum, r, k);
    SweptAllBack(r.bench.text, env.mask1, env.mask2, RunSteps(env, m, findNum, r, k));
  }

  /** The benchmarks its list asks for give the text back. */
  ghost predicate StepsRestore(env: Env, m: Cells, s: seq<nat>, text: seq<u8>) {
    forall step :: AsksFor(m, s, step) && IsStep(step) ==> Restored(text, env.mask1, env.mask2, step)
  }

  /** For equal masks and at least one iteration: the text comes back exactly if every state
      benchmark the list asks for gives it back. */
  lemma EqualMasksBack(env: Env, m: Cells, findNum: s16, r: Run, k: nat)
    requires RunReady(env, m, r) && k > 0 && env.mask1 == env.mask2
    ensures RoundsAfter(env, m, findNum, r, k).bench.text == r.bench.text <==> StepsRestore(env, m, r.s, r.bench.text)
  {
    hide *;
    var steps := RunSteps(env, m, findNum, r, k);
    RunText(env, m, findNum, r, k);
    SweptBack(r.bench.text, env.mask1, steps);
    forall step
      ensures step in steps <==> AsksFor(m, r.s, step)
    {
      RunStepsIn(env, m, findNum, r, k, step);
    }
    AllSteps(env, m, r.s, r.bench.text, steps);
  }

  lemma AllSteps(env: Env, m: Cells, s: seq<nat>, text: seq<u8>, steps: seq<nat>)
    requires AreSteps(steps) && forall step :: step in steps <==> AsksFor(m, s, step)
    ensures (forall k :: 0 <= k < |steps| ==> Restored(text, env.mask1, env.mask2, steps[k])) <==>
      StepsRestore(env, m, s, text)
  {
    hide AsksFor, Restored;
    if forall k :: 0 <= k < |steps| ==> Restored(text, env.mask1, env.mask2, steps[k]) {
      forall step | AsksFor(m, s, step) && IsStep(step)
        ensures Restored(text, env.mask1, env.mask2, step)
      {
        assert step in steps;
      }
    }
    if StepsRestore(env, m, s, text) {
      forall k | 0 <= k < |steps|
        ensures Restored(text, env.mask1, env.mask2, steps[k])
      {
        assert steps[k] in steps && IsStep(steps[k]);
      }
    }
  }

  /** Whatever the masks, it comes back if each of them does. */
  lemma StepsKeepText(env: Env, m: Cells, findNum: s16, r: Run, k: nat)
    requires RunReady(env, m, r) && StepsRestore(env, m, r.s, r.bench.text)
    ensures RoundsAfter(env, m, findNum, r, k).bench.text == r.bench.text
  {
    hide *;
    var steps := RunSteps(env, m, findNum, r, k);
    RunText(env, m, findNum, r, k);
    if k == 0 {
      RunStepsTurn(env, m, findNum, r, k);
      SweptNothing(r.bench.text, env.mask1, env.mask2);
    } else {
      forall step
        ensures step in steps <==> AsksFor(m, r.s, step)
      {
        RunStepsIn(env, m, findNum, r, k, step);
      }
      AllSteps(env, m, r.s, r.bench.text, steps);
      SweptKept(r.bench.text, env.mask1, env.mask2, steps);
    }
  }

  // -------------------------------------------------- how often a byte is swept

  /** How many nodes of s ask for a benchmark that changes the byte at i. */
  ghost function NodesSampling(m: Cells, s: seq<nat>, i: nat): nat {
    if s == [] then 0 else NodesSampling(m, s[..|s| - 1], i) + NodeSampling(m, s[|s| - 1], i)
  }

  ghost function NodeSampling(m: Cells, x: nat, i: nat): nat {
    if m.HasCell(x) then TimesSampled(StepsOf(m.Data(x)), i) else 0
  }

  lemma {:induction false} TimesAppend(a: seq<nat>, b: seq<nat>, i: nat)
    requires AreSteps(a) && AreSteps(b)
    ensures AreSteps(a + b) && TimesSampled(a + b, i) == TimesSampled(a, i) + TimesSampled(b, i)
  {
    hide Sampled;
    if a == [] {
      assert a + b == b;
    } else {
      assert (a + b)[0] == a[0] && (a + b)[1..] == a[1..] + b;
      TimesAppend(a[1..], b, i);
    }
  }

  lemma {:induction false} NodesSplit(m: Cells, p: seq<nat>, x: nat, q: seq<nat>, i: nat)
    ensures NodesSampling(m, p + [x] + q, i) == NodesSampling(m, p + q, i) + NodeSampling(m, x, i)
    decreases |q|
  {
    hide *;
    if q == [] {
      assert p + [x] + q == p + [x] && p + q == p;
      NodesSnoc(m, p, x, i);
    } else {
      var f, y := q[..|q| - 1], q[|q| - 1];
      assert p + [x] + q == (p + [x] + f) + [y] && p + q == (p + f) + [y];
      NodesSplit(m, p, x, f, i);
      NodesSnoc(m, p + [x] + f, y, i);
      NodesSnoc(m, p + f, y, i);
    }
  }

  lemma NodesSnoc(m: Cells, f: seq<nat>, x: nat, i: nat)
    ensures NodesSampling(m, f + [x], i) == NodesSampling(m, f, i) + NodeSampling(m, x, i)
  {
    assert (f + [x])[..|f|] == f;
  }

  /** The order of the nodes does not matter. */
  lemma {:induction false} NodesPerm(m: Cells, s: seq<nat>, t: seq<nat>, i: nat)
    requires multiset(s) == multiset(t)
    ensures NodesSampling(m, s, i) == NodesSampling(m, t, i)
    decreases |s|
  {
    hide *;
    if s == [] {
      assert |multiset(t)| == 0 && t == [];
    } else {
      var f, x := s[..|s| - 1], s[|s| - 1];
      var p, q := TakenOut(s, t);
      NodesPerm(m, f, p + q, i);
      assert s == f + [x];
      NodesSnoc(m, f, x, i);
      NodesSplit(m, p, x, q, i);
    }
  }

  /** The last node of s, taken out of t. */
  lemma TakenOut(s: seq<nat>, t: seq<nat>) returns (p: seq<nat>, q: seq<nat>)
    requires s != [] && multiset(s) == multiset(t)
    ensures t == p + [s[|s| - 1]] + q && multiset(s[..|s| - 1]) == multiset(p + q)
  {
    var f, x := s[..|s| - 1], s[|s| - 1];
    WithNode(f, x, []);
    assert s == f + [x] + [] && f + [] == f;
    assert x in multiset(t);
    var j :| 0 <= j < |t| && t[j] == x;
    p, q := t[..j], t[j + 1..];
    assert t == p + [x] + q;
    WithNode(p, x, q);
  }

  lemma WithNode(p: seq<nat>, x: nat, q: seq<nat>)
    ensures multiset(p + q) == multiset(p + [x] + q) - multiset{x}
  {
  }

  /** No two nodes of s have the same cell. */
  predicate OwnCells(m: Cells, s: seq<nat>) {
    forall a, b :: 0 <= a < b < |s| && m.HasCell(s[a]) && m.HasCell(s[b]) ==> m.info[s[a]] != m.info[s[b]]
  }

  lemma {:induction false} TouchCount(env: Env, m: Cells, b: Bench, s: seq<nat>, i: nat)
    requires Able(env, CmpComplex, Machine(m.data16, b)) && m.Hold(s) && OwnCells(m, s)
    ensures Ranged(m.data16, m.info, s)
    ensures TimesSampled(TouchSteps(env, Machine(m.data16, b), m.info, s), i) == NodesSampling(m, s, i)
    decreases |s|
  {
    HoldRanged(m, s);
    if s != [] {
      var front, x := s[..|s| - 1], s[|s| - 1];
      var t := TouchAll(env, CmpComplex, true, Machine(m.data16, b), m.info, front);
      TouchCount(env, m, b, front, i);
      hide Able, StepsOf, TouchAll, TimesSampled;
      OwnUntouched(env, m, b, s);
      TimesAppend(TouchSteps(env, Machine(m.data16, b), m.info, front), StepsOf(t.data16[m.info[x]]), i);
    }
  }

  lemma OwnUntouched(env: Env, m: Cells, b: Bench, s: seq<nat>)
    requires Able(env, CmpComplex, Machine(m.data16, b)) && m.Hold(s) && OwnCells(m, s) && s != []
    ensures var front, x := s[..|s| - 1], s[|s| - 1];
      && Ranged(m.data16, m.info, front) && m.HasCell(x)
      && TouchAll(env, CmpComplex, true, Machine(m.data16, b), m.info, front).data16[m.info[x]] == m.Data(x)
  {
    var front, x := s[..|s| - 1], s[|s| - 1];
    HoldRanged(m, front);
    TouchedSettled(env, CmpComplex, true, Machine(m.data16, b), m.info, front);
    hide Able, TouchAll, AllEvolved, Settled;
    forall k | 0 <= k < |front|
      ensures front[k] < |m.info| && m.info[front[k]] != m.info[x]
    {
      assert front[k] == s[k] && m.HasCell(s[k]) && m.HasCell(s[|s| - 1]);
    }
  }

  lemma CanonicalOwn(m: Cells, s: seq<nat>, t: seq<nat>)
    requires Canonical(m, s) && NoDup(t) && multiset(t) == multiset(s)
    ensures OwnCells(m, t)
  {
    forall a, b | 0 <= a < b < |t| && m.HasCell(t[a]) && m.HasCell(t[b])
      ensures m.info[t[a]] != m.info[t[b]]
    {
      assert t[a] in multiset(s) && t[b] in multiset(s);
      var i :| 0 <= i < |s| && s[i] == t[a];
      var j :| 0 <= j < |s| && s[j] == t[b];
      assert i < j || j < i;
    }
  }

  /** How often k iterations sweep the byte at i, if the list always comes back. */
  ghost function RunSampling(m: Cells, s: seq<nat>, k: nat, i: nat): nat {
    k * NodesSampling(m, s, i)
  }

  /** In a list without repeated index every iteration sweeps a byte once for each node that
      asks for it. */
  lemma {:induction false} RunCount(env: Env, m: Cells, findNum: s16, r: Run, k: nat, i: nat)
    requires RunReady(env, m, r) && Canonical(m, r.s)
    ensures TimesSampled(RunSteps(env, m, findNum, r, k), i) == RunSampling(m, r.s, k, i)
  {
    hide *;
    RunStepsTurn(env, m, findNum, r, k);
    RunSamplingTurn(m, r.s, k, i);
    if k == 0 {
      NothingSampled(i);
    } else {
      RunCount(env, m, findNum, r, k - 1, i);
      RoundsTurn(env, m, findNum, r, k - 1);
      var q := RoundsAfter(env, m, findNum, r, k - 1);
      CanonicalRounds(env, m, findNum, r, k - 1);
      RunParts(env, m, q);
      RoundStepsAre(env, m, findNum, q);
      var f := AllFinds(m, q.s, findNum, 1);
      NoDupPerm(q.s, f.s);
      CanonicalOwn(m, q.s, f.s);
      TouchCount(env, m, q.bench, f.s, i);
      NodesPerm(m, f.s, q.s, i);
      TimesAppend(RunSteps(env, m, findNum, r, k - 1), RoundSteps(env, m, findNum, q), i);
    }
  }

  lemma RunSamplingTurn(m: Cells, s: seq<nat>, k: nat, i: nat)
    ensures k == 0 ==> RunSampling(m, s, k, i) == 0
    ensures k > 0 ==> RunSampling(m, s, k, i) == RunSampling(m, s, k - 1, i) + NodesSampling(m, s, i)
  {
    hide NodesSampling;
    Times(k, NodesSampling(m, s, i));
  }

  lemma Times(k: nat, n: nat)
    ensures k == 0 ==> k * n == 0
    ensures k > 0 ==> k * n == (k - 1) * n + n
  {
  }

  lemma NothingSampled(i: nat)
    ensures TimesSampled([], i) == 0
  {
  }

  /** So for such a list, any masks and any number of iterations a caller can tell from data
      words, text and masks whether the text comes back. */
  lemma CanonicalTextBack(env: Env, m: Cells, findNum: s16, r: Run, k: nat)
    requires RunReady(env, m, r) && Canonical(m, r.s)
    ensures var text := r.bench.text;
      RoundsAfter(env, m, findNum, r, k).bench.text == text <==>
      forall i :: 0 <= i < |text| ==> ComesBack(text[i], env.mask1, env.mask2, RunSampling(m, r.s, k, i))
  {
    hide *;
    TextBack(env, m, findNum, r, k);
    var text, steps := r.bench.text, RunSteps(env, m, findNum, r, k);
    forall i | 0 <= i < |text|
      ensures ComesBack(text[i], env.mask1, env.mask2, TimesSampled(steps, i))
        <==> ComesBack(text[i], env.mask1, env.mask2, RunSampling(m, r.s, k, i))
    {
      RunCount(env, m, findNum, r, k, i);
    }
  }
}
