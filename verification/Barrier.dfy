/** The sense-reversing barrier of `util.h`, as atomic steps of n threads that
    interleave in any order. */
module Barrier {

  // ---------------------------------------------------------------- the protocol

  /** Where a thread is: outside the barrier, about to add to `count`, about to reset
      `count`, about to release the others, spinning, or about to return. */
  datatype Pc = Outside | Adding | Resetting | Releasing | Spinning | Leaving

  /** The shared `sense` and `count`, and each thread's `threadsense` and position. */
  datatype State = State(sense: bool, count: nat, local: seq<bool>, pc: seq<Pc>)

  /** An atomic step of thread t. */
  datatype Step = Step(t: nat, kind: Kind)
  datatype Kind = Enter | Add | Reset | Release | Look | Leave

  predicate WellFormed(s: State, n: nat) {
    |s.local| == n && |s.pc| == n
  }

  function Init(n: nat): State {
    State(false, 0, seq(n, _ => false), seq(n, _ => Outside))
  }

  predicate Enabled(s: State, n: nat, step: Step)
    requires WellFormed(s, n)
  {
    step.t < n &&
    match step.kind
    case Enter => s.pc[step.t] == Outside
    case Add => s.pc[step.t] == Adding
    case Reset => s.pc[step.t] == Resetting
    case Release => s.pc[step.t] == Releasing
    case Look => s.pc[step.t] == Spinning
    case Leave => s.pc[step.t] == Leaving
  }

  /** One step of `barrier(n)`. */
  function Next(s: State, n: nat, step: Step): (r: State)
    requires WellFormed(s, n) && Enabled(s, n, step)
    ensures WellFormed(r, n)
  {
    var t := step.t;
    match step.kind
    case Enter => s.(local := s.local[t := !s.local[t]], pc := s.pc[t := Adding])
    case Add => s.(count := s.count + 1, pc := s.pc[t := if s.count == n - 1 then Resetting else Spinning])
    case Reset => s.(count := 0, pc := s.pc[t := Releasing])
    case Release => s.(sense := s.local[t], pc := s.pc[t := Leaving])
    case Look => if s.sense != s.local[t] then s else s.(pc := s.pc[t := Leaving])
    case Leave => s.(pc := s.pc[t := Outside])
  }

  datatype Outcome = Stuck | Reached(state: State)

  /** Takes the steps one after another; stuck if one is not enabled in its turn. */
  function Exec(run: seq<Step>, n: nat): (o: Outcome)
    ensures o.Reached? ==> WellFormed(o.state, n)
  {
    if run == [] then Reached(Init(n))
    else
      var o := Exec(run[..|run| - 1], n);
      var step := run[|run| - 1];
      if o.Reached? && Enabled(o.state, n, step) then Reached(Next(o.state, n, step)) else Stuck
  }

  predicate IsRun(run: seq<Step>, n: nat) {
    Exec(run, n).Reached?
  }

  function After(run: seq<Step>, n: nat): (s: State)
    requires IsRun(run, n)
    ensures WellFormed(s, n)
  {
    Exec(run, n).state
  }

  /** How often thread t has taken a step of that kind. */
  function Times(run: seq<Step>, t: nat, kind: Kind): nat {
    if run == [] then 0
    else Times(run[..|run| - 1], t, kind) + (if run[|run| - 1] == Step(t, kind) then 1 else 0)
  }

  /** Steps that change something: all but a look that finds the old sense. */
  function Moves(run: seq<Step>, n: nat): nat
    requires IsRun(run, n)
  {
    if run == [] then 0
    else Moves(run[..|run| - 1], n) + (if After(run, n) != After(run[..|run| - 1], n) then 1 else 0)
  }

  // ---------------------------------------------------------------- the invariant

  /** How many entries of `adds` are e. */
  function CountOf(adds: seq<nat>, e: nat): nat {
    if adds == [] then 0 else CountOf(adds[..|adds| - 1], e) + (if adds[|adds| - 1] == e then 1 else 0)
  }

  predicate Odd(k: nat) {
    k % 2 == 1
  }

  /** The bookkeeping a run leaves: fetch-and-adds and returns of each thread, and
      how many episodes have been released. */
  datatype History = History(adds: seq<nat>, leaves: seq<nat>, episode: nat)

  function Noted(h: History, n: nat, step: Step): (r: History)
    requires |h.adds| == n && |h.leaves| == n && step.t < n
    ensures |r.adds| == n && |r.leaves| == n
  {
    match step.kind
    case Add => h.(adds := h.adds[step.t := h.adds[step.t] + 1])
    case Leave => h.(leaves := h.leaves[step.t := h.leaves[step.t] + 1])
    case Release => h.(episode := h.episode + 1)
    case _ => h
  }

  function HistoryOf(run: seq<Step>, n: nat): (h: History)
    requires IsRun(run, n)
    ensures |h.adds| == n && |h.leaves| == n
    ensures forall t :: 0 <= t < n ==> h.adds[t] == Times(run, t, Add) && h.leaves[t] == Times(run, t, Leave)
  {
    if run == [] then History(seq(n, _ => 0), seq(n, _ => 0), 0)
    else Noted(HistoryOf(run[..|run| - 1], n), n, run[|run| - 1])
  }

  /** What holds of thread t. */
  predicate ThreadInv(s: State, h: History, n: nat, t: nat)
    requires WellFormed(s, n) && |h.adds| == n && |h.leaves| == n && t < n
  {
    var e := h.episode;
    match s.pc[t]
    case Outside => h.adds[t] == h.leaves[t] == e && s.local[t] == Odd(e)
    case Adding => h.adds[t] == h.leaves[t] == e && s.local[t] == Odd(e + 1)
    case Spinning => (h.adds[t] == e || h.adds[t] == e + 1) && h.adds[t] == h.leaves[t] + 1
      && s.local[t] == Odd(h.adds[t])
    case Leaving => h.adds[t] == e == h.leaves[t] + 1 && s.local[t] == Odd(e)
    case _ => h.adds[t] == e + 1 == h.leaves[t] + 1 && s.local[t] == Odd(e + 1) && AllArrived(h, n)
  }

  /** Every thread has done the fetch-and-add of the current episode. */
  predicate AllArrived(h: History, n: nat)
    requires |h.adds| == n
  {
    forall u :: 0 <= u < n ==> h.adds[u] == h.episode + 1
  }

  predicate IsReleaser(pc: Pc) {
    pc == Resetting || pc == Releasing
  }

  ghost predicate Inv(s: State, h: History, n: nat) {
    && WellFormed(s, n) && |h.adds| == n && |h.leaves| == n
    && s.sense == Odd(h.episode)
    && (forall t :: 0 <= t < n ==> ThreadInv(s, h, n, t))
    && (forall t, u :: 0 <= t < n && 0 <= u < n && t != u ==> !(IsReleaser(s.pc[t]) && IsReleaser(s.pc[u])))
    && s.count == (if exists t :: 0 <= t < n && s.pc[t] == Releasing then 0 else CountOf(h.adds, h.episode + 1))
    && (n == 0 || !AllArrived(h, n) || exists t :: 0 <= t < n && IsReleaser(s.pc[t]))
  }

  lemma {:induction false} CountBound(adds: seq<nat>, e: nat)
    ensures CountOf(adds, e) <= |adds|
    ensures CountOf(adds, e) == |adds| <==> forall u :: 0 <= u < |adds| ==> adds[u] == e
  {
    if adds != [] {
      CountBound(adds[..|adds| - 1], e);
      assert forall u :: 0 <= u < |adds| - 1 ==> adds[..|adds| - 1][u] == adds[u];
    }
  }

  lemma {:induction false} CountUpdate(adds: seq<nat>, e: nat, t: nat, v: nat)
    requires t < |adds|
    ensures CountOf(adds[t := v], e) == CountOf(adds, e) - (if adds[t] == e then 1 else 0) + (if v == e then 1 else 0)
  {
    var k := |adds| - 1;
    if t == k {
      assert adds[t := v][..k] == adds[..k];
    } else {
      CountUpdate(adds[..k], e, t, v);
      assert adds[t := v][..k] == adds[..k][t := v];
    }
  }

  lemma {:induction false} CountNone(adds: seq<nat>, e: nat)
    requires forall u :: 0 <= u < |adds| ==> adds[u] != e
    ensures CountOf(adds, e) == 0
  {
    if adds != [] {
      CountNone(adds[..|adds| - 1], e);
    }
  }

  // ------------------------------------------------- every step keeps the invariant

  lemma KeepEnter(s: State, h: History, n: nat, t: nat)
    requires Inv(s, h, n) && t < n && s.pc[t] == Outside
    ensures Inv(Next(s, n, Step(t, Enter)), h, n)
  {
    var r := Next(s, n, Step(t, Enter));
    forall u | 0 <= u < n
      ensures ThreadInv(r, h, n, u)
    {
      assert ThreadInv(s, h, n, u);
    }
    Others(s, r, h, n, t);
  }

  /** A step that neither starts nor ends a release leaves releasers and count alone. */
  lemma Others(s: State, r: State, h: History, n: nat, t: nat)
    requires Inv(s, h, n) && t < n && WellFormed(r, n) && r.count == s.count
    requires forall u :: 0 <= u < n && u != t ==> r.pc[u] == s.pc[u]
    requires !IsReleaser(s.pc[t]) && !IsReleaser(r.pc[t])
    ensures (exists u :: 0 <= u < n && r.pc[u] == Releasing) == (exists u :: 0 <= u < n && s.pc[u] == Releasing)
    ensures (exists u :: 0 <= u < n && IsReleaser(r.pc[u])) == (exists u :: 0 <= u < n && IsReleaser(s.pc[u]))
    ensures forall u, v :: 0 <= u < n && 0 <= v < n && u != v ==> !(IsReleaser(r.pc[u]) && IsReleaser(r.pc[v]))
  {
    if u :| 0 <= u < n && s.pc[u] == Releasing {
      assert r.pc[u] == Releasing;
    }
    if u :| 0 <= u < n && IsReleaser(s.pc[u]) {
      assert IsReleaser(r.pc[u]);
    }
  }

  lemma KeepLook(s: State, h: History, n: nat, t: nat)
    requires Inv(s, h, n) && t < n && s.pc[t] == Spinning
    ensures Inv(Next(s, n, Step(t, Look)), h, n)
  {
    var r := Next(s, n, Step(t, Look));
    if s.sense == s.local[t] {
      assert ThreadInv(s, h, n, t);
      forall u | 0 <= u < n
        ensures ThreadInv(r, h, n, u)
      {
        assert ThreadInv(s, h, n, u);
      }
      Others(s, r, h, n, t);
    }
  }

  lemma KeepLeave(s: State, h: History, n: nat, t: nat)
    requires Inv(s, h, n) && t < n && s.pc[t] == Leaving
    ensures Inv(Next(s, n, Step(t, Leave)), Noted(h, n, Step(t, Leave)), n)
  {
    var r, k := Next(s, n, Step(t, Leave)), Noted(h, n, Step(t, Leave));
    forall u | 0 <= u < n
      ensures ThreadInv(r, k, n, u)
    {
      assert ThreadInv(s, h, n, u);
    }
    Others(s, r, h, n, t);
  }

  /** While some thread has not arrived nobody is releasing. */
  lemma NoReleaser(s: State, h: History, n: nat, t: nat)
    requires Inv(s, h, n) && t < n && s.pc[t] == Adding
    ensures forall u :: 0 <= u < n ==> !IsReleaser(s.pc[u])
    ensures s.count == CountOf(h.adds, h.episode + 1) && h.adds[t] == h.episode
  {
    assert ThreadInv(s, h, n, t);
    forall u | 0 <= u < n
      ensures !IsReleaser(s.pc[u])
    {
      assert ThreadInv(s, h, n, u);
    }
  }

  lemma KeepAdd(s: State, h: History, n: nat, t: nat)
    requires Inv(s, h, n) && t < n && s.pc[t] == Adding
    ensures Inv(Next(s, n, Step(t, Add)), Noted(h, n, Step(t, Add)), n)
  {
    var r, k := Next(s, n, Step(t, Add)), Noted(h, n, Step(t, Add));
    NoReleaser(s, h, n, t);
    AddedCount(h, n, t);
    forall u | 0 <= u < n
      ensures ThreadInv(r, k, n, u)
    {
      AddedThread(s, h, n, t, u);
    }
    hide ThreadInv, CountOf, AllArrived;
    assert forall u :: 0 <= u < n && u != t ==> r.pc[u] == s.pc[u];
    assert IsReleaser(r.pc[t]) <==> r.count == n;
  }

  /** The fetch-and-add is counted, and it is the last one if the count is n. */
  lemma AddedCount(h: History, n: nat, t: nat)
    requires |h.adds| == |h.leaves| == n && t < n && h.adds[t] == h.episode
    ensures var k := Noted(h, n, Step(t, Add));
      && CountOf(k.adds, h.episode + 1) == CountOf(h.adds, h.episode + 1) + 1
      && (AllArrived(k, n) <==> CountOf(k.adds, h.episode + 1) == n)
  {
    CountUpdate(h.adds, h.episode + 1, t, h.episode + 1);
    CountBound(Noted(h, n, Step(t, Add)).adds, h.episode + 1);
    hide CountOf;
  }

  lemma AddedThread(s: State, h: History, n: nat, t: nat, u: nat)
    requires Inv(s, h, n) && t < n && u < n && s.pc[t] == Adding && !IsReleaser(s.pc[u])
    requires s.count == CountOf(h.adds, h.episode + 1) && h.adds[t] == h.episode
    ensures ThreadInv(Next(s, n, Step(t, Add)), Noted(h, n, Step(t, Add)), n, u)
  {
    AddedCount(h, n, t);
    InvParts(s, h, n);
    assert ThreadInv(s, h, n, u);
    hide Inv, CountOf, AllArrived;
  }

  lemma KeepReset(s: State, h: History, n: nat, t: nat)
    requires Inv(s, h, n) && t < n && s.pc[t] == Resetting
    ensures Inv(Next(s, n, Step(t, Reset)), h, n)
  {
    var r := Next(s, n, Step(t, Reset));
    assert r.pc[t] == Releasing && IsReleaser(s.pc[t]);
    forall u | 0 <= u < n
      ensures ThreadInv(r, h, n, u)
    {
      assert ThreadInv(s, h, n, u);
    }
    forall u, v | 0 <= u < n && 0 <= v < n && u != v
      ensures !(IsReleaser(r.pc[u]) && IsReleaser(r.pc[v]))
    {
      assert !(IsReleaser(s.pc[u]) && IsReleaser(s.pc[v]));
    }
  }

  lemma OneReleaser(s: State, h: History, n: nat, t: nat, u: nat)
    requires Inv(s, h, n) && t < n && u < n && t != u && IsReleaser(s.pc[t])
    ensures !IsReleaser(s.pc[u])
  {
  }

  lemma KeepRelease(s: State, h: History, n: nat, t: nat)
    requires Inv(s, h, n) && t < n && s.pc[t] == Releasing
    ensures Inv(Next(s, n, Step(t, Release)), Noted(h, n, Step(t, Release)), n)
  {
    var r, k := Next(s, n, Step(t, Release)), Noted(h, n, Step(t, Release));
    assert ThreadInv(s, h, n, t);
    forall u | 0 <= u < n
      ensures ThreadInv(r, k, n, u) && !IsReleaser(r.pc[u])
    {
      assert ThreadInv(s, h, n, u);
      if u != t {
        OneReleaser(s, h, n, t, u);
      }
    }
    CountNone(h.adds, h.episode + 2);
    assert k.adds[t] != k.episode + 1;
    assert !AllArrived(k, n);
  }

  lemma Keep(s: State, h: History, n: nat, step: Step)
    requires Inv(s, h, n) && Enabled(s, n, step)
    ensures Inv(Next(s, n, step), Noted(h, n, step), n)
  {
    hide Inv;
    InvParts(s, h, n);
    match step.kind
    case Enter => KeepEnter(s, h, n, step.t);
    case Add => KeepAdd(s, h, n, step.t);
    case Reset => KeepReset(s, h, n, step.t);
    case Release => KeepRelease(s, h, n, step.t);
    case Look => KeepLook(s, h, n, step.t);
    case Leave => KeepLeave(s, h, n, step.t);
  }

  lemma InvParts(s: State, h: History, n: nat)
    requires Inv(s, h, n)
    ensures WellFormed(s, n) && |h.adds| == n && |h.leaves| == n && s.sense == Odd(h.episode)
    ensures forall t :: 0 <= t < n ==> ThreadInv(s, h, n, t)
  {
  }

  /** The invariant holds after every run. */
  lemma {:induction false} Always(run: seq<Step>, n: nat)
    requires n >= 1 && IsRun(run, n)
    ensures Inv(After(run, n), HistoryOf(run, n), n)
    decreases |run|
  {
    if run == [] {
      CountNone(seq(n, _ => 0), 1);
      var h := HistoryOf([], n);
      assert h.adds[0] != h.episode + 1;
      assert h.adds == seq(n, _ => 0);
    } else {
      var prefix := run[..|run| - 1];
      Always(prefix, n);
      Keep(After(prefix, n), HistoryOf(prefix, n), n, run[|run| - 1]);
    }
  }

  // ---------------------------------------------------------------- the guarantees

  /** No thread leaves its k-th barrier before every thread has done its k-th
      fetch-and-add, and no thread gets a whole episode ahead. */
  lemma Safety(run: seq<Step>, n: nat, t: nat, u: nat)
    requires n >= 1 && IsRun(run, n) && t < n && u < n
    ensures Times(run, t, Leave) <= Times(run, u, Add)
    ensures Times(run, t, Leave) <= Times(run, u, Leave) + 1
  {
    Always(run, n);
    InvParts(After(run, n), HistoryOf(run, n), n);
    hide Inv;
    assert ThreadInv(After(run, n), HistoryOf(run, n), n, t);
    assert ThreadInv(After(run, n), HistoryOf(run, n), n, u);
  }

  /** `count` is the number of threads that have arrived in the current episode, until
      the last arrival resets it; it never exceeds n. */
  lemma CountIsArrivals(run: seq<Step>, n: nat)
    requires n >= 1 && IsRun(run, n)
    ensures var s, h := After(run, n), HistoryOf(run, n);
      s.count <= n &&
      s.count == if exists t :: 0 <= t < n && s.pc[t] == Releasing then 0 else CountOf(h.adds, h.episode + 1)
  {
    Always(run, n);
    CountBound(HistoryOf(run, n).adds, HistoryOf(run, n).episode + 1);
  }

  /** A waiter that may go stays free to go, whatever anyone does, until it goes. */
  lemma ReleaseIsStable(run: seq<Step>, n: nat, t: nat, step: Step)
    requires n >= 1 && IsRun(run + [step], n) && t < n
    requires IsRun(run, n) && After(run, n).pc[t] == Spinning && After(run, n).sense == After(run, n).local[t]
    ensures var r := After(run + [step], n);
      if step == Step(t, Look) then r.pc[t] == Leaving else r.pc[t] == Spinning && r.sense == r.local[t]
  {
    assert (run + [step])[..|run|] == run;
    Always(run, n);
    if step.kind == Release {
      NoSecondRelease(After(run, n), HistoryOf(run, n), n, t, step.t);
    }
    hide Inv, HistoryOf, Exec;
  }

  /** While a released thread still spins nobody releases again. */
  lemma NoSecondRelease(s: State, h: History, n: nat, t: nat, u: nat)
    requires Inv(s, h, n) && t < n && u < n && s.pc[t] == Spinning && s.sense == s.local[t]
    ensures s.pc[u] != Releasing
  {
    InvParts(s, h, n);
    hide Inv;
    assert ThreadInv(s, h, n, t) && ThreadInv(s, h, n, u);
  }

  /** Not blocked: the thread's next step changes something. */
  predicate CanMove(s: State, n: nat, t: nat)
    requires WellFormed(s, n) && t < n
  {
    s.pc[t] != Spinning || s.sense == s.local[t]
  }

  /** Somebody can always move, and a blocked thread waits only for threads that can:
      either some thread has not done its fetch-and-add of the episode, or one thread
      is resetting or releasing. */
  lemma Progress(run: seq<Step>, n: nat)
    requires n >= 1 && IsRun(run, n)
    ensures exists t :: 0 <= t < n && CanMove(After(run, n), n, t)
    ensures var s, h := After(run, n), HistoryOf(run, n);
      forall t :: 0 <= t < n && !CanMove(s, n, t) ==>
        exists u :: 0 <= u < n && CanMove(s, n, u) && (h.adds[u] == h.episode || IsReleaser(s.pc[u]))
  {
    var s, h := After(run, n), HistoryOf(run, n);
    Always(run, n);
    InvParts(s, h, n);
    if AllArrived(h, n) {
      var t :| 0 <= t < n && IsReleaser(s.pc[t]);
      assert CanMove(s, n, t);
    } else {
      hide Inv;
      var u :| 0 <= u < n && h.adds[u] != h.episode + 1;
      assert ThreadInv(s, h, n, u);
      assert CanMove(s, n, u) && h.adds[u] == h.episode;
    }
  }

  /** A thread that can move has an enabled step that changes the state. */
  lemma MoveExists(s: State, n: nat, t: nat)
    requires WellFormed(s, n) && t < n && CanMove(s, n, t)
    ensures exists step: Step :: step.t == t && Enabled(s, n, step) && Next(s, n, step) != s
  {
    var kind := match s.pc[t]
      case Outside => Enter case Adding => Add case Resetting => Reset
      case Releasing => Release case Spinning => Look case Leaving => Leave;
    var step := Step(t, kind);
    assert Enabled(s, n, step) && Next(s, n, step).pc[t] != s.pc[t];
  }

  // ------------------------------------------------------------------- throughput

  /** How far a thread is into a call. */
  function Phase(pc: Pc): nat {
    match pc
    case Outside => 0
    case Adding => 1
    case Spinning => 2
    case Resetting => 2
    case Releasing => 3
    case Leaving => 4
  }

  /** Five for every finished call, plus the phase of the current one, over all threads. */
  function Work(leaves: seq<nat>, pc: seq<Pc>): nat
    requires |leaves| == |pc|
  {
    if leaves == [] then 0
    else
      var k := |leaves| - 1;
      Work(leaves[..k], pc[..k]) + 5 * leaves[k] + Phase(pc[k])
  }

  lemma {:induction false} WorkUpdate(leaves: seq<nat>, pc: seq<Pc>, t: nat, l: nat, p: Pc)
    requires |leaves| == |pc| && t < |pc|
    ensures Work(leaves[t := l], pc[t := p]) == Work(leaves, pc) - 5 * leaves[t] - Phase(pc[t]) + 5 * l + Phase(p)
  {
    var k := |leaves| - 1;
    if t == k {
      assert leaves[t := l][..k] == leaves[..k] && pc[t := p][..k] == pc[..k];
    } else {
      WorkUpdate(leaves[..k], pc[..k], t, l, p);
      assert leaves[t := l][..k] == leaves[..k][t := l] && pc[t := p][..k] == pc[..k][t := p];
    }
  }

  lemma {:induction false} WorkBound(leaves: seq<nat>, pc: seq<Pc>, most: nat)
    requires |leaves| == |pc| && forall t :: 0 <= t < |leaves| ==> leaves[t] <= most
    ensures Work(leaves, pc) <= |leaves| * (5 * most + 4)
  {
    if leaves != [] {
      var k := |leaves| - 1;
      WorkBound(leaves[..k], pc[..k], most);
      assert |leaves| * (5 * most + 4) == k * (5 * most + 4) + (5 * most + 4);
    }
  }

  /** Every step that changes something is work. */
  lemma WorkStep(s: State, h: History, n: nat, step: Step)
    requires WellFormed(s, n) && |h.adds| == n && |h.leaves| == n && Enabled(s, n, step)
    ensures var r, k := Next(s, n, step), Noted(h, n, step);
      Work(k.leaves, r.pc) >= Work(h.leaves, s.pc) + (if r != s then 1 else 0)
  {
    var r, k, t := Next(s, n, step), Noted(h, n, step), step.t;
    assert h.leaves[t := h.leaves[t]] == h.leaves;
    WorkUpdate(h.leaves, s.pc, t, k.leaves[t], r.pc[t]);
    if r == s {
      assert s.pc[t := s.pc[t]] == s.pc;
    }
  }

  lemma {:induction false} WorkDone(run: seq<Step>, n: nat)
    requires IsRun(run, n)
    ensures Moves(run, n) <= Work(HistoryOf(run, n).leaves, After(run, n).pc)
    decreases |run|
  {
    if run != [] {
      var prefix := run[..|run| - 1];
      WorkDone(prefix, n);
      WorkStep(After(prefix, n), HistoryOf(prefix, n), n, run[|run| - 1]);
    }
  }

  /** Everybody gets through: after m steps that change something, every thread has
      left at least m / (5 n) - 2 barriers. */
  lemma Throughput(run: seq<Step>, n: nat, u: nat)
    requires n >= 1 && IsRun(run, n) && u < n
    ensures Moves(run, n) <= n * (5 * Times(run, u, Leave) + 9)
  {
    hide Moves, Times, Work, HistoryOf, Exec, IsRun;
    var h := HistoryOf(run, n);
    forall t | 0 <= t < n
      ensures h.leaves[t] <= Times(run, u, Leave) + 1
    {
      Safety(run, n, t, u);
    }
    WorkDone(run, n);
    WorkBound(h.leaves, After(run, n).pc, Times(run, u, Leave) + 1);
  }
}
