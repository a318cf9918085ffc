/** Orders of list nodes as plain sequences of node numbers: what it means for a
    list to be sorted, stable and made of sorted runs.  No memory here. */
module ListOrder {

  predicate NoDup(s: seq<nat>) {
    forall i, j :: 0 <= i < j < |s| ==> s[i] != s[j]
  }

  lemma {:induction false} CountedOnce(s: seq<nat>)
    requires NoDup(s)
    ensures forall x :: multiset(s)[x] <= 1
  {
    if s != [] {
      CountedOnce(s[1..]);
      assert s == [s[0]] + s[1..];
      assert s[0] !in s[1..];
    }
  }

  lemma CountedTwice(s: seq<nat>, i: nat, j: nat)
    requires i < j < |s| && s[i] == s[j]
    ensures multiset(s)[s[i]] >= 2
  {
    assert s == s[..i] + [s[i]] + s[i + 1..j] + [s[j]] + s[j + 1..];
  }

  lemma NoDupMultiset(s: seq<nat>)
    ensures NoDup(s) <==> forall x :: multiset(s)[x] <= 1
  {
    if NoDup(s) {
      CountedOnce(s);
    } else {
      var i, j :| 0 <= i < j < |s| && s[i] == s[j];
      CountedTwice(s, i, j);
    }
  }

  /** A rearrangement has no repetitions either. */
  lemma NoDupPerm(s: seq<nat>, t: seq<nat>)
    requires NoDup(s) && multiset(s) == multiset(t)
    ensures NoDup(t)
  {
    NoDupMultiset(s);
    NoDupMultiset(t);
  }

  /** Where x stands in s. */
  function Rank(s: seq<nat>, x: nat): nat {
    if s == [] then 0 else if s[0] == x then 0 else 1 + Rank(s[1..], x)
  }

  lemma {:induction false} RankAt(s: seq<nat>, i: nat)
    requires NoDup(s) && i < |s|
    ensures Rank(s, s[i]) == i
  {
    if i > 0 {
      assert s[0] != s[i];
      assert NoDup(s[1..]);
      RankAt(s[1..], i - 1);
    }
  }

  /** The sort keys found so far: a node's key is fixed when it is first compared. */
  type Keys = map<nat, int>

  ghost predicate Extends(keys: Keys, more: Keys) {
    forall x :: x in keys ==> x in more && more[x] == keys[x]
  }

  /** x belongs before y: a smaller key, or the same key and an earlier place in s0. */
  predicate Before(s0: seq<nat>, keys: Keys, x: nat, y: nat) {
    x in keys && y in keys && (keys[x] < keys[y] || (keys[x] == keys[y] && Rank(s0, x) < Rank(s0, y)))
  }

  /** Sorted and stable with respect to s0.  A single node needs no key. */
  predicate Sorted(s0: seq<nat>, keys: Keys, s: seq<nat>) {
    forall a, b :: 0 <= a < b < |s| ==> Before(s0, keys, s[a], s[b])
  }

  /** Everything in s stood before everything in t. */
  predicate Ahead(s0: seq<nat>, s: seq<nat>, t: seq<nat>) {
    forall a, b :: 0 <= a < |s| && 0 <= b < |t| ==> Rank(s0, s[a]) < Rank(s0, t[b])
  }

  /** Consecutive runs of w nodes (the last may be shorter), each sorted, each
      holding nodes that stood before all that follow. */
  predicate Runs(s0: seq<nat>, keys: Keys, s: seq<nat>, w: nat)
    requires w > 0
    decreases |s|
  {
    if |s| <= w then Sorted(s0, keys, s)
    else Sorted(s0, keys, s[..w]) && Ahead(s0, s[..w], s[w..]) && Runs(s0, keys, s[w..], w)
  }

  /** Runs of exactly w nodes. */
  predicate FullRuns(s0: seq<nat>, keys: Keys, s: seq<nat>, w: nat)
    requires w > 0
    decreases |s|
  {
    s == [] || (|s| >= w && Sorted(s0, keys, s[..w]) && Ahead(s0, s[..w], s[w..]) && FullRuns(s0, keys, s[w..], w))
  }

  lemma {:induction false} SortedExtends(s0: seq<nat>, keys: Keys, more: Keys, s: seq<nat>)
    requires Sorted(s0, keys, s) && Extends(keys, more)
    ensures Sorted(s0, more, s)
  {
    forall a, b | 0 <= a < b < |s|
      ensures Before(s0, more, s[a], s[b])
    {
      assert Before(s0, keys, s[a], s[b]);
    }
  }

  lemma {:induction false} RunsExtend(s0: seq<nat>, keys: Keys, more: Keys, s: seq<nat>, w: nat)
    requires w > 0 && Extends(keys, more)
    ensures Runs(s0, keys, s, w) ==> Runs(s0, more, s, w)
    ensures FullRuns(s0, keys, s, w) ==> FullRuns(s0, more, s, w)
    decreases |s|
  {
    if Sorted(s0, keys, s) {
      SortedExtends(s0, keys, more, s);
    }
    if s != [] && |s| >= w {
      if Sorted(s0, keys, s[..w]) {
        SortedExtends(s0, keys, more, s[..w]);
      }
      RunsExtend(s0, keys, more, s[w..], w);
    }
  }

  lemma RunsNil(s0: seq<nat>, keys: Keys, t: seq<nat>, w: nat)
    requires w > 0
    ensures Runs(s0, keys, [], w) && FullRuns(s0, keys, [], w) && Ahead(s0, [], t)
  {
  }

  lemma AheadSplit(s0: seq<nat>, s: seq<nat>, t: seq<nat>, u: seq<nat>)
    ensures Ahead(s0, s, t + u) <==> Ahead(s0, s, t) && Ahead(s0, s, u)
    ensures Ahead(s0, t + u, s) <==> Ahead(s0, t, s) && Ahead(s0, u, s)
  {
    var v := t + u;
    assert forall i :: 0 <= i < |t| ==> v[i] == t[i];
    assert forall i :: 0 <= i < |u| ==> v[|t| + i] == u[i];
    assert forall i :: |t| <= i < |v| ==> v[i] == u[i - |t|];
  }

  /** A rearrangement of s is ahead of whatever s is ahead of, and the other way round. */
  lemma AheadPerm(s0: seq<nat>, s: seq<nat>, s': seq<nat>, t: seq<nat>)
    requires multiset(s) == multiset(s')
    ensures Ahead(s0, s, t) ==> Ahead(s0, s', t)
    ensures Ahead(s0, t, s) ==> Ahead(s0, t, s')
  {
    forall a | 0 <= a < |s'|
      ensures exists a' :: 0 <= a' < |s| && s[a'] == s'[a]
    {
      assert s'[a] in multiset(s');
      assert s'[a] in s;
    }
  }

  /** A sorted run of the full width can be appended, ... */
  lemma {:induction false} FullRunsAppend(s0: seq<nat>, keys: Keys, s: seq<nat>, run: seq<nat>, w: nat)
    requires w > 0 && FullRuns(s0, keys, s, w) && Sorted(s0, keys, run) && Ahead(s0, s, run)
    ensures |run| == w ==> FullRuns(s0, keys, s + run, w)
    ensures |run| <= w ==> Runs(s0, keys, s + run, w)
    decreases |s|
  {
    hide Sorted;
    var u := s + run;
    if s == [] {
      assert u == run;
      assert run[..|run|] == run;
      if |run| == w {
        assert run[w..] == [];
      }
    } else {
      hide Ahead;
      assert s == s[..w] + s[w..];
      AheadSplit(s0, run, s[..w], s[w..]);
      FullRunsAppend(s0, keys, s[w..], run, w);
      assert u[..w] == s[..w] && u[w..] == s[w..] + run;
      AheadSplit(s0, s[..w], s[w..], run);
      if |u| == w {
        assert u[..w] == u;
      }
    }
  }

  /** The first two runs of what is left, as the pass finds them. */
  lemma {:induction false} RunsSplit(s0: seq<nat>, keys: Keys, ps: seq<nat>, qs: seq<nat>, rest: seq<nat>, w: nat)
    requires w > 0 && Runs(s0, keys, ps + (qs + rest), w)
    requires |ps| <= w && |qs| <= w && (|ps| < w ==> qs == [] && rest == []) && (|qs| < w ==> rest == [])
    ensures Sorted(s0, keys, ps) && Sorted(s0, keys, qs) && Ahead(s0, ps, qs + rest)
    ensures Ahead(s0, qs, rest) && Runs(s0, keys, rest, w)
  {
    hide Rank, Before;
    var s, t := ps + (qs + rest), qs + rest;
    if t == [] {
      assert s == ps;
    } else {
      assert s[..w] == ps && s[w..] == t;
      if rest == [] {
        assert t == qs;
      } else {
        assert t[..w] == qs && t[w..] == rest;
      }
    }
  }

  /** Merging the next two runs keeps the output made of sorted runs twice as long. */
  lemma {:induction false} PassStep(s0: seq<nat>, keys: Keys, more: Keys, w: seq<nat>, ps: seq<nat>, qs: seq<nat>,
                                    rest: seq<nat>, run: seq<nat>, n: nat)
    requires n > 0 && Extends(keys, more) && Runs(s0, keys, ps + (qs + rest), n)
    requires |ps| <= n && |qs| <= n && (|ps| < n ==> qs == [] && rest == []) && (|qs| < n ==> rest == [])
    requires FullRuns(s0, keys, w, 2 * n) && Ahead(s0, w, ps + (qs + rest))
    requires Sorted(s0, more, run) && multiset(run) == multiset(ps + qs)
    ensures Runs(s0, more, rest, n) && Ahead(s0, w + run, rest)
    ensures Runs(s0, more, w + run, 2 * n) && (rest != [] ==> FullRuns(s0, more, w + run, 2 * n))
    ensures |run| == |ps| + |qs|
  {
    hide *;
    RunsSplit(s0, keys, ps, qs, rest, n);
    RunsExtend(s0, keys, more, rest, n);
    RunsExtend(s0, keys, more, w, 2 * n);
    AheadSplit(s0, w, ps, qs + rest);
    AheadSplit(s0, w, qs, rest);
    AheadSplit(s0, w, ps, qs);
    AheadPerm(s0, ps + qs, run, w);
    AheadSplit(s0, ps, qs, rest);
    AheadSplit(s0, rest, ps, qs);
    AheadPerm(s0, ps + qs, run, rest);
    AheadSplit(s0, rest, w, run);
    assert |multiset(run)| == |run| && |multiset(ps + qs)| == |ps + qs|;
    FullRunsAppend(s0, more, w, run, 2 * n);
  }

  /** One merge step: if e heads one remaining run and belongs before the head of
      the other, both stay sorted behind the output extended by e. */
  lemma {:induction false} TakeNext(s0: seq<nat>, keys: Keys, run: seq<nat>, e: nat, rest: seq<nat>, other: seq<nat>)
    requires Sorted(s0, keys, run + ([e] + rest)) && Sorted(s0, keys, run + other)
    requires other != [] ==> Before(s0, keys, e, other[0])
    ensures Sorted(s0, keys, (run + [e]) + rest) && Sorted(s0, keys, (run + [e]) + other)
  {
    hide Rank;
    var s, t, u := run + ([e] + rest), run + other, (run + [e]) + other;
    var n := |run|;
    assert s == (run + [e]) + rest;
    forall a, b | 0 <= a < b < |u|
      ensures Before(s0, keys, u[a], u[b])
    {
      if b <= n {
        assert Before(s0, keys, s[a], s[b]);
      } else if a < n {
        assert Before(s0, keys, t[a], t[b - 1]);
      } else if a > n {
        assert Before(s0, keys, t[a - 1], t[b - 1]);
      } else if b > n + 1 {
        assert Before(s0, keys, t[n], t[b - 1]);
      }
    }
  }

  lemma SortedKnown(s0: seq<nat>, keys: Keys, s: seq<nat>)
    requires Sorted(s0, keys, s) && |s| >= 2
    ensures forall a :: 0 <= a < |s| ==> s[a] in keys
  {
    forall a | 0 <= a < |s|
      ensures s[a] in keys
    {
      if a == 0 {
        assert Before(s0, keys, s[0], s[1]);
      } else {
        assert Before(s0, keys, s[0], s[a]);
      }
    }
  }

  lemma SortedTail(s0: seq<nat>, keys: Keys, s: seq<nat>)
    requires Sorted(s0, keys, s) && s != []
    ensures Sorted(s0, keys, s[1..])
    ensures s == [s[0]] + s[1..] && multiset(s[1..]) == multiset(s) - multiset{s[0]}
  {
    assert s == [s[0]] + s[1..];
    forall a, b | 0 <= a < b < |s| - 1
      ensures Before(s0, keys, s[1..][a], s[1..][b])
    {
      assert Before(s0, keys, s[a + 1], s[b + 1]);
    }
  }

  lemma SortedHead(s0: seq<nat>, keys: Keys, s: seq<nat>, t: seq<nat>)
    requires Sorted(s0, keys, s) && Sorted(s0, keys, t) && multiset(s) == multiset(t) && s != []
    ensures t != [] && s[0] == t[0]
  {
    assert s[0] in multiset(t);
    assert t[0] in multiset(s);
    var i :| 0 <= i < |t| && t[i] == s[0];
    var j :| 0 <= j < |s| && s[j] == t[0];
    HeadBefore(s0, keys, t, i);
    HeadBefore(s0, keys, s, j);
    NotBothBefore(s0, keys, t[0], s[0]);
  }

  lemma HeadBefore(s0: seq<nat>, keys: Keys, s: seq<nat>, i: nat)
    requires Sorted(s0, keys, s) && i < |s|
    ensures s[0] == s[i] || Before(s0, keys, s[0], s[i])
  {
  }

  lemma NotBothBefore(s0: seq<nat>, keys: Keys, x: nat, y: nat)
    ensures !(Before(s0, keys, x, y) && Before(s0, keys, y, x))
  {
  }

  /** Sorting stably leaves no choice: two sorted orders of the same nodes are equal. */
  lemma {:induction false} SortedUnique(s0: seq<nat>, keys: Keys, s: seq<nat>, t: seq<nat>)
    requires Sorted(s0, keys, s) && Sorted(s0, keys, t) && multiset(s) == multiset(t)
    ensures s == t
  {
    hide *;
    if s == [] {
      assert |multiset(s)| == |s| && |multiset(t)| == |t|;
    } else {
      SortedHead(s0, keys, s, t);
      SortedTail(s0, keys, s);
      SortedTail(s0, keys, t);
      SortedUnique(s0, keys, s[1..], t[1..]);
    }
  }
}
